/** The derived campaign status and the colour class each status is drawn with.
    The status is computed from the whole number of days left until the end date;
    the clock and the date arithmetic that produce that number are not modelled. */
module CampaignStatus {

  const COMPLETED: string := "Completed"
  const ENDING_SOON: string := "Ending Soon"
  const LIVE: string := "Live"

  /** `getCampaignStatus` once `daysUntilEnd` is known: past the end date the
      campaign is completed, within a week (seven days included) it is ending
      soon, otherwise it is live. */
  function StatusOf(daysUntilEnd: int): (status: string)
    ensures status == COMPLETED <==> daysUntilEnd < 0
    ensures status == ENDING_SOON <==> 0 <= daysUntilEnd <= 7
    ensures status == LIVE <==> daysUntilEnd > 7
  {
    if daysUntilEnd < 0 then COMPLETED
    else if daysUntilEnd <= 7 then ENDING_SOON
    else LIVE
  }

  /** `getStatusColor`: one colour class per known status, grey for anything else. */
  function StatusColor(status: string): (colour: string)
    ensures status == LIVE ==> colour == "bg-green-500"
    ensures status == ENDING_SOON ==> colour == "bg-yellow-500"
    ensures status == COMPLETED ==> colour == "bg-red-500"
    ensures status !in [LIVE, ENDING_SOON, COMPLETED] ==> colour == "bg-gray-500"
  {
    match status
    case "Live" => "bg-green-500"
    case "Ending Soon" => "bg-yellow-500"
    case "Completed" => "bg-red-500"
    case _ => "bg-gray-500"
  }

  /** A status is never drawn grey, and different statuses get different colours. */
  lemma DerivedColours(d1: int, d2: int)
    ensures StatusColor(StatusOf(d1)) != "bg-gray-500"
    ensures StatusOf(d1) != StatusOf(d2) ==> StatusColor(StatusOf(d1)) != StatusColor(StatusOf(d2))
  {
  }

  /** Order of the statuses as the end date approaches. */
  function Stage(status: string): nat {
    if status == LIVE then 2 else if status == ENDING_SOON then 1 else 0
  }

  /** Fewer days left never moves a campaign back towards Live. */
  lemma StatusMonotone(d1: int, d2: int)
    requires d1 <= d2
    ensures Stage(StatusOf(d1)) <= Stage(StatusOf(d2))
  {
  }
}

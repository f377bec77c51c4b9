/** The campaign form: it edits one record, and its platform checkboxes toggle
    a platform in or out of that record's platform list. */
module CampaignFormModel {
  import opened Campaigns
  import opened Selection

  /** The platforms the form offers as checkboxes and the list offers as filters. */
  const PLATFORMS: seq<string> := [
    "Tradedesk", "YouTube Skippable", "YouTube NonSkippable", "Paid Search",
    "Meta", "Linkedin", "Twitter", "Reddit", "Snapchat"
  ]

  /** The form's starting record when no record is being edited. */
  const EMPTY_FORM: Campaign := Campaign("", "", "", [], "", None)

  /** No platform is listed twice. */
  predicate Distinct(ps: seq<string>) {
    forall i, j :: 0 <= i < j < |ps| ==> ps[i] != ps[j]
  }

  /** The callback `(p) => p !== platform`. */
  function Other(platform: string): string -> bool {
    p => p != platform
  }

  /** `ps.filter((p) => p !== platform)`: every occurrence removed. */
  function Without(ps: seq<string>, platform: string): (r: seq<string>)
    ensures platform !in r
    ensures forall q :: q != platform ==> (q in r <==> q in ps)
    ensures platform !in ps ==> r == ps
  {
    SelectMembership(ps, Other(platform));
    assert platform !in ps ==> Select(ps, Other(platform)) == ps by {
      if platform !in ps {
        SelectAll(ps, Other(platform));
      }
    }
    Select(ps, Other(platform))
  }

  /** The remaining platforms keep their order: the result is the list read at
      increasing positions, exactly the positions not holding `platform`. */
  lemma WithoutKeepsOrder(ps: seq<string>, platform: string) returns (idx: seq<nat>)
    ensures |idx| == |Without(ps, platform)|
    ensures forall k :: 0 <= k < |idx| ==> idx[k] < |ps| && Without(ps, platform)[k] == ps[idx[k]]
    ensures forall k, l :: 0 <= k < l < |idx| ==> idx[k] < idx[l]
    ensures forall i :: 0 <= i < |ps| ==> (ps[i] != platform <==> i in idx)
  {
    idx := SelectPositions(ps, Other(platform));
  }

  /** Removing keeps a distinct list distinct. */
  lemma WithoutDistinct(ps: seq<string>, platform: string)
    requires Distinct(ps)
    ensures Distinct(Without(ps, platform))
  {
    SelectDistinct(ps, Other(platform));
  }

  /** `handlePlatformChange`'s new list: drop the platform if listed, otherwise append it. */
  function TogglePlatform(ps: seq<string>, platform: string): (r: seq<string>)
    ensures platform in r <==> platform !in ps
    ensures forall q :: q != platform ==> (q in r <==> q in ps)
    ensures platform !in ps ==> r == ps + [platform]
    ensures platform in ps ==> r == Without(ps, platform)
  {
    if platform in ps then Without(ps, platform) else ps + [platform]
  }

  /** Toggling never introduces a duplicate platform. */
  lemma ToggleKeepsDistinct(ps: seq<string>, platform: string)
    requires Distinct(ps)
    ensures Distinct(TogglePlatform(ps, platform))
  {
    if platform in ps {
      WithoutDistinct(ps, platform);
    }
  }

  /** Ticking an unticked platform and unticking it again restores the list exactly. */
  lemma ToggleTwiceRestores(ps: seq<string>, platform: string)
    requires platform !in ps
    ensures TogglePlatform(TogglePlatform(ps, platform), platform) == ps
  {
    var added := ps + [platform];
    assert added[..|ps|] == ps && added[|ps|] == platform;
    WithoutLast(ps, platform);
  }

  /** Removing the one trailing occurrence gives back the prefix. */
  lemma WithoutLast(ps: seq<string>, platform: string)
    requires platform !in ps
    ensures Without(ps + [platform], platform) == ps
  {
    SelectAppend(ps, [platform], Other(platform));
    assert [platform][1..] == [];
    assert Without(ps, platform) == ps;
  }

  /** A platform listed once, at the end, is also restored by two toggles: the
      first removes it, the second appends it again. */
  lemma ToggleTwiceRestoresLast(ps: seq<string>, platform: string)
    requires platform !in ps
    ensures TogglePlatform(TogglePlatform(ps + [platform], platform), platform) == ps + [platform]
  {
    WithoutLast(ps, platform);
  }

  /** Toggling twice always leaves the same platforms ticked (the order may differ). */
  lemma ToggleTwiceSamePlatforms(ps: seq<string>, platform: string, q: string)
    ensures q in TogglePlatform(TogglePlatform(ps, platform), platform) <==> q in ps
  {
  }

  /** Toggling platforms of the catalogue keeps the list within the catalogue. */
  lemma ToggleWithinCatalogue(ps: seq<string>, platform: string)
    requires forall i :: 0 <= i < |ps| ==> ps[i] in PLATFORMS
    requires platform in PLATFORMS
    ensures forall i :: 0 <= i < |TogglePlatform(ps, platform)| ==> TogglePlatform(ps, platform)[i] in PLATFORMS
  {
    var r := TogglePlatform(ps, platform);
    forall i | 0 <= i < |r|
      ensures r[i] in PLATFORMS
    {
      if r[i] != platform {
        assert r[i] in ps;
      }
    }
  }

  /** The form's state: the record being filled in. */
  class CampaignForm {
    var formData: Campaign

    /** `initialData || { empty record }`. */
    constructor(initialData: Option<Campaign>)
      ensures formData == if initialData.Some? then initialData.value else EMPTY_FORM
    {
      formData := if initialData.Some? then initialData.value else EMPTY_FORM;
    }

    /** A platform checkbox was clicked. */
    method HandlePlatformChange(platform: string)
      modifies this
      ensures formData == old(formData).(platforms := TogglePlatform(old(formData.platforms), platform))
      ensures platform in formData.platforms <==> platform !in old(formData.platforms)
      ensures Distinct(old(formData.platforms)) ==> Distinct(formData.platforms)
    {
      assert Distinct(formData.platforms) ==> Distinct(TogglePlatform(formData.platforms, platform)) by {
        if Distinct(formData.platforms) {
          ToggleKeepsDistinct(formData.platforms, platform);
        }
      }
      formData := formData.(platforms := TogglePlatform(formData.platforms, platform));
    }
  }
}

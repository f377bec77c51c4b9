/** The search / platform filter that produces both visible lists: a record is
    shown when its lower-cased name contains the lower-cased search term and the
    platform filter is empty or names one of the record's platforms. */
module CampaignFilter {
  import opened Text
  import opened Campaigns
  import opened Selection

  /** The callback both `filteredCampaigns` and `filteredArchivedCampaigns` pass to `filter`. */
  predicate Matches(c: Campaign, searchTerm: string, filterPlatform: string) {
    Contains(Lower(c.name), Lower(searchTerm)) &&
    (filterPlatform == "" || filterPlatform in c.platforms)
  }

  function Matcher(searchTerm: string, filterPlatform: string): Campaign -> bool {
    c => Matches(c, searchTerm, filterPlatform)
  }

  /** `cs.filter(Matches)`. */
  function Filter(cs: seq<Campaign>, searchTerm: string, filterPlatform: string): (r: seq<Campaign>)
    ensures |r| <= |cs|
  {
    Select(cs, Matcher(searchTerm, filterPlatform))
  }

  /** The filtered list is the source list read at increasing positions `idx`,
      and those positions are exactly the ones whose record matches: an
      order-preserving subsequence holding every match and nothing else. */
  lemma FilterSelects(cs: seq<Campaign>, searchTerm: string, filterPlatform: string)
    returns (idx: seq<nat>)
    ensures |idx| == |Filter(cs, searchTerm, filterPlatform)|
    ensures forall k :: 0 <= k < |idx| ==>
      idx[k] < |cs| && Filter(cs, searchTerm, filterPlatform)[k] == cs[idx[k]]
    ensures forall k, l :: 0 <= k < l < |idx| ==> idx[k] < idx[l]
    ensures forall i :: 0 <= i < |cs| ==> (Matches(cs[i], searchTerm, filterPlatform) <==> i in idx)
  {
    idx := SelectPositions(cs, Matcher(searchTerm, filterPlatform));
  }

  /** A record is in the filtered list exactly when it is in the source list and matches. */
  lemma FilterMembership(cs: seq<Campaign>, searchTerm: string, filterPlatform: string)
    ensures forall c :: c in Filter(cs, searchTerm, filterPlatform) <==> c in cs && Matches(c, searchTerm, filterPlatform)
  {
    SelectMembership(cs, Matcher(searchTerm, filterPlatform));
  }

  /** Filtering a concatenation filters each part: the view of a list with a
      record appended is the old view plus the record when it matches. */
  lemma FilterAppend(a: seq<Campaign>, b: seq<Campaign>, searchTerm: string, filterPlatform: string)
    ensures Filter(a + b, searchTerm, filterPlatform)
         == Filter(a, searchTerm, filterPlatform) + Filter(b, searchTerm, filterPlatform)
  {
    SelectAppend(a, b, Matcher(searchTerm, filterPlatform));
  }

  /** Filtering an already filtered list changes nothing. */
  lemma FilterIdempotent(cs: seq<Campaign>, searchTerm: string, filterPlatform: string)
    ensures Filter(Filter(cs, searchTerm, filterPlatform), searchTerm, filterPlatform)
         == Filter(cs, searchTerm, filterPlatform)
  {
    SelectIdempotent(cs, Matcher(searchTerm, filterPlatform));
  }

  /** An empty search term matches every name. */
  lemma EmptyTermMatches(c: Campaign)
    ensures Matches(c, "", "")
  {
    assert Lower("") == "";
  }

  /** With no search term and no platform filter every record is shown. */
  lemma FilterNothing(cs: seq<Campaign>)
    ensures Filter(cs, "", "") == cs
  {
    forall i | 0 <= i < |cs|
      ensures Matcher("", "")(cs[i])
    {
      EmptyTermMatches(cs[i]);
    }
    SelectAll(cs, Matcher("", ""));
  }

  /** The search ignores the case of the term: a lower-cased term selects the same records. */
  lemma SearchIgnoresTermCase(c: Campaign, searchTerm: string, filterPlatform: string)
    ensures Matches(c, Lower(searchTerm), filterPlatform) == Matches(c, searchTerm, filterPlatform)
  {
    LowerIdempotent(searchTerm);
  }

  /** The search ignores the case of the name: a lower-cased name matches the same terms. */
  lemma SearchIgnoresNameCase(c: Campaign, searchTerm: string, filterPlatform: string)
    ensures Matches(c.(name := Lower(c.name)), searchTerm, filterPlatform) == Matches(c, searchTerm, filterPlatform)
  {
    LowerIdempotent(c.name);
  }
}

/** Positions in a filtered view. The list's buttons know a record by its
    position among the shown records; the handlers that change the lists take a
    position in the unfiltered list. This module relates the two. */
module ShownRecords {
  import opened Text
  import opened Campaigns
  import opened Selection
  import opened CampaignFilter

  /** The filtered view of a non-empty list: the first record when it matches,
      then the view of the rest. */
  lemma FilterUnfold(cs: seq<Campaign>, searchTerm: string, filterPlatform: string)
    requires cs != []
    ensures Filter(cs, searchTerm, filterPlatform)
         == (if Matches(cs[0], searchTerm, filterPlatform) then [cs[0]] else [])
            + Filter(cs[1..], searchTerm, filterPlatform)
  {
  }

  /** The position in `cs` of the record shown at position `viewIndex` of its
      filtered view: a matching record preceded by exactly `viewIndex` matching
      records. */
  function SourcePosition(cs: seq<Campaign>, searchTerm: string, filterPlatform: string, viewIndex: nat): (i: nat)
    requires viewIndex < |Filter(cs, searchTerm, filterPlatform)|
    ensures i < |cs|
    ensures cs[i] == Filter(cs, searchTerm, filterPlatform)[viewIndex]
    ensures Matches(cs[i], searchTerm, filterPlatform)
    ensures |Filter(cs[..i], searchTerm, filterPlatform)| == viewIndex
    decreases |cs|
  {
    FilterUnfold(cs, searchTerm, filterPlatform);
    var first := Matches(cs[0], searchTerm, filterPlatform);
    if first && viewIndex == 0 then
      assert cs[..0] == [];
      0
    else
      var j := SourcePosition(cs[1..], searchTerm, filterPlatform, if first then viewIndex - 1 else viewIndex);
      assert cs[..j + 1][0] == cs[0] && cs[..j + 1][1..] == cs[1..][..j];
      FilterUnfold(cs[..j + 1], searchTerm, filterPlatform);
      j + 1
  }

  /** Exactly one position fits that description, so `SourcePosition` is the
      record the user clicked and no other. */
  lemma SourcePositionUnique(cs: seq<Campaign>, searchTerm: string, filterPlatform: string, viewIndex: nat, j: nat)
    requires viewIndex < |Filter(cs, searchTerm, filterPlatform)|
    requires j < |cs| && Matches(cs[j], searchTerm, filterPlatform)
    requires |Filter(cs[..j], searchTerm, filterPlatform)| == viewIndex
    ensures j == SourcePosition(cs, searchTerm, filterPlatform, viewIndex)
  {
    var i := SourcePosition(cs, searchTerm, filterPlatform, viewIndex);
    SelectRankUnique(cs, Matcher(searchTerm, filterPlatform), i, j);
  }

  /** Two records that a search for "b" tells apart. */
  const RECORD_A: Campaign := Campaign("A", "", "", [], "", None)
  const RECORD_B: Campaign := Campaign("B", "", "", [], "", None)

  /** The list as written hands the view position straight to the handlers. With
      records "A" then "B" and the search term "b", the view shows only "B", at
      position 0; position 0 of the list is "A", which is not even shown. */
  lemma ViewPositionMisses()
    ensures Filter([RECORD_A, RECORD_B], "b", "") == [RECORD_B]
    ensures [RECORD_A, RECORD_B][0] == RECORD_A != RECORD_B
    ensures !Matches(RECORD_A, "b", "")
  {
    var a, b := RECORD_A, RECORD_B;
    assert Lower("b") == "b";
    assert Lower(a.name) == "a";
    assert Lower(b.name) == "b";
    assert !Contains("", "b");
    assert !Matches(a, "b", "");
    FilterUnfold([a, b], "b", "");
    assert [a, b][1..] == [b];
    FilterUnfold([b], "b", "");
    assert [b][1..] == [];
  }
}

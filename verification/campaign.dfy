/** The campaign record and the sequence edits the tracker performs on records
    and on a record's insight notes. */
module Campaigns {

  datatype Option<+T> = None | Some(value: T)

  /** One campaign. Dates are the `YYYY-MM-DD` text of the form's date inputs.
      `insightNotes` is absent (`None`) on active campaigns and present on
      archived ones. */
  datatype Campaign = Campaign(
    name: string,
    startDate: string,
    endDate: string,
    platforms: seq<string>,
    notes: string,
    insightNotes: Option<seq<string>>)

  /** `c.insightNotes || []`: an absent list reads as empty. */
  function NotesOf(c: Campaign): seq<string> {
    match c.insightNotes
    case Some(ns) => ns
    case None => []
  }

  /** `s.filter((_, i) => i !== index)` for an index inside the list. */
  function RemoveAt<T>(s: seq<T>, index: nat): (r: seq<T>)
    requires index < |s|
    ensures |r| == |s| - 1
    ensures forall j :: 0 <= j < index ==> r[j] == s[j]
    ensures forall j :: index <= j < |r| ==> r[j] == s[j + 1]
  {
    s[..index] + s[index + 1..]
  }

  /** Where `splice(start, 1)` begins: a negative start counts back from the
      end (and stops at 0), a start past the end stops at the end. */
  function SpliceStart(len: nat, start: int): (k: nat)
    ensures k <= len
  {
    if start < 0 then (if len + start < 0 then 0 else len + start)
    else if start > len then len
    else start
  }

  /** The list left behind by `s.splice(start, 1)`. */
  function SpliceOne<T>(s: seq<T>, start: int): (r: seq<T>)
    ensures 0 <= start < |s| ==> r == RemoveAt(s, start)
    ensures start >= |s| ==> r == s
    ensures -|s| <= start < 0 ==> r == RemoveAt(s, |s| + start)
    ensures start < -|s| && s != [] ==> r == s[1..]
    ensures s == [] ==> r == []
  {
    var k := SpliceStart(|s|, start);
    if k < |s| then RemoveAt(s, k) else s
  }

  /** The copy `{ ...campaign, insightNotes: [] }` that archiving appends. */
  function ArchivedCopy(c: Campaign): (r: Campaign)
    ensures r.insightNotes == Some([])
    ensures r.(insightNotes := c.insightNotes) == c
  {
    c.(insightNotes := Some([]))
  }

  /** The record after `addInsightNote` has assigned its new notes. */
  function WithInsightNote(c: Campaign, note: string): (r: Campaign)
    ensures r.insightNotes.Some? && NotesOf(r) == NotesOf(c) + [note]
    ensures r.(insightNotes := c.insightNotes) == c
  {
    c.(insightNotes := Some(NotesOf(c) + [note]))
  }

  /** The record after `deleteInsightNote` has spliced its notes; the source
      reads `insightNotes.splice`, so the notes must be present. */
  function WithoutInsightNote(c: Campaign, noteIndex: int): (r: Campaign)
    requires c.insightNotes.Some?
    ensures r.insightNotes.Some?
    ensures 0 <= noteIndex < |NotesOf(c)| ==> NotesOf(r) == RemoveAt(NotesOf(c), noteIndex)
    ensures noteIndex >= |NotesOf(c)| ==> r == c
    ensures r.(insightNotes := c.insightNotes) == c
  {
    c.(insightNotes := Some(SpliceOne(c.insightNotes.value, noteIndex)))
  }

  /** Adding a note and then deleting the last note restores the record. */
  lemma NoteRoundTrip(c: Campaign, note: string)
    requires c.insightNotes.Some?
    ensures WithoutInsightNote(WithInsightNote(c, note), |NotesOf(c)|) == c
  {
    var ns := NotesOf(c);
    var grown := WithInsightNote(c, note);
    assert RemoveAt(ns + [note], |ns|) == ns;
    assert WithoutInsightNote(grown, |ns|) == grown.(insightNotes := Some(ns));
  }

  /** On a record whose notes are absent the same two steps leave an empty note
      list behind, not an absent one. */
  lemma NoteRoundTripWithoutList(c: Campaign, note: string)
    requires c.insightNotes.None?
    ensures WithoutInsightNote(WithInsightNote(c, note), 0) == c.(insightNotes := Some([]))
  {
    var grown := WithInsightNote(c, note);
    FirstNote(c, note);
    assert RemoveAt([note], 0) == [];
    assert WithoutInsightNote(grown, 0) == grown.(insightNotes := Some([]));
  }

  /** Adding a note to a record whose notes are absent gives a one-note list. */
  lemma FirstNote(c: Campaign, note: string)
    requires c.insightNotes.None?
    ensures WithInsightNote(c, note).insightNotes == Some([note])
  {
    assert NotesOf(c) + [note] == [note];
  }
}

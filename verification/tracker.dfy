/** The tracker page's state: the active and the archived campaign lists, the
    operations that change them, the two filtered views and the CSV export. */
module Tracker {
  import opened Text
  import opened Campaigns
  import opened CampaignFilter
  import opened CsvExport
  import opened ShownRecords

  class CampaignTracker {
    var campaigns: seq<Campaign>
    var archivedCampaigns: seq<Campaign>

    /** Every archived record carries an insight-note list (archiving sets it). */
    ghost predicate Valid()
      reads this
    {
      forall k :: 0 <= k < |archivedCampaigns| ==> archivedCampaigns[k].insightNotes.Some?
    }

    /** Both lists start empty. */
    constructor()
      ensures Valid()
      ensures campaigns == [] && archivedCampaigns == []
    {
      campaigns := [];
      archivedCampaigns := [];
    }

    /** `addCampaign`: the record goes to the end of the active list. */
    method AddCampaign(campaign: Campaign)
      requires Valid()
      modifies this
      ensures Valid()
      ensures campaigns == old(campaigns) + [campaign]
      ensures archivedCampaigns == old(archivedCampaigns)
    {
      campaigns := campaigns + [campaign];
    }

    /** `editCampaign`: `newCampaigns[index] = updatedCampaign`. Inside the list
        the record at `index` is replaced and every other position kept; at the
        end of the list the assignment appends the record, as a JavaScript array
        grows when written one past its end. */
    method EditCampaign(index: nat, updatedCampaign: Campaign)
      requires Valid()
      requires index <= |campaigns|
      modifies this
      ensures Valid()
      ensures |campaigns| == if index < |old(campaigns)| then |old(campaigns)| else |old(campaigns)| + 1
      ensures campaigns[index] == updatedCampaign
      ensures forall j :: 0 <= j < |old(campaigns)| && j != index ==> campaigns[j] == old(campaigns[j])
      ensures archivedCampaigns == old(archivedCampaigns)
    {
      var newCampaigns := campaigns;
      if index < |newCampaigns| {
        newCampaigns := newCampaigns[index := updatedCampaign];
      } else {
        newCampaigns := newCampaigns + [updatedCampaign];
      }
      campaigns := newCampaigns;
    }

    /** `archiveCampaign`: the record leaves the active list, order of the rest kept,
        and a copy with an empty insight-note list goes to the end of the archive. */
    method ArchiveCampaign(index: nat)
      requires Valid()
      requires index < |campaigns|
      modifies this
      ensures Valid()
      ensures campaigns == RemoveAt(old(campaigns), index)
      ensures archivedCampaigns == old(archivedCampaigns) + [ArchivedCopy(old(campaigns[index]))]
    {
      var campaignToArchive := campaigns[index];
      archivedCampaigns := archivedCampaigns + [ArchivedCopy(campaignToArchive)];
      campaigns := RemoveAt(campaigns, index);
    }

    /** `addInsightNote`: the note goes to the end of one archived record's notes. */
    method AddInsightNote(index: nat, note: string)
      requires Valid()
      requires index < |archivedCampaigns|
      modifies this
      ensures Valid()
      ensures campaigns == old(campaigns)
      ensures |archivedCampaigns| == |old(archivedCampaigns)|
      ensures archivedCampaigns[index] == WithInsightNote(old(archivedCampaigns[index]), note)
      ensures forall k :: 0 <= k < |archivedCampaigns| && k != index ==>
        archivedCampaigns[k] == old(archivedCampaigns[k])
    {
      var newArchivedCampaigns := archivedCampaigns;
      newArchivedCampaigns := newArchivedCampaigns[index := WithInsightNote(newArchivedCampaigns[index], note)];
      archivedCampaigns := newArchivedCampaigns;
    }

    /** `deleteInsightNote`: `splice(noteIndex, 1)` on one archived record's notes. */
    method DeleteInsightNote(campaignIndex: nat, noteIndex: int)
      requires Valid()
      requires campaignIndex < |archivedCampaigns|
      modifies this
      ensures Valid()
      ensures campaigns == old(campaigns)
      ensures |archivedCampaigns| == |old(archivedCampaigns)|
      ensures archivedCampaigns[campaignIndex] == WithoutInsightNote(old(archivedCampaigns[campaignIndex]), noteIndex)
      ensures forall k :: 0 <= k < |archivedCampaigns| && k != campaignIndex ==>
        archivedCampaigns[k] == old(archivedCampaigns[k])
    {
      var newArchivedCampaigns := archivedCampaigns;
      var c := newArchivedCampaigns[campaignIndex];
      newArchivedCampaigns := newArchivedCampaigns[campaignIndex := WithoutInsightNote(c, noteIndex)];
      archivedCampaigns := newArchivedCampaigns;
    }

    /** The Edit button of the active record shown at `viewIndex`, its position
        mapped back to the active list: exactly the shown record is replaced. */
    method EditShown(searchTerm: string, filterPlatform: string, viewIndex: nat, updatedCampaign: Campaign)
      requires Valid()
      requires viewIndex < |Filter(campaigns, searchTerm, filterPlatform)|
      modifies this
      ensures Valid()
      ensures var i := SourcePosition(old(campaigns), searchTerm, filterPlatform, viewIndex);
        old(campaigns[i]) == Filter(old(campaigns), searchTerm, filterPlatform)[viewIndex]
        && campaigns == old(campaigns)[i := updatedCampaign]
      ensures archivedCampaigns == old(archivedCampaigns)
    {
      var i := SourcePosition(campaigns, searchTerm, filterPlatform, viewIndex);
      EditCampaign(i, updatedCampaign);
    }

    /** The Archive button of the active record shown at `viewIndex`: the shown
        record is the one archived and removed. */
    method ArchiveShown(searchTerm: string, filterPlatform: string, viewIndex: nat)
      requires Valid()
      requires viewIndex < |Filter(campaigns, searchTerm, filterPlatform)|
      modifies this
      ensures Valid()
      ensures archivedCampaigns
           == old(archivedCampaigns) + [ArchivedCopy(Filter(old(campaigns), searchTerm, filterPlatform)[viewIndex])]
      ensures campaigns == RemoveAt(old(campaigns), SourcePosition(old(campaigns), searchTerm, filterPlatform, viewIndex))
    {
      var i := SourcePosition(campaigns, searchTerm, filterPlatform, viewIndex);
      ArchiveCampaign(i);
    }

    /** The insight-note input of the archived record shown at `viewIndex`: the
        note goes to that record and no other. */
    method AddInsightNoteShown(searchTerm: string, filterPlatform: string, viewIndex: nat, note: string)
      requires Valid()
      requires viewIndex < |Filter(archivedCampaigns, searchTerm, filterPlatform)|
      modifies this
      ensures Valid()
      ensures campaigns == old(campaigns)
      ensures var i := SourcePosition(old(archivedCampaigns), searchTerm, filterPlatform, viewIndex);
        old(archivedCampaigns[i]) == Filter(old(archivedCampaigns), searchTerm, filterPlatform)[viewIndex]
        && archivedCampaigns == old(archivedCampaigns)[i := WithInsightNote(old(archivedCampaigns[i]), note)]
    {
      var i := SourcePosition(archivedCampaigns, searchTerm, filterPlatform, viewIndex);
      AddInsightNote(i, note);
    }

    /** The Delete button of note `noteIndex` of the archived record shown at
        `viewIndex`: the note leaves that record and no other. */
    method DeleteInsightNoteShown(searchTerm: string, filterPlatform: string, viewIndex: nat, noteIndex: int)
      requires Valid()
      requires viewIndex < |Filter(archivedCampaigns, searchTerm, filterPlatform)|
      modifies this
      ensures Valid()
      ensures campaigns == old(campaigns)
      ensures var i := SourcePosition(old(archivedCampaigns), searchTerm, filterPlatform, viewIndex);
        old(archivedCampaigns[i]) == Filter(old(archivedCampaigns), searchTerm, filterPlatform)[viewIndex]
        && archivedCampaigns == old(archivedCampaigns)[i := WithoutInsightNote(old(archivedCampaigns[i]), noteIndex)]
    {
      var i := SourcePosition(archivedCampaigns, searchTerm, filterPlatform, viewIndex);
      DeleteInsightNote(i, noteIndex);
    }

    /** `filteredCampaigns`: the active records that match, in list order. */
    function FilteredCampaigns(searchTerm: string, filterPlatform: string): (r: seq<Campaign>)
      reads this
      ensures forall c :: c in r <==> c in campaigns && Matches(c, searchTerm, filterPlatform)
      ensures searchTerm == "" && filterPlatform == "" ==> r == campaigns
    {
      FilterMembership(campaigns, searchTerm, filterPlatform);
      FilterNothing(campaigns);
      Filter(campaigns, searchTerm, filterPlatform)
    }

    /** `filteredArchivedCampaigns`: the archived records that match, in list order. */
    function FilteredArchivedCampaigns(searchTerm: string, filterPlatform: string): (r: seq<Campaign>)
      reads this
      ensures forall c :: c in r <==> c in archivedCampaigns && Matches(c, searchTerm, filterPlatform)
      ensures searchTerm == "" && filterPlatform == "" ==> r == archivedCampaigns
    {
      FilterMembership(archivedCampaigns, searchTerm, filterPlatform);
      FilterNothing(archivedCampaigns);
      Filter(archivedCampaigns, searchTerm, filterPlatform)
    }

    /** The CSV text `exportData("csv")` downloads: the archive when it is shown,
        the active list otherwise. */
    function ExportCsv(showArchive: bool): (text: string)
      reads this
      ensures var data := if showArchive then archivedCampaigns else campaigns;
        data == [] ==> text == HEADER + "\n"
      ensures var data := if showArchive then archivedCampaigns else campaigns;
        data != [] && (forall i :: 0 <= i < |data| ==> FieldsFree(data[i], '\n')) ==>
        Split(text, '\n') == [HEADER] + Rows(data)
    {
      var data := if showArchive then archivedCampaigns else campaigns;
      assert data != [] && (forall i :: 0 <= i < |data| ==> FieldsFree(data[i], '\n')) ==>
        Split(CsvText(data), '\n') == [HEADER] + Rows(data) by {
        if data != [] && (forall i :: 0 <= i < |data| ==> FieldsFree(data[i], '\n')) {
          CsvLines(data);
        }
      }
      CsvText(data)
    }
  }

  /** Adding an insight note and then deleting the note at the last position
      leaves both lists exactly as they were. */
  method AddThenDeleteNote(tracker: CampaignTracker, index: nat, note: string)
    requires tracker.Valid()
    requires index < |tracker.archivedCampaigns|
    modifies tracker
    ensures tracker.Valid()
    ensures tracker.campaigns == old(tracker.campaigns)
    ensures tracker.archivedCampaigns == old(tracker.archivedCampaigns)
  {
    ghost var before := tracker.archivedCampaigns[index];
    var last := |NotesOf(tracker.archivedCampaigns[index])|;
    tracker.AddInsightNote(index, note);
    tracker.DeleteInsightNote(index, last);
    NoteRoundTrip(before, note);
    assert tracker.archivedCampaigns == old(tracker.archivedCampaigns);
  }

  /** The Archive button of the first shown record, as written: with records "A"
      then "B" and the search term "b" the view shows only "B", yet the button's
      `archiveCampaign(0)` archives "A" and leaves "B" active. */
  method ArchiveFirstShownAsWritten() returns (tracker: CampaignTracker)
    ensures tracker.Valid()
    ensures Filter([RECORD_A, RECORD_B], "b", "") == [RECORD_B]
    ensures tracker.archivedCampaigns == [ArchivedCopy(RECORD_A)]
    ensures tracker.campaigns == [RECORD_B]
  {
    tracker := new CampaignTracker();
    tracker.AddCampaign(RECORD_A);
    tracker.AddCampaign(RECORD_B);
    ViewPositionMisses();
    tracker.ArchiveCampaign(0);
    assert RemoveAt([RECORD_A, RECORD_B], 0) == [RECORD_B];
  }
}

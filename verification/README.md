# Campaign tracker: a Dafny model of its list logic

The campaign tracker is a single-page form over two in-memory lists of
marketing-campaign records. These are the active campaigns and the archived
campaigns. Users add and edit active records, and archive them. Archiving
copies a record, with an empty list of "insight notes", to the end of the
archive and removes it from the active list. Users can append insight notes
to archived records and delete them by position. Both lists are shown through
a search/platform filter. The whole active list, or the whole archive when it
is shown, can be exported as CSV text. The export ignores the search term and
the platform filter. Each
active record is labelled Completed, Ending Soon or Live from the number of
days left until its end date. In the record form, one checkbox per platform
toggles that platform in or out of the record's platform list.

This project models that logic and proves properties of it:

- `campaign.dfy` (`Campaigns`): the record, and the sequence edits applied to
  records and to their insight notes. These are removal at a position,
  `splice(i, 1)` with JavaScript's index clamping, the archived copy, and
  adding or deleting a note.
- `selection.dfy` (`Selection`): `Array.prototype.filter` with a pure
  callback. It proves the result is an order-preserving subsequence whose
  positions are exactly the kept ones.
- `filter.dfy` (`CampaignFilter`): the search/platform predicate and the
  filter applied to both lists.
- `view.dfy` (`ShownRecords`): how a position in a filtered view maps to a
  position in the unfiltered list. This matters for the finding below.
- `text.dfy` (`Text`): ASCII lower-casing, `includes`, `join`, and a
  single-character `split` that undoes `join`.
- `status.dfy` (`CampaignStatus`): the status thresholds and the colour classes.
- `csv.dfy` (`CsvExport`): the exported CSV text, and how it reads back line
  by line and field by field.
- `form.dfy` (`CampaignFormModel`): the platform toggle and the form object.
- `tracker.dfy` (`Tracker`): the page state as a class with the two lists as
  `seq` fields. Its methods change the lists. The filtered views and the
  export are functions that read them.

Points about the code that the model keeps:

- Status labels are the exact strings the code returns, such as `"Ending Soon"`.
- A record's platforms are an ordered list, not a set. The toggle's `filter`
  removes every copy of a platform (main.js:292). Its spread appends one copy
  at the end (main.js:293).
- So toggling a platform twice restores the list exactly when the platform was
  absent, or was listed once at the end. Otherwise the same platforms are ticked
  afterwards, but the platform has moved to the end and any duplicates of it
  have collapsed to one copy.
- The export of an empty list is the header followed by a line break.

## Model

| member | source | states |
|---|---|---|
| `Text.Lower` | main.js:66 | the model's `toLowerCase` restricted to ASCII: it maps each character on its own, so the model's lower-casing keeps the length (JavaScript's full `toLowerCase` need not, e.g. for "İ") |
| `Text.Contains` | main.js:66 | `includes`: the term is a prefix of some suffix of the text. `Text.ContainsIffOccurs` states its meaning |
| `Text.LowerIdempotent` | main.js:66 | lower-casing an already lower-cased string changes nothing |
| `Text.ContainsIffOccurs` | main.js:66 | `includes` holds exactly when the term occurs at some position of the text |
| `Text.Join` | main.js:85-89 | `Array.prototype.join`: the parts with the separator between neighbours. `Text.JoinSnoc`, `Text.JoinExcludes` and `Text.SplitJoin` state its meaning |
| `Text.JoinSnoc` | main.js:82-89 | joining a list with one more element appends the separator and that element |
| `Text.JoinExcludes` | main.js:85-87 | a character in no part and not in the separator is not in the joined text |
| `Text.SplitJoin` | main.js:82-89 | splitting at the separator gives back the joined parts when none contains it |
| `Text.JoinSplit` | main.js:82-89 | joining the pieces of a split gives the text back, so the pieces of a split determine the text |
| `Selection.Select` | main.js:64-74 | `filter` returns no more elements than its input, and each one passes the callback |
| `Selection.SelectPositions` | main.js:64-74 | the result is the input read at strictly increasing positions, and those are exactly the positions whose element passes the callback |
| `Selection.SelectMembership` | main.js:64-74 | a value is in the result exactly when it is in the input and passes the callback |
| `Selection.SelectAppend` | main.js:64-74 | filtering a concatenation concatenates the filtered parts |
| `Selection.SelectIdempotent` | main.js:64-74 | filtering the result again changes nothing |
| `Selection.SelectAll` | main.js:64-74 | when every element passes, the whole input is returned |
| `Selection.SelectPrefixStep` | main.js:64-74 | selecting from a prefix one element longer adds that element exactly when it is kept |
| `Selection.SelectPrefixGrows` | main.js:64-74 | a longer prefix never selects fewer elements |
| `Selection.SelectDistinct` | main.js:292 | filtering a list without repeats gives a list without repeats |
| `Selection.SelectRankUnique` | main.js:64-74 | two kept positions preceded by the same number of kept elements are the same position |
| `Campaigns.NotesOf` | main.js:52 | `insightNotes` or else `[]`: an absent note list reads as empty. `Campaigns.WithInsightNote` and `Campaigns.FirstNote` state what it gives |
| `Campaigns.SpliceStart` | main.js:60 | where `splice(start, 1)` begins: a negative start counts back from the end and stops at 0, and a start past the end stops at the end. It never passes the end. `Campaigns.SpliceOne` states the resulting list |
| `Campaigns.RemoveAt` | main.js:45 | removing position `index` leaves one element fewer: the ones before it unchanged and the ones after it moved down by one |
| `Campaigns.SpliceOne` | main.js:60 | `splice(start, 1)` removes exactly position `start` when it is inside the list. It counts back from the end for a negative start, removes the first element when the start is before the beginning, and changes nothing when the start is at or past the end or the list is empty |
| `Campaigns.ArchivedCopy` | main.js:43 | the archived copy has an empty insight-note list and every other field of the original |
| `Campaigns.WithInsightNote` | main.js:51-54 | the notes become the old notes (empty when absent) with the new note at the end. No other field changes |
| `Campaigns.WithoutInsightNote` | main.js:60 | an index inside the notes removes exactly that note. An index at or past the end changes nothing. No other field changes |
| `Campaigns.NoteRoundTrip` | main.js:49-61 | for a record that already has a note list, adding a note and then deleting the last note gives back the original record |
| `Campaigns.NoteRoundTripWithoutList` | main.js:49-61 | for a record without a note list, the same two steps leave an empty list behind rather than no list |
| `Campaigns.FirstNote` | main.js:52 | a record with no note list gets the one-note list `[note]` |
| `CampaignFilter.Matches` | main.js:66-67 | the callback of both filters: the lower-cased name contains the lower-cased term, and the platform filter is empty or listed by the record. `CampaignFilter.FilterSelects` and `CampaignFilter.FilterMembership` state its role |
| `CampaignFilter.Filter` | main.js:64-74 | `filter` with that callback: it never shows more records than the list has. `CampaignFilter.FilterSelects` states exactly which records it shows, and in what order |
| `CampaignFilter.FilterSelects` | main.js:64-74 | the filtered list is an order-preserving subsequence of the source. A position is kept exactly when its record's lower-cased name contains the lower-cased term and the platform filter is empty or listed by the record |
| `CampaignFilter.FilterMembership` | main.js:64-74 | a record is shown exactly when it is in the source list and matches |
| `CampaignFilter.FilterAppend` | main.js:64-74 | the view of a concatenation is the concatenation of the views, so a record appended to a list is appended to its view when it matches |
| `CampaignFilter.FilterIdempotent` | main.js:64-74 | filtering the filtered list again changes nothing |
| `CampaignFilter.EmptyTermMatches` | main.js:66-67 | an empty term and an empty platform filter match every record |
| `CampaignFilter.FilterNothing` | main.js:64-74 | with term `""` and platform `""` the whole list is shown |
| `CampaignFilter.SearchIgnoresTermCase` | main.js:66 | lower-casing the search term first selects the same records |
| `CampaignFilter.SearchIgnoresNameCase` | main.js:66 | lower-casing a record's name does not change whether it matches |
| `ShownRecords.SourcePosition` | main.js:185-250 | the record shown at view position `viewIndex` sits at the returned position of the unfiltered list: it matches, and exactly `viewIndex` matching records come before it |
| `ShownRecords.SourcePositionUnique` | main.js:185-250 | no other position of the unfiltered list fits that description |
| `ShownRecords.ViewPositionMisses` | main.js:185-250 | with records "A" then "B" and search term "b", the view shows "B" at position 0, while position 0 of the list holds "A", which is not shown |
| `CampaignStatus.StatusOf` | main.js:106-108 | `Completed` exactly for `d < 0`, `Ending Soon` exactly for `0 <= d <= 7` (7 included), `Live` exactly for `d > 7`, so every `d` gets exactly one status |
| `CampaignStatus.StatusColor` | main.js:111-122 | green for Live, yellow for Ending Soon, red for Completed, grey for any other string |
| `CampaignStatus.DerivedColours` | main.js:106-122 | a computed status is never drawn grey, and different statuses get different colours |
| `CampaignStatus.StatusMonotone` | main.js:106-108 | fewer days left never moves a campaign back towards Live |
| `CsvExport.Row` | main.js:85-87 | the template literal of one record. It starts and ends with a double quote. `CsvExport.RowIsQuotedJoin` and `CsvExport.RowFields` state its layout |
| `CsvExport.CsvText` | main.js:81-89 | the header, a line break and the rows joined by line breaks. It always starts with the header line. `CsvExport.CsvLines` states its layout |
| `CsvExport.Rows` | main.js:82-89 | one row per record |
| `CsvExport.RowIsQuotedJoin` | main.js:85-87 | a row is the five field values, with the platforms joined by `", "`, each wrapped in `"` and separated by `,` |
| `CsvExport.RowFields` | main.js:85-87 | cutting a row at its quotes gives back each field value when no field contains a quote |
| `CsvExport.RowFreeOf` | main.js:85-87 | a row contains a character only if one of its fields does (or the character is one the row adds) |
| `CsvExport.CsvOfNothing` | main.js:81-89 | the export of an empty list is the header line and a line break |
| `CsvExport.CsvAppend` | main.js:82-89 | appending a record to a non-empty list appends a line break and that record's row |
| `CsvExport.CsvLines` | main.js:81-89 | cutting the export of a non-empty list at its line breaks gives the header and then exactly one row per record in list order, when no field contains a line break |
| `CsvExport.CsvExample` | main.js:81-89 | the export of one sample record is the header, a line break and a row that is exactly the quote-join of the fields `Q1 Launch`, the two dates, `Meta, Reddit` and `test` with the commas between them, and that cuts back into those fields |
| `CampaignFormModel.Without` | main.js:292 | `filter((p) => p !== platform)`: every copy of the platform is removed and every other platform kept. When the platform is absent, the list is unchanged |
| `CampaignFormModel.WithoutKeepsOrder` | main.js:292 | the result is the list read at strictly increasing positions, exactly those not holding the platform. So the other platforms keep their order and their copies |
| `CampaignFormModel.WithoutDistinct` | main.js:292 | removing a platform keeps a duplicate-free list duplicate-free |
| `CampaignFormModel.WithoutLast` | main.js:292-293 | removing a platform that was just appended to a list without it gives the list back |
| `CampaignFormModel.TogglePlatform` | main.js:290-295 | an absent platform is appended at the end (`ps + [platform]`). A present one is removed with `Without`. So afterwards the platform is listed exactly when it was not listed before, and every other platform keeps its membership |
| `CampaignFormModel.ToggleKeepsDistinct` | main.js:290-295 | a toggle never introduces a duplicate platform |
| `CampaignFormModel.ToggleTwiceRestores` | main.js:290-295 | toggling an absent platform twice restores the list exactly |
| `CampaignFormModel.ToggleTwiceRestoresLast` | main.js:290-295 | toggling a platform listed once, at the end, twice restores the list exactly |
| `CampaignFormModel.ToggleTwiceSamePlatforms` | main.js:290-295 | toggling any platform twice leaves the same platforms listed |
| `CampaignFormModel.ToggleWithinCatalogue` | main.js:14-24 | the constant `PLATFORMS` is the catalogue of nine platforms. The checkboxes (main.js:335-340) toggle only those, and toggling them keeps the list inside the catalogue |
| `CampaignFormModel.CampaignForm.constructor` | main.js:275-283 | the form starts from the record being edited, or else from `EMPTY_FORM`: empty name, dates and notes, and no platforms (main.js:276-282) |
| `CampaignFormModel.CampaignForm.HandlePlatformChange` | main.js:290-295 | only the form record's platforms change, and they become the toggled list |
| `Tracker.CampaignTracker.constructor` | main.js:6-7 | both lists start empty |
| `Tracker.CampaignTracker.AddCampaign` | main.js:26-29 | the active list gains the record at its end. The archive is unchanged |
| `Tracker.CampaignTracker.EditCampaign` | main.js:31-37 | the new record is at `index`. Every other old position and the archive are unchanged. Inside the list the length is kept. When `index` equals the list's length, the assignment appends, so the list grows by one |
| `Tracker.CampaignTracker.ArchiveCampaign` | main.js:39-47 | the active list loses exactly position `index`, in order. The archive gains that record, with empty insight notes, at its end |
| `Tracker.CampaignTracker.AddInsightNote` | main.js:49-56 | only archived record `index` changes: the note is appended to its notes |
| `Tracker.CampaignTracker.DeleteInsightNote` | main.js:58-62 | only archived record `campaignIndex` changes: its notes are spliced at `noteIndex` |
| `Tracker.CampaignTracker.EditShown` | main.js:185-210 | the edit replaces exactly the record shown at `viewIndex`. Nothing else changes |
| `Tracker.CampaignTracker.ArchiveShown` | main.js:185-210 | the record shown at `viewIndex` is the one removed from the active list and copied to the archive |
| `Tracker.CampaignTracker.AddInsightNoteShown` | main.js:222-250 | the note goes to exactly the archived record shown at `viewIndex` |
| `Tracker.CampaignTracker.DeleteInsightNoteShown` | main.js:222-250 | the note is deleted from exactly the archived record shown at `viewIndex` |
| `Tracker.CampaignTracker.FilteredCampaigns` | main.js:64-68 | the shown active records are exactly the matching ones. With empty term and platform, the whole list is shown |
| `Tracker.CampaignTracker.FilteredArchivedCampaigns` | main.js:70-74 | the shown archived records are exactly the matching ones. With empty term and platform, the whole list is shown |
| `Tracker.CampaignTracker.ExportCsv` | main.js:76-89 | exports the archive when it is shown and the active list otherwise. For an empty list the text is the header and a line break. Otherwise, when no field contains a line break, the text is the header and then one line per record |
| `Tracker.ArchiveFirstShownAsWritten` | main.js:185-210 | the code as written, with records "A" then "B" and search term "b": only "B" is shown, yet its Archive button archives "A" and leaves "B" active |
| `Tracker.AddThenDeleteNote` | main.js:49-62 | adding an insight note and then deleting the last note leaves both lists as they were |

## Left out

- Rendering, hooks and UI-only state (main.js:124-270, 302-357) are not modelled: the JSX, the `useState` setters, `showForm`, `editIndex`, the `StylizedButton` component and the styling. `showArchive` appears only as the parameter of `ExportCsv`. The search term and platform filter are parameters of the filtered views.
- The form's field wiring is not modelled: `handleChange` (main.js:285-288) and `handleSubmit` (main.js:297-300) only copy input values into the record and hand it to the page.
- The browser download is not modelled (main.js:80, 90-96): the `data:` prefix, `encodeURI` and the link element. Only the CSV text is.
- The `pdf` export branch (main.js:97-98) is empty, so there is nothing to model.
- The date arithmetic is not modelled (main.js:102-104). `CampaignStatus.StatusOf` takes the whole number of days left as input, because the clock, millisecond subtraction and `Math.ceil` of a floating-point quotient are outside the model.
- `Text.Lower` maps only the ASCII letters A-Z. `toLowerCase` over the rest of Unicode is not modelled.
- `Tracker.CampaignTracker.EditCampaign` requires `index <= |campaigns|`. `newCampaigns[index] = updatedCampaign` further past the end leaves holes (`undefined` entries) in the array. The model has no such entries. This case is reachable with a stale edit position: open Edit, archive earlier records while the form is open, then submit.
- `Tracker.CampaignTracker.ArchiveCampaign` requires a position inside the active list. Outside it, the source archives `{ ...undefined, insightNotes: [] }`, a record holding only an empty note list, and leaves the active list as it was. Such a record has none of the model's fields.
- `Tracker.CampaignTracker.AddInsightNote` and `Tracker.CampaignTracker.DeleteInsightNote` require a position inside the archive. Outside it, the source throws a TypeError on `undefined[...]` (main.js:51, 60). The model has no exceptions.
- Records are values. `addInsightNote` and `deleteInsightNote` update the record object in place, and that object is shared with the previous array. This sharing is not modelled. It is not visible in the lists' new contents, because archiving stores a fresh copy of the record.
- `Tracker.CampaignTracker.DeleteInsightNote` requires the tracker invariant, which says every archived record has a note list. In the source, `splice` on a missing list throws. The model does not include that failure, because archiving always sets the list.
- Records have the five fields of the form (main.js:276-282), plus `insightNotes`, which archiving adds (main.js:43). Extra properties that the object spread would carry along, and a `notes` value printed as `undefined`, do not arise.
- `Tracker.CampaignTracker.ExportCsv` states the one-line-per-record layout only when no field contains a line break. The notes field is a multi-line text area (main.js:348-354), and the row copies the notes verbatim (main.js:87). A note typed over several lines therefore spreads its record over several lines of the export.
- `CsvExport.CsvLines` and `CsvExport.RowFields` read the export back only when no field contains a line break or a double quote. The source escapes nothing, so such a field breaks the layout.

## Findings

| source | as written | input that shows it | evidently intended | confidence | as-written member | corrected member |
|---|---|---|---|---|---|---|
| main.js:185-250 | The Edit, Archive, Delete-note and Add-note buttons pass the record's position in the filtered view (the `index` of `filteredCampaigns.map` and `filteredArchivedCampaigns.map`). The handlers use it as a position in the unfiltered list. | Active list "A", "B". Search term "b". The view shows only "B", at position 0. Its Archive button calls `archiveCampaign(0)`, which archives "A". | The button acts on the record it is drawn next to. | high (follows from the code; not executed) | `Tracker.ArchiveFirstShownAsWritten`, with `ShownRecords.ViewPositionMisses` | `ShownRecords.SourcePosition` with `ShownRecords.SourcePositionUnique`, used by `Tracker.CampaignTracker.EditShown`, `ArchiveShown`, `AddInsightNoteShown` and `DeleteInsightNoteShown` |

The handlers themselves (`Tracker.CampaignTracker.EditCampaign`, `ArchiveCampaign`, `AddInsightNote` and `DeleteInsightNote`) are modelled as written. They take a position in the unfiltered list. The methods named `...Shown` model the buttons with the position mapped back to the unfiltered list. With an empty search term and no platform filter, the two positions agree (`CampaignFilter.FilterNothing`).

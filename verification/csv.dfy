/** The text of the CSV export: a fixed header line, then one row per record in
    list order. Every field is wrapped in double quotes and nothing inside a field
    is escaped, so the layout can be read back only from fields that contain no
    quote and no line break. */
module CsvExport {
  import opened Text
  import opened Campaigns

  const HEADER: string := "Name,Start Date,End Date,Platforms,Notes"

  /** One exported row: the five fields quoted and separated by commas, the
      platforms joined with ", ". */
  function Row(c: Campaign): (row: string)
    ensures |row| >= 2 && row[0] == '"' && row[|row| - 1] == '"'
  {
    "\"" + c.name + "\",\"" + c.startDate + "\",\"" + c.endDate + "\",\""
    + Join(c.platforms, ", ") + "\",\"" + c.notes + "\""
  }

  /** The rows of the records, in list order. */
  function Rows(records: seq<Campaign>): (rows: seq<string>)
    ensures |rows| == |records|
  {
    seq(|records|, i requires 0 <= i < |records| => Row(records[i]))
  }

  /** The exported text, without the browser's `data:` prefix. */
  function CsvText(records: seq<Campaign>): (text: string)
    ensures HEADER + "\n" <= text
  {
    HEADER + "\n" + Join(Rows(records), "\n")
  }

  /** No field of the record, and none of its platforms, contains `ch`. */
  predicate FieldsFree(c: Campaign, ch: char) {
    ch !in c.name && ch !in c.startDate && ch !in c.endDate && ch !in c.notes
    && forall i :: 0 <= i < |c.platforms| ==> ch !in c.platforms[i]
  }

  /** The pieces a row falls into when cut at its double quotes: the five field
      values, separated by the commas between the quoted fields. */
  function RowPieces(c: Campaign): seq<string> {
    ["", c.name, ",", c.startDate, ",", c.endDate, ",", Join(c.platforms, ", "), ",", c.notes, ""]
  }

  /** The row after its opening quote, grouped field by field from the right. */
  function RowTail(c: Campaign): string {
    var sep := "\",\"";
    c.name + sep + (c.startDate + sep + (c.endDate + sep + (Join(c.platforms, ", ") + sep + (c.notes + "\""))))
  }

  lemma RowRegrouped(c: Campaign)
    ensures Row(c) == "\"" + RowTail(c)
  {
    var q, sep := "\"", "\",\"";
    var plats := Join(c.platforms, ", ");
    var r5 := c.notes + q;
    var r4 := plats + sep + r5;
    var r3 := c.endDate + sep + r4;
    var r2 := c.startDate + sep + r3;
    assert Row(c) == q + c.name + sep + c.startDate + sep + c.endDate + sep + plats + sep + r5;
    assert Row(c) == q + c.name + sep + c.startDate + sep + c.endDate + sep + r4;
    assert Row(c) == q + c.name + sep + c.startDate + sep + r3;
    assert Row(c) == q + c.name + sep + r2;
  }

  /** A value followed by `","` between quotes, then more pieces, is the
      quote-join of the value, a comma and those pieces. */
  lemma QuotedJoinStep(v: string, rest: seq<string>)
    requires rest != []
    ensures v + "\",\"" + Join(rest, "\"") == Join([v, ","] + rest, "\"")
  {
    var q := "\"";
    JoinCons(",", rest, q);
    assert [v, ","] + rest == [v] + ([","] + rest);
    JoinCons(v, [","] + rest, q);
  }

  /** Five values, each but the first preceded by `","` between quotes and the
      last followed by a quote, are the quote-join of the values and the commas. */
  lemma FieldsQuotedJoin(v1: string, v2: string, v3: string, v4: string, v5: string)
    ensures v1 + "\",\"" + (v2 + "\",\"" + (v3 + "\",\"" + (v4 + "\",\"" + (v5 + "\""))))
         == Join([v1, ",", v2, ",", v3, ",", v4, ",", v5, ""], "\"")
  {
    var q := "\"";
    var t2: seq<string> := [v5, ""];
    JoinCons(v5, [""], q);
    assert [v5] + [""] == t2;
    QuotedJoinStep(v4, t2);
    QuotedJoinStep(v3, [v4, ","] + t2);
    QuotedJoinStep(v2, [v3, ","] + ([v4, ","] + t2));
    QuotedJoinStep(v1, [v2, ","] + ([v3, ","] + ([v4, ","] + t2)));
    assert [v1, ","] + ([v2, ","] + ([v3, ","] + ([v4, ","] + t2)))
        == [v1, ",", v2, ",", v3, ",", v4, ",", v5, ""];
  }

  lemma TailIsQuotedJoin(c: Campaign)
    ensures RowTail(c) == Join(RowPieces(c)[1..], "\"")
  {
    FieldsQuotedJoin(c.name, c.startDate, c.endDate, Join(c.platforms, ", "), c.notes);
    assert RowPieces(c)[1..] == [c.name, ",", c.startDate, ",", c.endDate, ",", Join(c.platforms, ", "), ",", c.notes, ""];
  }

  /** A row is its pieces joined by double quotes. */
  lemma RowIsQuotedJoin(c: Campaign)
    ensures Row(c) == Join(RowPieces(c), "\"")
  {
    RowRegrouped(c);
    TailIsQuotedJoin(c);
    assert RowPieces(c)[0] == "";
  }

  /** Cutting a row at its double quotes gives back each field, provided no
      field contains a double quote. */
  lemma RowFields(c: Campaign)
    requires FieldsFree(c, '"')
    ensures Split(Row(c), '"') == RowPieces(c)
  {
    RowIsQuotedJoin(c);
    JoinExcludes(c.platforms, ", ", '"');
    SplitJoin(RowPieces(c), '"');
  }

  /** A row contains a line break only if one of its fields does. */
  lemma RowFreeOf(c: Campaign, ch: char)
    requires FieldsFree(c, ch)
    requires ch !in "\",\"" && ch !in ", "
    ensures ch !in Row(c)
  {
    JoinExcludes(c.platforms, ", ", ch);
  }

  /** With no records the export is the header line and a line break. */
  lemma CsvOfNothing()
    ensures CsvText([]) == HEADER + "\n"
  {
  }

  /** Appending a record appends a line break and its row. */
  lemma CsvAppend(records: seq<Campaign>, c: Campaign)
    requires records != []
    ensures CsvText(records + [c]) == CsvText(records) + "\n" + Row(c)
  {
    assert Rows(records + [c]) == Rows(records) + [Row(c)];
    JoinSnoc(Rows(records), Row(c), "\n");
  }

  lemma HeaderSingleLine()
    ensures '\n' !in HEADER
  {
  }

  /** No exported row contains a line break when no field does. */
  lemma RowsSingleLine(records: seq<Campaign>)
    requires forall i :: 0 <= i < |records| ==> FieldsFree(records[i], '\n')
    ensures forall i :: 0 <= i < |records| ==> '\n' !in Rows(records)[i]
  {
    forall i | 0 <= i < |records|
      ensures '\n' !in Rows(records)[i]
    {
      RowFreeOf(records[i], '\n');
    }
  }

  /** Cutting the export of a non-empty list at its line breaks gives the header
      and then exactly one row per record, in list order, provided no field
      contains a line break. */
  lemma CsvLines(records: seq<Campaign>)
    requires records != []
    requires forall i :: 0 <= i < |records| ==> FieldsFree(records[i], '\n')
    ensures Split(CsvText(records), '\n') == [HEADER] + Rows(records)
  {
    var rows := Rows(records);
    var lines := [HEADER] + rows;
    JoinCons(HEADER, rows, "\n");
    RowsSingleLine(records);
    HeaderSingleLine();
    assert forall i :: 0 <= i < |lines| ==> '\n' !in lines[i] by {
      forall i | 0 <= i < |lines|
        ensures '\n' !in lines[i]
      {
        if i > 0 {
          assert lines[i] == rows[i - 1];
        }
      }
    }
    SplitJoin(lines, '\n');
  }

  /** A one-record export: the header line, then the row whose quoted fields
      are the record's values with the platforms joined by ", ". */
  lemma CsvExample(c: Campaign)
    requires c == Campaign("Q1 Launch", "2024-01-01", "2024-03-31", ["Meta", "Reddit"], "test", None)
    ensures CsvText([c]) == HEADER + "\n" + Row(c)
    ensures Split(Row(c), '"')
         == ["", "Q1 Launch", ",", "2024-01-01", ",", "2024-03-31", ",", "Meta, Reddit", ",", "test", ""]
    ensures Row(c)
         == Join(["", "Q1 Launch", ",", "2024-01-01", ",", "2024-03-31", ",", "Meta, Reddit", ",", "test", ""], "\"")
  {
    assert Rows([c]) == [Row(c)];
    assert Join(c.platforms, ", ") == "Meta, Reddit";
    assert FieldsFree(c, '"');
    RowFields(c);
    JoinSplit(Row(c), '"');
  }
}

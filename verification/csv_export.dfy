/**
 * `downloadCSV` of frontend/src/app/page.js: the extracted record becomes a
 * header row of the keys whose values are truthy and one data row of those
 * values, each quoted, with line breaks flattened to spaces. Embedded quote
 * characters are kept as they are (they are not doubled).
 */
module CsvExport {
  import opened Wrappers
  import opened Strings
  import opened Json

  const DataUriPrefix := "data:text/csv;charset=utf-8,"
  const FileName := "invoice_data.csv"

  /** What the anchor element offers for download. */
  datatype DownloadLink = DownloadLink(fileName: string, href: string)

  /** The entries the export keeps: those whose values are truthy. */
  function Kept(rec: Record): (kept: Record)
    ensures |kept| <= |rec|
    ensures forall i :: 0 <= i < |kept| ==> Truthy(kept[i].1)
    ensures forall f :: f in kept ==> f in rec
    ensures forall f :: f in rec && Truthy(f.1) ==> f in kept
    decreases |rec|
  {
    if rec == [] then []
    else if Truthy(rec[0].1) then [rec[0]] + Kept(rec[1..])
    else Kept(rec[1..])
  }

  /** The header cells: the keys of the kept entries, raw and in order;
      every key with a truthy value is among them. */
  function Headers(rec: Record): (headers: seq<string>)
    ensures |headers| == |Kept(rec)|
    ensures forall j :: 0 <= j < |headers| ==> headers[j] == Kept(rec)[j].0
    ensures forall f :: f in rec && Truthy(f.1) ==> f.0 in headers
  {
    var kept := Kept(rec);
    var headers := seq(|kept|, i requires 0 <= i < |kept| => kept[i].0);
    assert forall f :: f in kept ==> f.0 in headers by {
      forall f | f in kept ensures f.0 in headers {
        var i :| 0 <= i < |kept| && kept[i] == f;
        assert headers[i] == f.0;
      }
    }
    headers
  }

  /** `String(extractedData[header] || '')`. */
  function CellText(v: Value): string
  {
    match v
    case Null => ""
    case Str(s) => s
  }

  /** One quoted value cell, with every line break replaced by a space. */
  function Cell(v: Value): (cell: string)
    ensures |cell| == |CellText(v)| + 2
    ensures cell[0] == '"' && cell[|cell| - 1] == '"'
    ensures forall k :: 0 < k < |cell| - 1 ==>
              cell[k] == if CellText(v)[k - 1] == '\n' then ' ' else CellText(v)[k - 1]
    ensures '\n' !in cell
  {
    "\"" + ReplaceChar(CellText(v), '\n', ' ') + "\""
  }

  /** The value cells, one per header: the j-th quotes the value of the
      j-th header's entry, and none holds a line break. */
  function Cells(rec: Record): (cells: seq<string>)
    ensures |cells| == |Headers(rec)|
    ensures forall j :: 0 <= j < |cells| ==> cells[j] == Cell(Kept(rec)[j].1)
    ensures forall j :: 0 <= j < |cells| ==> '\n' !in cells[j]
  {
    var kept := Kept(rec);
    seq(|kept|, i requires 0 <= i < |kept| => Cell(kept[i].1))
  }

  /** `headers.join(',')`: one line when no key holds a line break. */
  function HeaderRow(rec: Record): (row: string)
    ensures (forall f :: f in rec ==> '\n' !in f.0) ==> '\n' !in row
  {
    var headers := Headers(rec);
    if forall f :: f in rec ==> '\n' !in f.0 then
      assert forall i :: 0 <= i < |headers| ==> '\n' !in headers[i] by {
        forall i | 0 <= i < |headers| ensures '\n' !in headers[i] {
          assert Kept(rec)[i] in Kept(rec);
        }
      }
      JoinAvoids(headers, ",", '\n');
      Join(headers, ",")
    else
      Join(headers, ",")
  }

  /** `values.join(',')`: always one line. */
  function DataRow(rec: Record): (row: string)
    ensures '\n' !in row
  {
    JoinAvoids(Cells(rec), ",", '\n');
    Join(Cells(rec), ",")
  }

  /** The CSV text: the header row and the data row, each ended by a line break. */
  function CsvText(rec: Record): (csv: string)
    ensures |csv| > 0 && csv[|csv| - 1] == '\n'
  {
    HeaderRow(rec) + "\n" + DataRow(rec) + "\n"
  }

  /** `downloadCSV`: nothing when there is no extracted data, otherwise a
      data URI for the CSV text under the fixed file name. */
  function Download(data: Option<Record>): (link: Option<DownloadLink>)
    ensures link.None? <==> data.None?
    ensures link.Some? ==> link.value.fileName == FileName
    ensures link.Some? ==> |DataUriPrefix| < |link.value.href| &&
                           link.value.href[..|DataUriPrefix|] == DataUriPrefix &&
                           link.value.href[|DataUriPrefix|..] == CsvText(data.value)
  {
    match data
    case None => None
    case Some(rec) => Some(DownloadLink(FileName, DataUriPrefix + CsvText(rec)))
  }

  /** The kept entries are exactly the truthy entries, in key order. */
  lemma {:induction false} KeptInKeyOrder(rec: Record)
    ensures IsSubsequence(Kept(rec), rec)
    decreases |rec|
  {
    if rec != [] {
      KeptInKeyOrder(rec[1..]);
      if Truthy(rec[0].1) {
        assert ([rec[0]] + Kept(rec[1..]))[1..] == Kept(rec[1..]);
      } else if Kept(rec[1..]) != [] {
        var k := Kept(rec[1..]);
        assert k[0] in k;
        assert k[0] in rec[1..];
      }
    }
  }

  /** The text has exactly two lines, header row then data row, when no key
      holds a line break (values never reach the text with one). */
  lemma CsvLines(rec: Record)
    requires forall f :: f in rec ==> '\n' !in f.0
    ensures Split(CsvText(rec), '\n') == [HeaderRow(rec), DataRow(rec), ""]
  {
    var h, d := HeaderRow(rec), DataRow(rec);
    SplitPrefix(d, '\n', "");
    assert d + ['\n'] + "" == d + "\n";
    SplitPrefix(h, '\n', d + "\n");
    assert h + "\n" + d + "\n" == h + ['\n'] + (d + "\n");
  }

  /** Splitting the header row at commas gives back the headers, when at
      least one header exists and no key holds a comma. */
  lemma HeaderRowRoundTrip(rec: Record)
    requires Headers(rec) != []
    requires forall f :: f in rec ==> ',' !in f.0
    ensures Split(HeaderRow(rec), ',') == Headers(rec)
  {
    var headers := Headers(rec);
    forall i | 0 <= i < |headers| ensures ',' !in headers[i] {
      assert Kept(rec)[i] in Kept(rec);
    }
    SplitJoin(headers, ',');
  }

  /** Splitting the data row at commas gives back the cells, when at least
      one value is kept and no value holds a comma. */
  lemma DataRowRoundTrip(rec: Record)
    requires Headers(rec) != []
    requires forall f :: f in rec ==> ',' !in CellText(f.1)
    ensures Split(DataRow(rec), ',') == Cells(rec)
  {
    var cells := Cells(rec);
    forall i | 0 <= i < |cells| ensures ',' !in cells[i] {
      var v := Kept(rec)[i].1;
      assert Kept(rec)[i] in Kept(rec);
      assert ',' !in CellText(v);
      assert forall k :: 0 <= k < |cells[i]| ==> cells[i][k] != ',' by {
        forall k | 0 <= k < |cells[i]| ensures cells[i][k] != ',' {
          if 0 < k < |cells[i]| - 1 {
            assert cells[i][k] == ReplaceChar(CellText(v), '\n', ' ')[k - 1];
            assert CellText(v)[k - 1] in CellText(v);
          }
        }
      }
    }
    SplitJoin(cells, ',');
  }

  /** Headers are distinct when the record's keys are. */
  lemma {:induction false} HeadersDistinct(rec: Record)
    requires DistinctKeys(rec)
    ensures forall i, j :: 0 <= i < j < |Headers(rec)| ==> Headers(rec)[i] != Headers(rec)[j]
  {
    KeptDistinct(rec);
  }

  /** Keeping entries preserves distinct keys. */
  lemma {:induction false} KeptDistinct(rec: Record)
    requires DistinctKeys(rec)
    ensures DistinctKeys(Kept(rec))
    decreases |rec|
  {
    if rec != [] {
      KeptDistinct(rec[1..]);
      var rest := Kept(rec[1..]);
      if Truthy(rec[0].1) {
        forall f | f in rest ensures f.0 != rec[0].0 {
          var j :| 0 <= j < |rec[1..]| && rec[1..][j] == f;
          assert rec[j + 1] == f;
        }
        var kept := [rec[0]] + rest;
        forall i, j | 0 <= i < j < |kept| ensures kept[i].0 != kept[j].0 {
          if i == 0 {
            assert kept[j] == rest[j - 1];
            assert kept[j] in rest;
          } else {
            assert kept[i] == rest[i - 1] && kept[j] == rest[j - 1];
          }
        }
      }
    }
  }

  /** A worked example: a record whose last value is empty and whose notes
      span two lines. */
  const ExampleRecord: Record := [("ID", Str("A1")), ("Notes", Str("a\nb")), ("Due", Str(""))]

  /** The empty value of the example is left out. */
  lemma ExampleKept()
    ensures Kept(ExampleRecord) == ExampleRecord[..2]
  {
    var rec := ExampleRecord;
    assert Kept(rec[2..]) == [];
    assert Kept(rec[1..]) == [rec[1]];
  }

  /** The example's header row names the two kept keys. */
  lemma ExampleHeaderRow()
    ensures HeaderRow(ExampleRecord) == "ID,Notes"
  {
    ExampleKept();
    assert Headers(ExampleRecord) == ["ID", "Notes"];
  }

  /** The example's cells quote the two kept values, with the line break in
      the notes turned into a space. */
  lemma ExampleCells()
    ensures Cells(ExampleRecord) == ["\"A1\"", "\"a b\""]
  {
    ExampleKept();
    ExampleIdCell();
    ExampleNotesCell();
    var rec := ExampleRecord;
    assert Cells(rec) == [Cell(rec[0].1), Cell(rec[1].1)];
  }

  /** The identifier is quoted as it is. */
  lemma ExampleIdCell()
    ensures Cell(Str("A1")) == "\"A1\""
  {
    assert '\n' !in "A1" by {
      assert "A1" == ['A', '1'];
    }
    LineFreeCell("A1");
  }

  /** The line break in the notes becomes a space inside the quotes. */
  lemma ExampleNotesCell()
    ensures Cell(Str("a\nb")) == "\"a b\""
  {
    var notes := Cell(Str("a\nb"));
    assert |notes| == 5 && notes[1] == 'a' && notes[2] == ' ' && notes[3] == 'b';
  }

  /** The example's data row joins those cells with a comma. */
  lemma ExampleDataRow()
    ensures DataRow(ExampleRecord) == "\"A1\",\"a b\""
  {
    ExampleCells();
  }

  /** A value without line breaks is copied into its cell verbatim between
      two quotes: embedded quote characters are not doubled, so the cell is
      not the RFC 4180 quoting of the value. */
  lemma {:induction false} LineFreeCell(text: string)
    requires '\n' !in text
    ensures Cell(Str(text)) == "\"" + text + "\""
  {
    var cell, quoted := Cell(Str(text)), "\"" + text + "\"";
    forall k | 0 <= k < |cell| ensures cell[k] == quoted[k] {
      if 0 < k < |cell| - 1 {
        assert text[k - 1] in text;
      }
    }
  }

  /** The quote in `5" pipe` stays single inside its cell. */
  lemma QuotesNotDoubled()
    ensures Cell(Str("5\" pipe")) == "\"5\" pipe\""
  {
    assert '\n' !in "5\" pipe" by {
      assert "5\" pipe" == ['5', '"', ' ', 'p', 'i', 'p', 'e'];
    }
    LineFreeCell("5\" pipe");
  }
}

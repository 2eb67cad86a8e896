/**
 * Text assembly in the PDF extraction pipeline (extract_text.py). The PDF
 * libraries are not modelled: what they return (page texts, table cells,
 * per-page content lists, directory listings) is given as input.
 */
module ExtractText {
  import opened Wrappers
  import opened Strings

  /** A table cell as pdfplumber returns it: `None`, a string, or some other
      object (on which `'\n' in item` raises `TypeError`). */
  datatype Cell = NoneCell | TextCell(text: string) | OtherCell

  /** `s.replace('\n', ' ')`. */
  function SpaceNewlines(s: string): (r: string)
    ensures |r| == |s| && '\n' !in r
    ensures forall k :: 0 <= k < |s| ==> r[k] == if s[k] == '\n' then ' ' else s[k]
  {
    if s == [] then [] else [if s[0] == '\n' then ' ' else s[0]] + SpaceNewlines(s[1..])
  }

  /** One cleaned cell (extract_text.py line 196); `None` where Python raises. */
  function CleanCell(c: Cell): (r: Option<string>)
    ensures r.None? <==> c.OtherCell?
    ensures r.Some? ==> '\n' !in r.value
    ensures c.TextCell? && '\n' !in c.text ==> r == Some(c.text)
  {
    match c
    case NoneCell => Some("None")
    case TextCell(t) => Some(if '\n' in t then SpaceNewlines(t) else t)
    case OtherCell => None
  }

  /** A row can be rendered: no cell raises. */
  predicate RowOk(row: seq<Cell>) {
    forall k :: 0 <= k < |row| ==> !row[k].OtherCell?
  }

  predicate TableOk(table: seq<seq<Cell>>) {
    forall k :: 0 <= k < |table| ==> RowOk(table[k])
  }

  /** The cleaned cells of a row that can be rendered. */
  function CleanRow(row: seq<Cell>): (cells: seq<string>)
    requires RowOk(row)
    ensures |cells| == |row|
    ensures forall k :: 0 <= k < |row| ==> Some(cells[k]) == CleanCell(row[k]) && '\n' !in cells[k]
  {
    if row == [] then []
    else
      var c := CleanCell(row[0]).value;
      assert '\n' in c ==> false by {
        if row[0].TextCell? && '\n' in row[0].text {
          assert '\n' !in SpaceNewlines(row[0].text);
        }
      }
      [c] + CleanRow(row[1..])
  }

  /** The line a row renders to: `'|' + '|'.join(cells) + '|'`. */
  function RowLine(row: seq<Cell>): string
    requires RowOk(row)
  {
    "|" + Join("|", CleanRow(row)) + "|"
  }

  function RowLines(table: seq<seq<Cell>>): (lines: seq<string>)
    requires TableOk(table)
    ensures |lines| == |table| && forall k :: 0 <= k < |table| ==> lines[k] == RowLine(table[k])
  {
    if table == [] then [] else [RowLine(table[0])] + RowLines(table[1..])
  }

  /** What `table_converter` returns: the row lines joined by newlines, or "" if any cell raises. */
  function RenderedTable(table: seq<seq<Cell>>): (r: string)
    ensures !TableOk(table) ==> r == ""
    ensures TableOk(table) && table != [] ==> |r| > 0 && r[|r| - 1] == '|'
  {
    if TableOk(table) then
      var lines := RowLines(table);
      if lines != [] then JoinEndsWithLast(lines); Join("\n", lines) else Join("\n", lines)
    else ""
  }

  /** `table_converter`: the `+=` loop over rows, then `rstrip('\n')`. */
  method TableConverter(table: seq<seq<Cell>>) returns (tableString: string)
    ensures tableString == RenderedTable(table)
  {
    tableString := "";
    var i := 0;
    while i < |table|
      invariant 0 <= i <= |table|
      invariant TableOk(table[..i])
      invariant tableString == Concat(Terminated(RowLines(table[..i])))
    {
      var row := table[i];
      var bad := false;
      var k := 0;
      while k < |row|
        invariant 0 <= k <= |row|
        invariant bad <==> exists m | 0 <= m < k :: row[m].OtherCell?
      {
        if row[k].OtherCell? {
          bad := true;
        }
        k := k + 1;
      }
      if bad {
        assert !TableOk(table);
        return "";
      }
      TableStep(table, i);
      tableString := tableString + (RowLine(row) + "\n");
      i := i + 1;
    }
    assert table[..i] == table;
    TableFinish(table);
    tableString := DropTrailing(tableString, c => c == '\n');
  }

  /** One more row adds its line and a newline to the accumulated text. */
  lemma TableStep(table: seq<seq<Cell>>, i: nat)
    requires i < |table| && TableOk(table[..i]) && RowOk(table[i])
    ensures TableOk(table[..i + 1])
    ensures Concat(Terminated(RowLines(table[..i + 1]))) ==
      Concat(Terminated(RowLines(table[..i]))) + (RowLine(table[i]) + "\n")
  {
    var row := table[i];
    assert table[..i + 1] == table[..i] + [row];
    var before := RowLines(table[..i]);
    assert RowLines(table[..i + 1]) == before + [RowLine(row)];
    assert Terminated(before + [RowLine(row)]) == Terminated(before) + [RowLine(row) + "\n"];
    ConcatAppend(Terminated(before), [RowLine(row) + "\n"]);
  }

  /** Stripping the trailing newlines of the accumulated text leaves the joined row lines. */
  lemma TableFinish(table: seq<seq<Cell>>)
    requires TableOk(table)
    ensures DropTrailing(Concat(Terminated(RowLines(table))), c => c == '\n') == RenderedTable(table)
  {
    if |table| > 0 {
      var lines := RowLines(table);
      ConcatTerminated(lines);
      var joined := Join("\n", lines);
      JoinEndsWithLast(lines);
      DropOneTrailing(joined, '\n', c => c == '\n');
    }
  }

  /** A join of non-empty lines each ending in '|' ends in '|'. */
  lemma {:induction false} JoinEndsWithLast(lines: seq<string>)
    requires |lines| >= 1
    requires forall k :: 0 <= k < |lines| ==> |lines[k]| > 0 && lines[k][|lines[k]| - 1] == '|'
    ensures |Join("\n", lines)| > 0 && Join("\n", lines)[|Join("\n", lines)| - 1] == '|'
  {
    if |lines| > 1 {
      JoinEndsWithLast(lines[1..]);
    }
  }

  /** The rendered table splits at '\n' into exactly one `|c1|...|cn|` line per row. */
  lemma TableOneLinePerRow(table: seq<seq<Cell>>)
    requires TableOk(table) && |table| >= 1
    ensures Split(RenderedTable(table), '\n') == RowLines(table)
  {
    var lines := RowLines(table);
    forall k | 0 <= k < |lines| ensures '\n' !in lines[k] {
      var cells := CleanRow(table[k]);
      NoNewlineInJoin("|", cells);
    }
    SplitJoin(lines, '\n');
  }

  /** Joining newline-free strings with a newline-free separator gives a newline-free string. */
  lemma {:induction false} NoNewlineInJoin(sep: string, xs: seq<string>)
    requires '\n' !in sep && forall k :: 0 <= k < |xs| ==> '\n' !in xs[k]
    ensures '\n' !in Join(sep, xs)
  {
    if |xs| > 1 {
      NoNewlineInJoin(sep, xs[1..]);
    }
  }

  /** An empty table renders as "", and so does any table with a cell that makes Python raise. */
  lemma TableEdgeCases(table: seq<seq<Cell>>)
    ensures RenderedTable([]) == ""
    ensures !TableOk(table) ==> RenderedTable(table) == ""
  {
  }

  /** A `None` cell renders as "None" and a multi-line cell on one line. */
  lemma CellExamples()
    ensures RowLine([NoneCell, TextCell("a\nb")]) == "|None|a b|"
  {
    assert '\n' in "a\nb";
    assert SpaceNewlines("a\nb") == "a b";
    assert CleanRow([NoneCell, TextCell("a\nb")]) == ["None", "a b"];
  }

  /** What pdfplumber yields for one file: a failure to open or read it, or per page
      the result of `page.extract_text()` (`None` when the page has no text). */
  datatype PdfRead = ReadFailure | Pages(texts: seq<Option<string>>)

  /** `page.extract_text() or ""`. */
  function PageText(t: Option<string>): string {
    t.GetOr("")
  }

  /** The page texts, one per page, in page order. */
  function PageTexts(texts: seq<Option<string>>): seq<string> {
    seq(|texts|, k requires 0 <= k < |texts| => PageText(texts[k]))
  }

  /** The text of a readable PDF: each page's text followed by exactly one newline. */
  function PdfText(texts: seq<Option<string>>): (r: string)
    ensures texts == [] ==> r == ""
    ensures texts != [] ==> |r| > 0 && r[|r| - 1] == '\n'
  {
    if texts != [] then ConcatTerminated(PageTexts(texts)); Concat(Terminated(PageTexts(texts)))
    else Concat(Terminated(PageTexts(texts)))
  }

  /** `extract_text_from_pdf`: `None` stands for the re-raised exception. */
  method ExtractTextFromPdf(pdf: PdfRead) returns (text: Option<string>)
    ensures pdf.ReadFailure? ==> text == None
    ensures pdf.Pages? ==> text == Some(PdfText(pdf.texts))
  {
    if pdf.ReadFailure? {
      return None;
    }
    var acc := "";
    var i := 0;
    while i < |pdf.texts|
      invariant 0 <= i <= |pdf.texts|
      invariant acc == PdfText(pdf.texts[..i])
    {
      ghost var before := PageTexts(pdf.texts[..i]);
      assert pdf.texts[..i + 1] == pdf.texts[..i] + [pdf.texts[i]];
      assert PageTexts(pdf.texts[..i + 1]) == before + [PageText(pdf.texts[i])];
      assert Terminated(before + [PageText(pdf.texts[i])]) == Terminated(before) + [PageText(pdf.texts[i]) + "\n"];
      ConcatAppend(Terminated(before), [PageText(pdf.texts[i]) + "\n"]);
      acc := acc + (if pdf.texts[i].Some? then pdf.texts[i].value else "");
      acc := acc + "\n";
      i := i + 1;
    }
    assert pdf.texts[..i] == pdf.texts;
    text := Some(acc);
  }

  /** For pages whose texts contain no newline, the PDF text splits back into the page
      texts followed by one empty piece after the final newline. */
  lemma PdfTextPages(texts: seq<Option<string>>)
    requires |texts| >= 1
    requires forall k :: 0 <= k < |texts| ==> '\n' !in PageText(texts[k])
    ensures Split(PdfText(texts), '\n') == PageTexts(texts) + [""]
  {
    var pages := PageTexts(texts);
    PdfTextAsJoin(texts);
    var all := pages + [""];
    assert forall k :: 0 <= k < |all| ==> '\n' !in all[k];
    SplitJoin(all, '\n');
  }

  /** The PDF text is the page texts and a final empty piece, joined by newlines. */
  lemma PdfTextAsJoin(texts: seq<Option<string>>)
    requires |texts| >= 1
    ensures PdfText(texts) == Join("\n", PageTexts(texts) + [""])
  {
    var pages := PageTexts(texts);
    ConcatTerminated(pages);
    JoinAppend("\n", pages, [""]);
    assert Join("\n", [""]) == "";
  }

  /** A folder entry as `os.listdir` names it, with what reading it would yield. */
  datatype Entry = Entry(name: string, read: PdfRead)

  /** The block one PDF contributes to the folder text. */
  function Section(name: string, text: string): string {
    "\n--- Text from " + name + " ---\n" + text + "\n"
  }

  /** What an entry contributes: non-PDF names and unreadable files contribute nothing. */
  function EntryText(e: Entry): string {
    if EndsWith(e.name, ".pdf") && e.read.Pages? then Section(e.name, PdfText(e.read.texts)) else ""
  }

  /** The blocks of a listing, one per entry, in listing order. */
  function Blocks(entries: seq<Entry>): seq<string> {
    seq(|entries|, i requires 0 <= i < |entries| => EntryText(entries[i]))
  }

  /** No entry of the listing is a PDF that can be read. */
  predicate NoReadablePdf(entries: seq<Entry>) {
    forall k :: 0 <= k < |entries| ==> !(EndsWith(entries[k].name, ".pdf") && entries[k].read.Pages?)
  }

  /** The combined folder text: every entry's block, in listing order. */
  function FolderText(entries: seq<Entry>): string {
    Concat(Blocks(entries))
  }

  /** `extract_text_from_folder`: returns the combined text and what ends up in the output file
      (nothing if writing fails; the text is returned either way). */
  method ExtractTextFromFolder(entries: seq<Entry>, writeSucceeds: bool) returns (combined: string, written: Option<string>)
    ensures combined == FolderText(entries)
    ensures written == if writeSucceeds then Some(combined) else None
  {
    combined := "";
    var i := 0;
    while i < |entries|
      invariant 0 <= i <= |entries|
      invariant combined == FolderText(entries[..i])
    {
      var e := entries[i];
      assert entries[..i + 1] == entries[..i] + [e];
      FolderTextSnoc(entries[..i], e);
      if EndsWith(e.name, ".pdf") {
        var pdfText := ExtractTextFromPdf(e.read);
        if pdfText.Some? {
          combined := combined + ("\n--- Text from " + e.name + " ---\n" + pdfText.value + "\n");
        }
      }
      i := i + 1;
    }
    assert entries[..i] == entries;
    written := if writeSucceeds then Some(combined) else None;
  }

  /** The folder text of two listings in sequence is the two texts in sequence: every
      entry's block appears in listing order. */
  lemma FolderTextAppend(a: seq<Entry>, b: seq<Entry>)
    ensures FolderText(a + b) == FolderText(a) + FolderText(b)
  {
    assert Blocks(a + b) == Blocks(a) + Blocks(b);
    ConcatAppend(Blocks(a), Blocks(b));
  }

  /** One more entry adds its block at the end. */
  lemma FolderTextSnoc(entries: seq<Entry>, e: Entry)
    ensures FolderText(entries + [e]) == FolderText(entries) + EntryText(e)
  {
    assert Blocks(entries + [e]) == Blocks(entries) + [EntryText(e)];
    ConcatAppend(Blocks(entries), [EntryText(e)]);
    assert Concat([EntryText(e)]) == EntryText(e) + Concat([]);
  }

  /** A listing without a readable PDF gives an empty folder text. */
  lemma NoReadablePdfNoText(entries: seq<Entry>)
    requires NoReadablePdf(entries)
    ensures FolderText(entries) == ""
  {
    ConcatBlank(Blocks(entries));
  }

  /** Entries that are not PDFs, or that fail, leave the folder text as it was. */
  lemma SkippedEntries(entries: seq<Entry>, e: Entry)
    requires !EndsWith(e.name, ".pdf") || e.read.ReadFailure?
    ensures FolderText(entries + [e]) == FolderText(entries)
  {
    FolderTextSnoc(entries, e);
  }

  /** The final join of `extract_text_from_pdf_only`: each page's content list joined by
      newlines, and the pages joined by newlines. */
  function CombinePages(pages: seq<seq<string>>): string {
    Join("\n", PageJoins(pages))
  }

  function PageJoins(pages: seq<seq<string>>): (r: seq<string>)
    ensures |r| == |pages| && forall k :: 0 <= k < |pages| ==> r[k] == Join("\n", pages[k])
  {
    if pages == [] then [] else [Join("\n", pages[0])] + PageJoins(pages[1..])
  }

  function Flatten(pages: seq<seq<string>>): seq<string> {
    if pages == [] then [] else pages[0] + Flatten(pages[1..])
  }

  /** When no page is empty, the combined text is all content items, in page order, joined by newlines. */
  lemma {:induction false} CombinePagesFlat(pages: seq<seq<string>>)
    requires forall k :: 0 <= k < |pages| ==> |pages[k]| >= 1
    ensures CombinePages(pages) == Join("\n", Flatten(pages))
  {
    if |pages| > 1 {
      CombinePagesFlat(pages[1..]);
      assert PageJoins(pages)[1..] == PageJoins(pages[1..]);
      FlattenNonEmpty(pages[1..]);
      JoinAppend("\n", pages[0], Flatten(pages[1..]));
    } else if |pages| == 1 {
      assert Flatten(pages) == pages[0] + Flatten([]);
      assert pages[0] + [] == pages[0];
    }
  }

  lemma {:induction false} FlattenNonEmpty(pages: seq<seq<string>>)
    requires |pages| >= 1 && forall k :: 0 <= k < |pages| ==> |pages[k]| >= 1
    ensures |Flatten(pages)| >= 1
  {
  }

  /** `extract_text_from_pdf_only`, given whether the file opens and the per-page content lists. */
  function ExtractTextFromPdfOnly(fileOpened: bool, pages: seq<seq<string>>): (text: string)
    ensures !fileOpened ==> text == ""
    ensures fileOpened && (forall k :: 0 <= k < |pages| ==> |pages[k]| >= 1) ==> text == Join("\n", Flatten(pages))
  {
    if !fileOpened then "" else
      CombinePagesFlatIfFull(pages);
      CombinePages(pages)
  }

  lemma CombinePagesFlatIfFull(pages: seq<seq<string>>)
    ensures (forall k :: 0 <= k < |pages| ==> |pages[k]| >= 1) ==> CombinePages(pages) == Join("\n", Flatten(pages))
  {
    if forall k :: 0 <= k < |pages| ==> |pages[k]| >= 1 {
      CombinePagesFlat(pages);
    }
  }
}

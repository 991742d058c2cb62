/** The text the backend itself builds from what the document libraries return
    (backend.py:51-122). Each library call is an input: either the parsed structure
    (`Parsed`) or the exception it raised (`Raised`), which the extractor turns into
    a 400 error naming the format. */
module Extractors {
  import opened Wrappers
  import opened PyText

  /** The outcome of one library call. */
  datatype LibResult<+T> = Parsed(value: T) | Raised(cause: string)

  /** A python-pptx shape: whether it has a text frame, and its text. */
  datatype Shape = Shape(hasTextFrame: bool, text: string)

  type Slide = seq<Shape>

  /** An openpyxl worksheet: its title and its rows of cell values, each already
      rendered by `str(v)`, `None` standing for an empty cell. */
  datatype Sheet = Sheet(title: string, rows: seq<seq<Option<string>>>)

  /** The detail of the 400 error each extractor raises when its library fails. */
  function ParseError(format: string, cause: string): HttpError
  {
    HttpError(400, format + " parse error: " + cause)
  }

  /** The extractor's outcome: the library's exception as a parse error, or the
      text rendered from the library's output. */
  function Rendered<T>(format: string, lib: LibResult<T>, render: T -> string): (r: Result<string, HttpError>)
    ensures lib.Parsed? <==> r.Success?
    ensures r.Failure? ==> r.error.status == 400
  {
    match lib
    case Raised(cause) => Failure(ParseError(format, cause))
    case Parsed(v) => Success(render(v))
  }

  /** `[t.strip() for t in texts if t.strip()]`: the stripped, non-blank texts in
      their original order. */
  function NonBlankStripped(texts: seq<string>): (r: seq<string>)
    ensures |r| <= |texts|
    ensures forall s :: s in r ==> s != [] && Trimmed(s)
  {
    if |texts| == 0 then []
    else
      var t := Strip(texts[0]);
      (if t == [] then [] else [t]) + NonBlankStripped(texts[1..])
  }

  /** Texts that are already trimmed and non-empty pass through unchanged. */
  lemma {:induction false} NonBlankStrippedFixed(texts: seq<string>)
    requires forall k :: 0 <= k < |texts| ==> texts[k] != [] && Trimmed(texts[k])
    ensures NonBlankStripped(texts) == texts
  {
    if |texts| > 0 {
      var t := texts[0];
      StripTrimmed(t);
      assert forall k :: 0 <= k < |texts[1..]| ==> texts[1..][k] == texts[k + 1];
      NonBlankStrippedFixed(texts[1..]);
      assert texts == [t] + texts[1..];
    }
  }

  /** Only whitespace in, nothing out. */
  lemma {:induction false} NonBlankStrippedBlank(texts: seq<string>)
    requires forall k :: 0 <= k < |texts| ==> AllSpace(texts[k])
    ensures NonBlankStripped(texts) == []
  {
    if |texts| > 0 {
      assert forall k :: 0 <= k < |texts[1..]| ==> texts[1..][k] == texts[k + 1];
      NonBlankStrippedBlank(texts[1..]);
    }
  }

  lemma {:induction false} NonBlankStrippedNoLineBreak(texts: seq<string>)
    requires forall s :: s in texts ==> NoLineBreak(s)
    ensures forall s :: s in NonBlankStripped(texts) ==> NoLineBreak(s)
  {
    if |texts| > 0 {
      StripNoLineBreak(texts[0]);
      assert forall s :: s in texts[1..] ==> s in texts;
      NonBlankStrippedNoLineBreak(texts[1..]);
    }
  }

  // ---------- PDF, DOCX, plain text ----------

  /** `extract_from_pdf`: pdfminer's text, `None` read as "". */
  function PdfOutcome(lib: LibResult<Option<string>>): (r: Result<string, HttpError>)
    ensures lib.Raised? <==> r.Failure?
    ensures lib.Raised? ==> r == Failure(HttpError(400, "PDF parse error: " + lib.cause))
    ensures lib == Parsed(None) ==> r == Success("")
    ensures lib.Parsed? && lib.value.Some? ==> r == Success(lib.value.value)
  {
    assert "PDF" + " parse error: " == "PDF parse error: ";
    Rendered("PDF", lib, (text: Option<string>) => text.GetOr(""))
  }

  /** The paragraph texts of a document joined by "\n". */
  function DocxText(paragraphs: seq<string>): string
  {
    Join("\n", paragraphs)
  }

  /** Paragraphs without line breaks of their own can be read back from the text. */
  lemma DocxParagraphsRecoverable(paragraphs: seq<string>)
    requires |paragraphs| > 0
    requires forall i :: 0 <= i < |paragraphs| ==> '\n' !in paragraphs[i]
    ensures Split(DocxText(paragraphs), '\n') == paragraphs
  {
    SplitJoin(paragraphs, '\n');
  }

  /** `extract_from_txt_like`: the decoded file. */
  function TextOutcome(lib: LibResult<string>): (r: Result<string, HttpError>)
    ensures lib.Parsed? ==> r == Success(lib.value)
    ensures lib.Raised? ==> r == Failure(HttpError(400, "Text parse error: " + lib.cause))
  {
    assert "Text" + " parse error: " == "Text parse error: ";
    Rendered("Text", lib, (text: string) => text)
  }

  // ---------- PPTX ----------

  /** The texts of the shapes that have a text frame, in shape order. */
  function FrameTexts(shapes: seq<Shape>): (r: seq<string>)
    ensures |r| <= |shapes|
  {
    if |shapes| == 0 then []
    else
      var s := shapes[|shapes| - 1];
      FrameTexts(shapes[..|shapes| - 1]) + (if s.hasTextFrame then [s.text] else [])
  }

  /** A slide has a line in the output when one of its shapes has a text frame. */
  predicate HasFrame(slide: Slide)
  {
    |FrameTexts(slide)| > 0
  }

  lemma {:induction false} HasFrameIff(slide: Slide)
    ensures HasFrame(slide) <==> exists k :: 0 <= k < |slide| && slide[k].hasTextFrame
  {
    if |slide| > 0 {
      var init := slide[..|slide| - 1];
      HasFrameIff(init);
      if exists k :: 0 <= k < |init| && init[k].hasTextFrame {
        var k :| 0 <= k < |init| && init[k].hasTextFrame;
        assert slide[k] == init[k];
      }
      if exists k :: 0 <= k < |slide| && slide[k].hasTextFrame {
        var k :| 0 <= k < |slide| && slide[k].hasTextFrame;
        if k < |init| {
          assert init[k] == slide[k];
        }
      }
    }
  }

  /** The label of the slide at 1-based index `i`. */
  function SlideLabel(i: nat): string
  {
    "[Slide " + Decimal(i) + "] "
  }

  /** The line of the slide at 1-based index `i`: its label, then its stripped
      non-blank frame texts joined by three spaces. */
  function SlideLine(i: nat, slide: Slide): string
  {
    SlideLabel(i) + Join("   ", NonBlankStripped(FrameTexts(slide)))
  }

  /** The lines of a presentation, slide by slide. */
  function PptxLines(slides: seq<Slide>): (r: seq<string>)
    ensures |r| <= |slides|
  {
    if |slides| == 0 then []
    else
      var n := |slides|;
      PptxLines(slides[..n - 1]) + (if HasFrame(slides[n - 1]) then [SlideLine(n, slides[n - 1])] else [])
  }

  function PptxText(slides: seq<Slide>): string
  {
    Join("\n", PptxLines(slides))
  }

  /** `extract_from_pptx`: collects the frame texts of each slide and, when there
      are any, appends the slide's labelled line. */
  method ExtractFromPptx(pres: LibResult<seq<Slide>>) returns (r: Result<string, HttpError>)
    ensures r == Rendered("PPTX", pres, PptxText)
  {
    if pres.Raised? {
      return Failure(ParseError("PPTX", pres.cause));
    }
    var slides := pres.value;
    var out: seq<string> := [];
    for i := 0 to |slides|
      invariant out == PptxLines(slides[..i])
    {
      var slide := slides[i];
      var texts: seq<string> := [];
      for j := 0 to |slide|
        invariant texts == FrameTexts(slide[..j])
      {
        if slide[j].hasTextFrame {
          texts := texts + [slide[j].text];
        }
        assert slide[..j + 1][..j] == slide[..j];
      }
      assert slide[..|slide|] == slide;
      if |texts| > 0 {
        out := out + [SlideLabel(i + 1) + Join("   ", NonBlankStripped(texts))];
      }
      assert slides[..i + 1][..i] == slides[..i];
    }
    assert slides[..|slides|] == slides;
    return Success(Join("\n", out));
  }

  /** The 0-based indices of the slides that have a text frame, in slide order. */
  ghost function FramedIndices(slides: seq<Slide>): (r: seq<nat>)
    ensures forall k :: 0 <= k < |r| ==> r[k] < |slides|
  {
    if |slides| == 0 then []
    else
      var n := |slides|;
      FramedIndices(slides[..n - 1]) + (if HasFrame(slides[n - 1]) then [n - 1] else [])
  }

  /** The indices strictly increase, and a slide's index is among them exactly
      when the slide has a text frame. */
  lemma {:induction false} FramedIndicesExact(slides: seq<Slide>)
    ensures forall k, l :: 0 <= k < l < |FramedIndices(slides)| ==> FramedIndices(slides)[k] < FramedIndices(slides)[l]
    ensures forall i :: 0 <= i < |slides| ==> (i in FramedIndices(slides) <==> HasFrame(slides[i]))
  {
    if |slides| > 0 {
      var n := |slides|;
      var init := slides[..n - 1];
      FramedIndicesExact(init);
      assert FramedIndices(slides) == FramedIndices(init) + (if HasFrame(slides[n - 1]) then [n - 1] else []);
      forall i | 0 <= i < n - 1 ensures slides[i] == init[i] {
      }
    }
  }

  /** `lines[k]` is the line of slide `idx[k]` of `slides`, labelled with its
      1-based index. */
  ghost predicate Labelled(lines: seq<string>, idx: seq<nat>, slides: seq<Slide>)
  {
    |lines| == |idx|
    && forall k :: 0 <= k < |lines| ==> idx[k] < |slides| && lines[k] == SlideLine(idx[k] + 1, slides[idx[k]])
  }

  lemma LabelledWiden(lines: seq<string>, idx: seq<nat>, init: seq<Slide>, slides: seq<Slide>)
    requires |init| <= |slides| && init == slides[..|init|]
    requires Labelled(lines, idx, init)
    ensures Labelled(lines, idx, slides)
  {
    forall k | 0 <= k < |lines| ensures slides[idx[k]] == init[idx[k]] {
    }
  }

  lemma LabelledExtend(lines: seq<string>, idx: seq<nat>, slides: seq<Slide>, i: nat)
    requires i < |slides| && Labelled(lines, idx, slides)
    ensures Labelled(lines + [SlideLine(i + 1, slides[i])], idx + [i], slides)
  {
    var all, allIdx := lines + [SlideLine(i + 1, slides[i])], idx + [i];
    forall k | 0 <= k < |all| ensures allIdx[k] < |slides| && all[k] == SlideLine(allIdx[k] + 1, slides[allIdx[k]]) {
      if k < |lines| {
        assert all[k] == lines[k] && allIdx[k] == idx[k];
      }
    }
  }

  /** The k-th line belongs to the k-th slide with a text frame and carries its
      1-based index, so labels strictly increase and no framed slide is skipped. */
  lemma {:induction false} PptxLinesLabelled(slides: seq<Slide>)
    ensures Labelled(PptxLines(slides), FramedIndices(slides), slides)
  {
    if |slides| > 0 {
      var n := |slides|;
      var init := slides[..n - 1];
      PptxLinesLabelled(init);
      var lines, idx := PptxLines(init), FramedIndices(init);
      LabelledWiden(lines, idx, init, slides);
      if HasFrame(slides[n - 1]) {
        LabelledExtend(lines, idx, slides, n - 1);
      } else {
        assert PptxLines(slides) == lines && FramedIndices(slides) == idx;
      }
    }
  }

  /** A slide whose text frames are all blank still gets its bare label. */
  lemma BlankSlideLabelled(i: nat, slide: Slide)
    requires HasFrame(slide)
    requires forall k :: 0 <= k < |slide| && slide[k].hasTextFrame ==> AllSpace(slide[k].text)
    ensures SlideLine(i, slide) == SlideLabel(i)
  {
    FrameTextsBlank(slide);
    NonBlankStrippedBlank(FrameTexts(slide));
    assert Join("   ", []) == "";
  }

  /** When every text frame of a slide is blank, so is every frame text. */
  lemma {:induction false} FrameTextsBlank(slide: Slide)
    requires forall k :: 0 <= k < |slide| && slide[k].hasTextFrame ==> AllSpace(slide[k].text)
    ensures forall k :: 0 <= k < |FrameTexts(slide)| ==> AllSpace(FrameTexts(slide)[k])
  {
    if |slide| > 0 {
      var init := slide[..|slide| - 1];
      assert forall k :: 0 <= k < |init| ==> init[k] == slide[k];
      FrameTextsBlank(init);
    }
  }

  /** Different slides get different labels. */
  lemma SlideLabelInjective(i: nat, j: nat)
    requires SlideLabel(i) == SlideLabel(j)
    ensures i == j
  {
    var a, b := SlideLabel(i), SlideLabel(j);
    assert Decimal(i) == a[7..|a| - 2];
    assert Decimal(j) == b[7..|b| - 2];
    DecimalInjective(i, j);
  }

  // ---------- XLSX ----------

  /** `"" if v is None else str(v)`. */
  function CellText(v: Option<string>): string
  {
    v.GetOr("")
  }

  function RowValues(row: seq<Option<string>>): (vals: seq<string>)
    ensures |vals| == |row|
  {
    seq(|row|, k requires 0 <= k < |row| => CellText(row[k]))
  }

  /** `any(v.strip() for v in vals)`: some value is not all whitespace. */
  predicate HasText(vals: seq<string>)
  {
    exists k :: 0 <= k < |vals| && !AllSpace(vals[k])
  }

  /** The predicate is the source's test: some value strips to a non-empty text. */
  lemma HasTextStrip(vals: seq<string>)
    ensures HasText(vals) <==> exists k :: 0 <= k < |vals| && Strip(vals[k]) != ""
  {
  }

  /** The line of one row: its values joined by `" | "` when any has text. */
  function RowLine(row: seq<Option<string>>): seq<string>
  {
    var vals := RowValues(row);
    if HasText(vals) then [Join(" | ", vals)] else []
  }

  /** The lines of a sheet's rows: one `" | "`-joined line per row with text. */
  function RowLines(rows: seq<seq<Option<string>>>): (r: seq<string>)
    ensures |r| <= |rows|
  {
    if |rows| == 0 then [] else RowLines(rows[..|rows| - 1]) + RowLine(rows[|rows| - 1])
  }

  /** The header line of a worksheet. */
  function SheetHeader(sheet: Sheet): string
  {
    "[Sheet] " + sheet.title
  }

  /** The lines of one worksheet: its header, then its row lines. */
  function SheetLines(sheet: Sheet): seq<string>
  {
    [SheetHeader(sheet)] + RowLines(sheet.rows)
  }

  /** The lines of a workbook: per sheet, its header, then its row lines. */
  function XlsxLines(sheets: seq<Sheet>): (r: seq<string>)
    ensures |sheets| <= |r|
  {
    if |sheets| == 0 then []
    else
      var ws := sheets[|sheets| - 1];
      XlsxLines(sheets[..|sheets| - 1]) + SheetLines(ws)
  }

  function XlsxText(sheets: seq<Sheet>): string
  {
    Join("\n", XlsxLines(sheets))
  }

  /** Each row appends its line, if any, after the lines of the rows before it. */
  lemma RowLinesStep(rows: seq<seq<Option<string>>>, j: nat)
    requires j < |rows|
    ensures RowLines(rows[..j + 1]) == RowLines(rows[..j]) + RowLine(rows[j])
  {
    assert rows[..j + 1][..j] == rows[..j];
  }

  /** Each sheet appends its header and its row lines after the lines of the
      sheets before it. */
  lemma XlsxLinesStep(sheets: seq<Sheet>, i: nat)
    requires i < |sheets|
    ensures XlsxLines(sheets[..i + 1]) == XlsxLines(sheets[..i]) + SheetLines(sheets[i])
  {
    assert sheets[..i + 1][..i] == sheets[..i];
  }

  /** Sequence associativity, stated once so that the loop proof of `AppendSheet`
      does not have to rediscover it at every step; it models nothing itself. */
  lemma AppendAssoc(a: seq<string>, b: seq<string>, c: seq<string>)
    ensures a + b + c == a + (b + c)
  {
  }

  /** The body of the outer loop of `extract_from_xlsx`: the sheet's header, then
      each row with text appends its line. */
  method AppendSheet(head: seq<string>, ws: Sheet) returns (out: seq<string>)
    ensures out == head + SheetLines(ws)
  {
    var rows := ws.rows;
    out := head + [SheetHeader(ws)];
    ghost var top := out;
    for j := 0 to |rows|
      invariant out == top + RowLines(rows[..j])
    {
      ghost var prev := RowLines(rows[..j]);
      var vals := RowValues(rows[j]);
      if HasText(vals) {
        out := out + [Join(" | ", vals)];
      }
      assert out == top + prev + RowLine(rows[j]);
      AppendAssoc(top, prev, RowLine(rows[j]));
      RowLinesStep(rows, j);
    }
    assert rows[..|rows|] == rows;
    AppendAssoc(head, [SheetHeader(ws)], RowLines(rows));
  }

  /** `extract_from_xlsx`: per sheet, its header, then each row with text. */
  method ExtractFromXlsx(wb: LibResult<seq<Sheet>>) returns (r: Result<string, HttpError>)
    ensures r == Rendered("XLSX", wb, XlsxText)
  {
    if wb.Raised? {
      return Failure(ParseError("XLSX", wb.cause));
    }
    var sheets := wb.value;
    var out: seq<string> := [];
    for i := 0 to |sheets|
      invariant out == XlsxLines(sheets[..i])
    {
      out := AppendSheet(out, sheets[i]);
      XlsxLinesStep(sheets, i);
    }
    assert sheets[..|sheets|] == sheets;
    return Success(Join("\n", out));
  }

  /** Rows contribute independently: the lines of two runs of rows are the lines
      of each, in order. */
  lemma {:induction false} RowLinesAppend(a: seq<seq<Option<string>>>, b: seq<seq<Option<string>>>)
    ensures RowLines(a + b) == RowLines(a) + RowLines(b)
    decreases |b|
  {
    if |b| > 0 {
      var n := |b|;
      assert (a + b)[..|a + b| - 1] == a + b[..n - 1];
      assert (a + b)[|a + b| - 1] == b[n - 1];
      RowLinesAppend(a, b[..n - 1]);
    } else {
      assert a + b == a;
    }
  }

  /** A row with text gives exactly its joined line; a blank row gives nothing. */
  lemma RowLinesSingle(row: seq<Option<string>>)
    ensures HasText(RowValues(row)) ==> RowLines([row]) == [Join(" | ", RowValues(row))]
    ensures !HasText(RowValues(row)) ==> RowLines([row]) == []
    ensures !HasText(RowValues(row)) <==> forall k :: 0 <= k < |row| ==> AllSpace(CellText(row[k]))
  {
    assert [row][..0] == [];
    var vals := RowValues(row);
    if !HasText(vals) {
      forall k | 0 <= k < |row| ensures AllSpace(CellText(row[k])) {
        assert vals[k] == CellText(row[k]);
      }
    }
    if forall k :: 0 <= k < |row| ==> AllSpace(CellText(row[k])) {
      forall k | 0 <= k < |vals| ensures Strip(vals[k]) == "" {
        assert vals[k] == CellText(row[k]);
      }
    }
  }

  /** One sheet: its header, then its row lines. */
  lemma XlsxLinesSingle(ws: Sheet)
    ensures XlsxLines([ws]) == [SheetHeader(ws)] + RowLines(ws.rows)
  {
    assert [ws][..0] == [];
  }

  lemma ExampleValues(vals: seq<string>)
    requires vals == ["1", "", "x"]
    ensures HasText(vals) && Join(" | ", vals) == "1 |  | x"
  {
    assert !AllSpace(vals[0]) by {
      assert !IsSpace(vals[0][0]);
    }
    var tail := vals[1..];
    assert Join(" | ", tail) == tail[0] + " | " + tail[1];
  }

  lemma ExampleRow(row: seq<Option<string>>)
    requires row == [Some("1"), None, Some("x")]
    ensures HasText(RowValues(row)) && Join(" | ", RowValues(row)) == "1 |  | x"
  {
    var vals := RowValues(row);
    assert vals == ["1", "", "x"];
    ExampleValues(vals);
  }

  lemma ExampleBlankRow(row: seq<Option<string>>)
    requires row == [None, Some(" ")]
    ensures !HasText(RowValues(row))
  {
    var vals := RowValues(row);
    assert vals == ["", " "];
    forall k | 0 <= k < |vals| ensures Strip(vals[k]) == "" {
      assert AllSpace(vals[k]);
    }
  }

  lemma ExampleRows(rows: seq<seq<Option<string>>>, row: seq<Option<string>>, blank: seq<Option<string>>)
    requires row == [Some("1"), None, Some("x")] && blank == [None, Some(" ")]
    requires rows == [row, blank]
    ensures RowLines(rows) == ["1 |  | x"]
  {
    assert rows == [row] + [blank];
    RowLinesAppend([row], [blank]);
    ExampleRow(row);
    ExampleBlankRow(blank);
    RowLinesSingle(row);
    RowLinesSingle(blank);
  }

  // ---------- CSV ----------

  /** One `" | "`-joined line per parsed row. */
  function CsvLines(rows: seq<seq<string>>): (r: seq<string>)
    ensures |r| == |rows|
    ensures forall k :: 0 <= k < |r| ==> r[k] == Join(" | ", rows[k])
  {
    if |rows| == 0 then [] else CsvLines(rows[..|rows| - 1]) + [Join(" | ", rows[|rows| - 1])]
  }

  function CsvText(rows: seq<seq<string>>): string
  {
    Join("\n", CsvLines(rows))
  }

  /** `extract_from_csv`: one joined line per row the reader yields. */
  method ExtractFromCsv(reader: LibResult<seq<seq<string>>>) returns (r: Result<string, HttpError>)
    ensures r == Rendered("CSV", reader, CsvText)
  {
    if reader.Raised? {
      return Failure(ParseError("CSV", reader.cause));
    }
    var rows := reader.value;
    var out: seq<string> := [];
    for i := 0 to |rows|
      invariant out == CsvLines(rows[..i])
    {
      out := out + [Join(" | ", rows[i])];
      assert rows[..i + 1][..i] == rows[..i];
    }
    assert rows[..|rows|] == rows;
    return Success(Join("\n", out));
  }

  /** When no field holds a newline, the text has exactly one line per row, and
      each line is that row's fields joined by " | ". */
  lemma CsvOneLinePerRow(rows: seq<seq<string>>)
    requires |rows| > 0
    requires forall i, j :: 0 <= i < |rows| && 0 <= j < |rows[i]| ==> '\n' !in rows[i][j]
    ensures |Split(CsvText(rows), '\n')| == |rows|
    ensures forall k :: 0 <= k < |rows| ==> Split(CsvText(rows), '\n')[k] == Join(" | ", rows[k])
  {
    var lines := CsvLines(rows);
    forall i | 0 <= i < |lines| ensures '\n' !in lines[i] {
      JoinAvoids(" | ", rows[i], '\n');
    }
    SplitJoin(lines, '\n');
  }

  /** The rows of the example file `a,b` / `1,2`. */
  lemma CsvExample(rows: seq<seq<string>>)
    requires rows == [["a", "b"], ["1", "2"]]
    ensures CsvText(rows) == "a | b\n1 | 2"
  {
    var lines := CsvLines(rows);
    assert lines[0] == "a | b" && lines[1] == "1 | 2";
    assert Join("\n", lines) == lines[0] + "\n" + lines[1];
  }

  // ---------- HTML ----------

  /** The text of the page, line by line: each line stripped, blank lines dropped. */
  function HtmlText(txt: string): string
  {
    Join("\n", NonBlankStripped(SplitLines(txt)))
  }

  /** The output's lines are the page's non-blank lines, trimmed and in order. */
  lemma HtmlLines(txt: string)
    ensures SplitLines(HtmlText(txt)) == NonBlankStripped(SplitLines(txt))
    ensures forall k :: 0 <= k < |SplitLines(HtmlText(txt))| ==>
      SplitLines(HtmlText(txt))[k] != [] && Trimmed(SplitLines(HtmlText(txt))[k])
  {
    var raw := SplitLines(txt);
    var lines := NonBlankStripped(raw);
    assert forall s :: s in raw ==> NoLineBreak(s);
    NonBlankStrippedNoLineBreak(raw);
    forall k | 0 <= k < |lines| ensures lines[k] != [] && NoLineBreak(lines[k]) {
      assert lines[k] in lines;
    }
    SplitLinesJoin(lines);
  }

  /** Cleaning the text a second time changes nothing. */
  lemma HtmlIdempotent(txt: string)
    ensures HtmlText(HtmlText(txt)) == HtmlText(txt)
  {
    HtmlLines(txt);
    NonBlankStrippedFixed(SplitLines(HtmlText(txt)));
  }

  /** `extract_from_html`: BeautifulSoup's text with "\n" between elements, cleaned
      line by line. */
  function HtmlOutcome(lib: LibResult<string>): (r: Result<string, HttpError>)
    ensures lib.Raised? ==> r == Failure(HttpError(400, "HTML parse error: " + lib.cause))
    ensures lib.Parsed? ==> r.Success? && SplitLines(r.value) == NonBlankStripped(SplitLines(lib.value))
  {
    assert "HTML" + " parse error: " == "HTML parse error: ";
    if lib.Parsed? then HtmlLines(lib.value); Success(HtmlText(lib.value))
    else Failure(ParseError("HTML", lib.cause))
  }
}

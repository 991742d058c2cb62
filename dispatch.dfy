/** The `extract` endpoint (backend.py:169-196): the upload's suffix picks one
    extractor, and the upload is copied into a temporary file for it. After the
    extractor step the file is removed whatever the outcome, unless `os.remove`
    itself fails; a failed copy happens before the clean-up is set up, escapes
    as an unhandled exception and leaves the file behind. */
module Dispatch {
  import opened Wrappers
  import opened PyText
  import opened Extractors

  /** `s.rfind(c)`, with "not found" as `None`. */
  function LastIndex(s: string, c: char): (r: Option<nat>)
    ensures r.Some? ==> r.value < |s| && s[r.value] == c && forall k :: r.value < k < |s| ==> s[k] != c
    ensures r.None? ==> forall k :: 0 <= k < |s| ==> s[k] != c
  {
    if |s| == 0 then None
    else if s[|s| - 1] == c then Some(|s| - 1)
    else LastIndex(s[..|s| - 1], c)
  }

  /** The extension `os.path.splitext(p)[1]` on POSIX: from the last '.' of the
      last path component, provided a character other than '.' precedes it in
      that component; otherwise "". */
  function SplitExt(p: string): (r: string)
    ensures r == [] || (r[0] == '.' && |r| <= |p| && r == p[|p| - |r|..])
    ensures forall k :: 1 <= k < |r| ==> r[k] != '.' && r[k] != '/'
  {
    match LastIndex(p, '.')
    case None => ""
    case Some(d) =>
      var start := match LastIndex(p, '/') case None => 0 case Some(s) => s + 1;
      if exists k :: start <= k < d && p[k] != '.' then p[d..] else ""
  }

  /** The suffix that both the dispatch and the temporary file use: empty or
      starting with '.', and without ASCII capitals. */
  function Suffix(filename: string): (r: string)
    ensures |r| == |SplitExt(filename)|
    ensures r == [] || r[0] == '.'
    ensures forall k :: 0 <= k < |r| ==> !('A' <= r[k] <= 'Z')
  {
    Lower(SplitExt(filename))
  }

  datatype Extractor = Pdf | Docx | Pptx | Xlsx | Csv | TxtLike | Html

  datatype Selection = Use(extractor: Extractor) | Unsupported

  /** The if/elif chain on the suffix: each registered suffix selects its one
      extractor, and every other suffix, the empty one included, is unsupported. */
  function Select(ext: string): (s: Selection)
    ensures ext in Registered ==> s == Use(Registered[ext])
    ensures ext !in Registered <==> s == Unsupported
  {
    if ext == ".pdf" then Use(Pdf)
    else if ext == ".docx" then Use(Docx)
    else if ext == ".pptx" then Use(Pptx)
    else if ext in [".xlsx", ".xlsm", ".xltx"] then Use(Xlsx)
    else if ext == ".csv" then Use(Csv)
    else if ext in [".txt", ".md", ".rtf"] then Use(TxtLike)
    else if ext in [".html", ".htm"] then Use(Html)
    else Unsupported
  }

  /** The twelve registered suffixes and the extractor of each. */
  const Registered: map<string, Extractor> := map[
    ".pdf" := Pdf, ".docx" := Docx, ".pptx" := Pptx,
    ".xlsx" := Xlsx, ".xlsm" := Xlsx, ".xltx" := Xlsx,
    ".csv" := Csv, ".txt" := TxtLike, ".md" := TxtLike, ".rtf" := TxtLike,
    ".html" := Html, ".htm" := Html]

  /** What each library gave for the uploaded file. */
  datatype Views = Views(
    pdf: LibResult<Option<string>>,
    docx: LibResult<seq<string>>,
    pptx: LibResult<seq<Slide>>,
    xlsx: LibResult<seq<Sheet>>,
    csv: LibResult<seq<seq<string>>>,
    text: LibResult<string>,
    html: LibResult<string>)

  function UnsupportedError(ext: string): HttpError
  {
    HttpError(415, "Unsupported file type: " + ext)
  }

  /** The result of the selected extractor, or the 415 error: an unsupported
      suffix is refused without looking at the file, with a message naming the
      suffix, and a selected extractor fails only with a 400. */
  function ExtractOutcome(ext: string, views: Views): (r: Result<string, HttpError>)
    ensures ext !in Registered ==> r == Failure(HttpError(415, "Unsupported file type: " + ext))
    ensures Select(ext).Use? && r.Failure? ==> r.error.status == 400
  {
    match Select(ext)
    case Use(Pdf) => PdfOutcome(views.pdf)
    case Use(Docx) => Rendered("DOCX", views.docx, DocxText)
    case Use(Pptx) => Rendered("PPTX", views.pptx, PptxText)
    case Use(Xlsx) => Rendered("XLSX", views.xlsx, XlsxText)
    case Use(Csv) => Rendered("CSV", views.csv, CsvText)
    case Use(TxtLike) => TextOutcome(views.text)
    case Use(Html) => HtmlOutcome(views.html)
    case Unsupported => Failure(UnsupportedError(ext))
  }

  /** A temporary file created by `tempfile.mkstemp(suffix=...)`: a fresh name
      ending in the suffix. */
  datatype TempPath = TempPath(id: nat, suffix: string)

  /** The temporary directory: the paths that exist now, and a counter from
      which fresh names are drawn. */
  class TempDir {
    var live: set<TempPath>
    var next: nat

    predicate Valid()
      reads this
    {
      forall p :: p in live ==> p.id < next
    }

    constructor ()
      ensures Valid() && live == {} && next == 0
    {
      live := {};
      next := 0;
    }

    /** `mkstemp`: a path not live before, live now. */
    method Create(suffix: string) returns (p: TempPath)
      requires Valid()
      modifies this
      ensures Valid()
      ensures p == TempPath(old(next), suffix) && p !in old(live)
      ensures live == old(live) + {p} && next == old(next) + 1
    {
      p := TempPath(next, suffix);
      live := live + {p};
      next := next + 1;
    }

    /** `os.remove(path)`, whose failure the caller swallows: `succeeds` says
        whether the file system removed the path. */
    method Remove(p: TempPath, succeeds: bool)
      requires Valid()
      modifies this
      ensures Valid()
      ensures live == (if succeeds then old(live) - {p} else old(live))
      ensures next == old(next)
    {
      if succeeds {
        live := live - {p};
      }
    }
  }

  /** What the endpoint gives back: its reply or HTTP error, or an exception it
      does not catch. */
  datatype Response = Answer(result: Result<string, HttpError>) | Unhandled(cause: string)

  /** `extract(file)`: no file name is a 400 before anything is created.
      Otherwise `_tmp_to_path` creates a temporary file named with the suffix and
      copies the upload into it; `writeError` is the exception of that copy, if
      any. The copy runs before the `try`, so its exception escapes and leaves the
      file behind. After a good copy the selected extractor runs (or the suffix is
      refused with 415), and the file is removed whatever happened, a failed
      removal changing nothing in the result. */
  method Extract(tmp: TempDir, filename: Option<string>, views: Views,
                 writeError: Option<string>, removeSucceeds: bool)
    returns (r: Response)
    requires tmp.Valid()
    modifies tmp
    ensures tmp.Valid()
    ensures filename.None? || filename == Some("") ==>
      r == Answer(Failure(HttpError(400, "No file."))) && tmp.live == old(tmp.live) && tmp.next == old(tmp.next)
    ensures filename.Some? && filename.value != "" && writeError.Some? ==>
      r == Unhandled(writeError.value)
      && tmp.next == old(tmp.next) + 1
      && tmp.live == old(tmp.live) + {TempPath(old(tmp.next), Suffix(filename.value))}
    ensures filename.Some? && filename.value != "" && writeError.None? ==>
      r == Answer(ExtractOutcome(Suffix(filename.value), views))
      && tmp.next == old(tmp.next) + 1
      && tmp.live == (if removeSucceeds then old(tmp.live)
                      else old(tmp.live) + {TempPath(old(tmp.next), Suffix(filename.value))})
  {
    if filename.None? || filename.value == "" {
      return Answer(Failure(HttpError(400, "No file.")));
    }
    var ext := Suffix(filename.value);
    var path := tmp.Create(ext);
    if writeError.Some? {
      return Unhandled(writeError.value);
    }
    var text: Result<string, HttpError>;
    match Select(ext) {
      case Use(Pdf) =>
        text := PdfOutcome(views.pdf);
      case Use(Docx) =>
        text := Rendered("DOCX", views.docx, DocxText);
      case Use(Pptx) =>
        text := ExtractFromPptx(views.pptx);
      case Use(Xlsx) =>
        text := ExtractFromXlsx(views.xlsx);
      case Use(Csv) =>
        text := ExtractFromCsv(views.csv);
      case Use(TxtLike) =>
        text := TextOutcome(views.text);
      case Use(Html) =>
        text := HtmlOutcome(views.html);
      case Unsupported =>
        text := Failure(UnsupportedError(ext));
    }
    tmp.Remove(path, removeSucceeds);
    assert old(tmp.live) + {path} - {path} == old(tmp.live);
    r := Answer(text);
  }

  /** Lower-casing keeps the length, and keeps '.' and '/' exactly where they are. */
  lemma LowerKeepsSeparators(s: string, c: char)
    requires c == '.' || c == '/'
    ensures |Lower(s)| == |s|
    ensures forall k :: 0 <= k < |s| ==> (Lower(s)[k] == c <==> s[k] == c)
  {
  }

  lemma {:induction false} LastIndexLower(s: string, c: char)
    requires c == '.' || c == '/'
    ensures LastIndex(Lower(s), c) == LastIndex(s, c)
  {
    if |s| > 0 {
      var n := |s|;
      assert Lower(s)[..n - 1] == Lower(s[..n - 1]);
      LowerKeepsSeparators(s, c);
      LastIndexLower(s[..n - 1], c);
    }
  }

  /** Taking the extension and lower-casing can be done in either order. */
  lemma SplitExtLower(p: string)
    ensures SplitExt(Lower(p)) == Lower(SplitExt(p))
  {
    LastIndexLower(p, '.');
    LastIndexLower(p, '/');
    LowerKeepsSeparators(p, '.');
    var q := Lower(p);
    match LastIndex(p, '.')
    case None =>
    case Some(d) =>
      var start := match LastIndex(p, '/') case None => 0 case Some(s) => s + 1;
      assert (exists k :: start <= k < d && q[k] != '.') <==> (exists k :: start <= k < d && p[k] != '.');
      assert q[d..] == Lower(p[d..]);
  }

  /** Dispatch is case-insensitive: names that agree up to ASCII case select the
      same extractor and produce the same outcome. */
  lemma DispatchCaseInsensitive(a: string, b: string, views: Views)
    requires Lower(a) == Lower(b)
    ensures Suffix(a) == Suffix(b)
    ensures ExtractOutcome(Suffix(a), views) == ExtractOutcome(Suffix(b), views)
  {
    SplitExtLower(a);
    SplitExtLower(b);
  }

  /** A name whose last component has a stem ends in "." and the extension. */
  lemma SplitExtOf(stem: string, ext: string)
    requires |stem| > 0 && stem[|stem| - 1] != '.' && stem[|stem| - 1] != '/'
    requires '.' !in ext && '/' !in ext
    ensures SplitExt(stem + "." + ext) == "." + ext
  {
    var p := stem + "." + ext;
    var d := |stem|;
    assert p[d] == '.';
    assert forall k :: d < k < |p| ==> p[k] == ext[k - d - 1];
    assert LastIndex(p, '.') == Some(d);
    var start := match LastIndex(p, '/') case None => 0 case Some(s) => s + 1;
    assert p[d - 1] == stem[d - 1];
    assert start <= d - 1;
    assert p[d..] == "." + ext;
  }

  /** A name that is only a dot and an extension, such as ".pdf", has no
      extension and is refused. */
  lemma DotFileHasNoExtension(ext: string)
    requires '.' !in ext && '/' !in ext
    ensures SplitExt("." + ext) == ""
  {
    var p := "." + ext;
    assert p[0] == '.';
    assert forall k :: 0 < k < |p| ==> p[k] == ext[k - 1] && p[k] != '.';
    assert LastIndex(p, '.') == Some(0);
  }

  /** "Report.PDF" is handled by the PDF extractor. */
  lemma UpperCaseSuffixExample(name: string, stem: string, ext: string)
    requires stem == "Report" && ext == "PDF" && name == stem + "." + ext
    ensures Suffix(name) == ".pdf" && Select(Suffix(name)) == Use(Pdf)
  {
    SplitExtOf(stem, ext);
    assert Lower("." + ext) == ".pdf";
  }

  /** "archive.tar.gz" has the suffix ".gz", which no extractor handles. */
  lemma DoubleSuffixExample(name: string, stem: string, ext: string)
    requires stem == "archive.tar" && ext == "gz" && name == stem + "." + ext
    ensures Suffix(name) == ".gz" && Select(Suffix(name)) == Unsupported
  {
    SplitExtOf(stem, ext);
  }
}

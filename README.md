# Adan AI backend: a Dafny model of its core

The backend (`backend.py`) is a small web service with three jobs:

- **Extract**: it turns an uploaded document into plain text. The upload's
  lower-cased suffix picks one of seven extractors: PDF, DOCX, PPTX, XLSX, CSV,
  plain text, or HTML. The upload is copied into a temporary file for the
  extractor. After the extractor step the file is removed, whatever the
  outcome, unless `os.remove` itself fails. The copy happens before the
  clean-up is set up, so a failed copy escapes as an unhandled exception and
  leaves the file behind.
- **Chat**: it wraps the user's text in a fixed prompt and sends it to a local
  language model. It removes the model's `<think>…</think>` reasoning spans from
  the answer and returns the trimmed reply.
- **TTS**: it checks the text and the API key, then forwards the text to the
  ElevenLabs speech service.

This project models the logic the backend writes itself:

- the regular-expression clean-up `strip_think`;
- the suffix dispatch and the temporary-file lifecycle of `extract`;
- the line formatting each extractor applies to its library's output;
- the input normalisation and prompt of `chat`;
- the text precedence and the order of the checks in `eleven_tts`.

Each library call and each remote service is an input:

- A library call is a `LibResult`. It is either the parsed structure or the
  exception the library raised.
- The model server is a function `ask` from prompt to reply.
- The speech service is a function `synth` from request to answer.

Modules:

- `Wrappers`: `Option`, `Result` and the HTTP error value.
- `PyText`: the Python string operations the backend uses, stated over
  `seq<char>`. These are `str.strip`, `str.isspace`, ASCII `str.lower`,
  `sep.join`, `str.splitlines` and the decimal rendering of an int. The backend
  never calls `str.split`; `PyText.Split` models it only as the inverse of
  `sep.join`, through which the DOCX and CSV round-trips are stated.
- `Think`: `strip_think`.
- `Extractors`: the per-format formatting. The PPTX, XLSX and CSV loops are
  methods proved against specification functions.
- `Dispatch`: `os.path.splitext`, the if/elif chain and `extract`. `extract` is
  a method over a `TempDir` object whose set of live paths it changes.
- `Relays`: `chat`, `ollama_generate` and `eleven_tts`.

A *bar-joined* line is a row's values joined by a space, a vertical bar and a
space, as the XLSX and CSV extractors write them.

Three behaviours of the code a reader might not expect:

- A PPTX slide that has text frames, all of them blank, still gets its bare
  label `"[Slide i] "`. Only a slide with no text frame at all gets no line
  (`Extractors.BlankSlideLabelled`).
- A transport failure of the speech service is not turned into an HTTP error.
  `eleven_tts` does not catch it, so the model reports it as `Unhandled`.
- The text sent to the speech service is the text as received, not the
  stripped text.

## Model

| member | source | states |
|---|---|---|
| Think.FoldsTo | backend.py:31 | a pattern letter of `<think>` matches itself, its ASCII upper case, and the characters Python's `re.IGNORECASE` also folds to it; used by `Think.CaseMarkers` |
| Think.MarkerAt | backend.py:31 | the marker occurs case-insensitively at the index; used by `Think.FindClose` and `Think.CaseMarkers` |
| Think.HasSpan | backend.py:31 | the text holds a match: an opening marker with a closing marker at or after its end; `Think.RemoveSpansUnchangedIff` ties it to the substitution |
| Think.FindClose | backend.py:31 | the lazy `[\s\S]*?` stops at the first case-insensitive `</think>` at or after the start of the body; if there is none, no closing marker follows |
| Think.RemoveSpans | backend.py:31-33 | removing spans never lengthens the text |
| Think.StripThink | backend.py:32-33 | the result has no surrounding whitespace; `None` and `""` give `""` |
| Think.NoSpanUnchanged | backend.py:31-33 | a text with no `<think>` followed later by a `</think>` is left unchanged |
| Think.SpanShrinks | backend.py:31-33 | a text that has such a pair loses characters |
| Think.RemoveSpansUnchangedIff | backend.py:31-33 | the substitution leaves a text unchanged exactly when it has no opening marker followed by a closing one |
| Think.UnclosedKept | backend.py:31-33 | with no `</think>` anywhere, an unclosed `<think>` and everything else is kept |
| Think.NoLtUnchanged | backend.py:31-33 | a text without `<` is kept as is |
| Think.FirstSpanAtStart | backend.py:31-33 | a span at the start is removed up to the end of its first closing marker, and matching resumes after it |
| Think.FirstSpanRemoved | backend.py:31-33 | the text before the first opening marker is kept in order, and the span up to the first following `</think>` (non-greedy) is removed |
| Think.SpanRemoved | backend.py:31-33 | `pre + <think> + body + </think> + rest`, with no earlier opening marker and no closing marker inside `body`, becomes `pre` followed by the cleaned `rest` |
| Think.PlainSpanRemoved | backend.py:31-33 | a single span around marker-free text is removed, leaving `pre + rest` |
| Think.StripThinkExample | backend.py:31-33 | `"<think>internal notes</think>Hello there."` becomes `"Hello there."` |
| Think.CaseMarkers | backend.py:31 | `<THINK>` and `</Think>` match the markers under `re.IGNORECASE` |
| Think.StripThinkExampleMultiline | backend.py:31-33 | a mixed-case span holding a newline is removed, and the rest is trimmed to `"Ok"` |
| Think.NestedSpanExample | backend.py:31-33 | a nested `<think>` ends at the first `</think>`: `"<think>a<think>b</think>c</think>d"` becomes `"c</think>d"` |
| Think.SpanCanReform | backend.py:31-33 | one substitution pass can leave a complete span behind: removing the inner span of `"<thi<think></think>nk></think>"` forms a new one |
| PyText.IsSpace | backend.py:33 | the characters `str.isspace` accepts; `PyText.Strip` is stated with it |
| PyText.IsLineBreak | backend.py:120 | the line boundaries of `str.splitlines`; `PyText.SplitLines` is stated with it |
| PyText.Lower | backend.py:173 | lower-cases ASCII letters and keeps length and every other character; `Dispatch.LowerKeepsSeparators` and `Dispatch.Suffix` state this |
| PyText.Join | backend.py:60 | `sep.join(parts)`; `PyText.SplitJoin` and `PyText.JoinAvoids` state what it keeps |
| PyText.Strip | backend.py:33 | `str.strip()`: at most as long as the input, no whitespace at either end, empty exactly when the input is all whitespace |
| PyText.StripIdempotent | backend.py:33 | stripping twice is stripping once |
| PyText.StripTrimmed | backend.py:33 | a text without surrounding whitespace is its own strip |
| PyText.StripPadded | backend.py:33 | whitespace around a trimmed core is exactly what `strip` removes |
| PyText.StripNoLineBreak | backend.py:120 | stripping a line does not add line boundaries |
| PyText.SplitJoin | backend.py:60 | parts joined by a separator character that none of them contains split back into the same parts |
| PyText.JoinAvoids | backend.py:100 | a character in neither the separator nor any part is not in the joined text |
| PyText.SplitLines | backend.py:120 | `splitlines()` yields lines without line boundaries |
| PyText.SplitLinesJoin | backend.py:120 | non-empty lines without boundaries, joined by `"\n"`, split back into the same lines |
| PyText.Decimal | backend.py:74 | `str(i)` is a non-empty string of decimal digits with no leading zero |
| PyText.DecimalRoundTrip | backend.py:74 | reading the rendered index back gives the index |
| PyText.DecimalInjective | backend.py:74 | different indices render differently |
| Extractors.ParseError | backend.py:55 | the 400 each extractor raises, with detail the format name, `" parse error: "` and the cause |
| Extractors.Rendered | backend.py:58-62 | the library's output gives a success exactly when the library did not raise; a failure is always a 400 |
| Extractors.NonBlankStripped | backend.py:74 | `t.strip() for t in texts if t.strip()` keeps at most as many texts, each non-empty and trimmed |
| Extractors.NonBlankStrippedFixed | backend.py:120 | texts that are already trimmed and non-empty pass through unchanged |
| Extractors.NonBlankStrippedBlank | backend.py:74 | only blank texts in, nothing out |
| Extractors.NonBlankStrippedNoLineBreak | backend.py:120 | the kept texts have no line boundaries when the input texts had none |
| Extractors.PdfOutcome | backend.py:51-55 | a parsed text is returned unchanged and a `None` text is read as `""`; the result is a failure exactly when pdfminer raised, and then it is the 400 `"PDF parse error: "` with the cause |
| Extractors.DocxText | backend.py:60 | the paragraph texts joined by `"\n"`; `Extractors.DocxParagraphsRecoverable` states that they can be read back |
| Extractors.DocxParagraphsRecoverable | backend.py:57-60 | paragraphs without newlines can be read back from the `"\n"`-joined text |
| Extractors.TextOutcome | backend.py:105-110 | the decoded text is returned unchanged; a failure is a 400 `"Text parse error: "` with the cause |
| Extractors.FrameTexts | backend.py:69-72 | the texts of the shapes that have a text frame, in shape order, at most one per shape |
| Extractors.SlideLabel | backend.py:74 | `"[Slide i] "` with the 1-based index; `Extractors.SlideLabelInjective` states that labels differ |
| Extractors.SlideLine | backend.py:74 | the label, then the stripped non-blank frame texts joined by three spaces; `Extractors.PptxLinesLabelled` states it per line |
| Extractors.PptxLines | backend.py:68-74 | the specification the PPTX loop is proved against: at most one line per slide |
| Extractors.PptxText | backend.py:75 | the PPTX lines joined by `"\n"`; `Extractors.ExtractFromPptx` returns it |
| Extractors.HasFrame | backend.py:73 | `if texts:`, the slide collected at least one frame text; `Extractors.HasFrameIff` ties it to the shapes |
| Extractors.HasFrameIff | backend.py:70-73 | a slide gets a line exactly when one of its shapes has a text frame |
| Extractors.ExtractFromPptx | backend.py:64-77 | the nested loops return the `"\n"`-joined lines of the slide-by-slide specification, or a 400 naming PPTX |
| Extractors.FramedIndicesExact | backend.py:68-73 | the indices of the slides that get a line strictly increase, and a slide's index is among them exactly when it has a text frame |
| Extractors.PptxLinesLabelled | backend.py:68-74 | the k-th line is the line of the k-th slide with a text frame: its 1-based label, then its stripped non-blank frame texts joined by three spaces |
| Extractors.LabelledWiden | backend.py:68-74 | lines labelled against the earlier slides stay labelled when more slides follow |
| Extractors.LabelledExtend | backend.py:73-74 | appending the next framed slide's line keeps every line labelled with its own slide |
| Extractors.BlankSlideLabelled | backend.py:73-74 | a slide whose text frames are all blank still gets the bare label `"[Slide i] "` |
| Extractors.FrameTextsBlank | backend.py:70-72 | when every text frame of a slide is blank, every collected frame text is blank |
| Extractors.SlideLabelInjective | backend.py:74 | different slides get different labels |
| Extractors.CellText | backend.py:86 | an empty cell is `""`, any other its rendered text; `Extractors.ExampleRow` shows it |
| Extractors.HasText | backend.py:87 | some value is not all whitespace; `Extractors.HasTextStrip` ties it to the source's test |
| Extractors.RowLine | backend.py:86-88 | one bar-joined line for a row with text, nothing otherwise; `Extractors.RowLinesSingle` states it |
| Extractors.SheetHeader | backend.py:84 | `"[Sheet] "` followed by the worksheet title; `Extractors.XlsxLinesSingle` states it as a sheet's first line |
| Extractors.SheetLines | backend.py:84-88 | a sheet's header and then its row lines; `Extractors.AppendSheet` is proved against it |
| Extractors.XlsxLines | backend.py:83-88 | the specification the XLSX loops are proved against: at least one line per sheet |
| Extractors.XlsxText | backend.py:89 | the XLSX lines joined by `"\n"`; `Extractors.ExtractFromXlsx` returns it |
| Extractors.HasTextStrip | backend.py:87 | the row test is `any(v.strip() for v in vals)`: some value strips to a non-empty text |
| Extractors.RowValues | backend.py:86 | one value per cell |
| Extractors.RowLines | backend.py:85-88 | a sheet has at most one row line per row |
| Extractors.RowLinesStep | backend.py:85-88 | each row appends its bar-joined line when it has text, and nothing otherwise, after the lines of the rows before it |
| Extractors.XlsxLinesStep | backend.py:83-88 | each sheet appends its header and then its row lines after the lines of the earlier sheets, in sheet order |
| Extractors.AppendSheet | backend.py:84-88 | the body of the sheet loop appends exactly the sheet's header and its row lines |
| Extractors.ExtractFromXlsx | backend.py:79-91 | the nested loops return the `"\n"`-joined lines of the sheet-by-sheet specification, or a 400 naming XLSX |
| Extractors.RowLinesAppend | backend.py:85-88 | rows contribute independently and in order |
| Extractors.RowLinesSingle | backend.py:86-88 | a row with text gives exactly its joined line; a row gives nothing exactly when all its cells, `None` read as `""`, are blank |
| Extractors.XlsxLinesSingle | backend.py:83-88 | one sheet gives `"[Sheet] " + title` and then its row lines |
| Extractors.ExampleValues | backend.py:87-88 | the values `"1"`, `""`, `"x"` have text, and their bar-joined line has an empty field between `1` and `x` |
| Extractors.ExampleRow | backend.py:86-88 | an empty cell renders as `""` inside the joined line |
| Extractors.ExampleBlankRow | backend.py:87 | a row of an empty cell and a blank cell has no text |
| Extractors.ExampleRows | backend.py:85-88 | a row with text followed by a blank row gives one line, the first row bar-joined |
| Extractors.CsvLines | backend.py:99-100 | one line per parsed row, each the row's fields bar-joined |
| Extractors.CsvText | backend.py:99-101 | the CSV lines joined by `"\n"`; `Extractors.CsvOneLinePerRow` states that they can be read back |
| Extractors.ExtractFromCsv | backend.py:93-103 | the loop returns the `"\n"`-joined row lines, or a 400 naming CSV |
| Extractors.CsvOneLinePerRow | backend.py:99-101 | when no field holds a newline, the text has exactly one line per row, the row's joined fields |
| Extractors.CsvExample | backend.py:99-101 | rows `a,b` and `1,2` give their two bar-joined lines separated by one newline |
| Extractors.HtmlText | backend.py:120 | the page's lines, each stripped, blank ones dropped, joined by `"\n"`; `Extractors.HtmlLines` and `Extractors.HtmlIdempotent` state its properties |
| Extractors.HtmlLines | backend.py:119-120 | the output's lines are the page's non-blank lines, each trimmed and non-empty, in source order |
| Extractors.HtmlIdempotent | backend.py:120 | cleaning the text a second time changes nothing |
| Extractors.HtmlOutcome | backend.py:112-122 | a parse failure is a 400 naming HTML; otherwise the lines are the page's stripped non-blank lines |
| Dispatch.LastIndex | backend.py:173 | `rfind`: the last occurrence of the character, or none |
| Dispatch.SplitExt | backend.py:173 | the extension is empty or a `"."`-led suffix of the name with no further `"."` or `"/"` |
| Dispatch.Suffix | backend.py:173 | the suffix is empty or starts with `"."`, is as long as the raw extension, and has no ASCII capitals |
| Dispatch.Select | backend.py:176-191 | each of the twelve registered suffixes selects its one extractor, and every other suffix, the empty one included, is unsupported |
| Dispatch.UnsupportedError | backend.py:191 | the 415 `"Unsupported file type: "` followed by the suffix |
| Dispatch.ExtractOutcome | backend.py:176-191 | an unregistered suffix is a 415 naming the suffix, whatever the file holds; a registered suffix fails only with a 400 parse error |
| Dispatch.TempDir.constructor | backend.py:38 | the temporary directory starts with no live paths |
| Dispatch.TempDir.Create | backend.py:38 | `mkstemp` returns a path that was not live, and makes it live |
| Dispatch.TempDir.Remove | backend.py:193-194 | a successful `os.remove` ends the path's life; a failed one changes nothing |
| Dispatch.Extract | backend.py:169-196 | a missing or empty name is a 400 `"No file."` and no temporary file is created; otherwise one fresh path with the suffix is created; if copying the upload fails, the exception escapes and that path stays live; otherwise the result is the selected extractor's outcome or the 415, and the path is removed unless removal itself fails, which never changes the result |
| Dispatch.LowerKeepsSeparators | backend.py:173 | lower-casing keeps the length and keeps `"."` and `"/"` where they are |
| Dispatch.LastIndexLower | backend.py:173 | lower-casing does not move the last `"."` or `"/"` |
| Dispatch.SplitExtLower | backend.py:173 | taking the extension and lower-casing commute |
| Dispatch.DispatchCaseInsensitive | backend.py:173 | names that agree up to case select the same extractor and give the same outcome |
| Dispatch.SplitExtOf | backend.py:173 | a stem followed by `"."` and an extension has that extension |
| Dispatch.DotFileHasNoExtension | backend.py:173 | a name such as `".pdf"` has no extension and is refused |
| Dispatch.UpperCaseSuffixExample | backend.py:173-177 | `"Report.PDF"` is handled by the PDF extractor |
| Dispatch.DoubleSuffixExample | backend.py:173 | `"archive.tar.gz"` has the suffix `".gz"`, which is unsupported |
| Relays.ChatText | backend.py:156-158 | the text is trimmed, and it is empty exactly when `text` is missing, not a string, or all whitespace |
| Relays.BuildPrompt | backend.py:161-165 | the system text, the user's turn and the assistant cue around the text; `Relays.PromptCarriesText` and `Relays.PromptInjective` state its properties |
| Relays.PromptCarriesText | backend.py:161-165 | the prompt is the system text, `"\n\nUser: "`, the user's text unchanged, then `"\nAssistant:"` |
| Relays.PromptInjective | backend.py:165 | different texts give different prompts |
| Relays.OllamaGenerate | backend.py:124-136 | a reply is trimmed; a string response is cleaned by `strip_think`; a missing or falsy response gives `""`; a failed call is the 500 `"Ollama error: "` with its cause, and a truthy non-string response the 500 with the type error `strip_think` raises |
| Relays.Chat | backend.py:154-167 | without usable text the reply is `""`; a reply has no surrounding whitespace; every failure is a 500 |
| Relays.ChatFastPath | backend.py:156-159 | without usable text the reply is `""` whatever the model would answer |
| Relays.ChatAsksModel | backend.py:161-166 | with usable text the model gets the prompt built from the stripped text, and the reply is its response cleaned by `strip_think` |
| Relays.ChatModelFails | backend.py:135-136 | a failing model call is a 500 `"Ollama error: "` with the cause |
| Relays.TtsText | backend.py:211-213 | a non-empty form text wins; otherwise the JSON body's `text` is used |
| Relays.SpeakableText | backend.py:214 | the text passes exactly when it is present, a string, non-empty and non-empty after `strip()`, and it is passed on as received, not stripped |
| Relays.VoiceId | backend.py:221 | the configured voice when non-empty; the default voice `"21m00Tcm4TlvDq8ikWAM"` when unset or empty; never empty |
| Relays.UpstreamErrorDistinct | backend.py:240 | a relayed service error never equals the endpoint's own 400 or 500 |
| Relays.Tts | backend.py:199-243 | the 400 `"Missing 'text'."` is given exactly when there is no speakable text; the key 500 only when the key is missing or empty |
| Relays.FormTakesPrecedence | backend.py:211-212 | with a non-empty form text, the JSON body does not matter |
| Relays.BlankFormShadowsBody | backend.py:211-215 | a form text of blanks is used and refused, even when the body holds good text |
| Relays.BodyTextUsed | backend.py:212-213 | without a form text, the body's `text` is spoken |
| Relays.TextCheckedFirst | backend.py:214-219 | bad text is a 400 whether or not a key is configured |
| Relays.KeyCheckedSecond | backend.py:218-219 | good text without a key is a 500, and the service is not called |
| Relays.UpstreamRelayed | backend.py:221-243 | the service gets the text as received at the voice's URL; a non-200 answer is passed on with its status and body; a 200 answer's bytes are returned unchanged; a transport exception is not caught |

## Left out

- HTTP routing, CORS, the JSON response envelopes, the `time.time()` stamps and the health endpoint: framework plumbing.
- The network calls to Ollama and ElevenLabs, their timeouts and the audio streaming. The services are the parameters `ask` and `synth`, and the audio is a byte sequence.
- The parsing inside pdfminer, python-docx, python-pptx, openpyxl, BeautifulSoup and `csv.reader`. Their outputs are abstract inputs, and the removal of script, style and noscript tags belongs to BeautifulSoup's part.
- The chardet detection and lenient decoding of `_detect_decode`, and the file reads and writes of `_tmp_to_path` and the extractors: I/O. A temporary file is an abstract path in a set of live paths. Whether copying the upload fails is an input (`writeError`), and so is whether `os.remove` succeeds.
- `str(v)` of an openpyxl cell value: a cell arrives already rendered as text, or `None`.
- The texts of library exceptions: each is an input string `cause`.
- The float voice settings of the speech request: floating point, and not observable by the backend.
- The environment loading at lines 15-19: configuration. The line-18 lookup that passes a literal key string as the variable's name makes the key unset in practice. The model takes the key as an `Option<string>` input, so that behaviour is not shown.
- PyText.Lower: maps ASCII letters only, while `str.lower` is Unicode-aware. A non-ASCII extension therefore appears in the 415 message in a form the backend may lower-case differently. Dispatch is still unaffected. The only non-ASCII characters that `str.lower` maps to ASCII letters are U+0130, which gives `i` followed by a combining dot, and U+212A KELVIN SIGN, which gives `k`. No registered suffix contains `i` or `k`, so such a name is unsupported in both the backend and the model.
- Dispatch.SplitExt: follows POSIX `os.path.splitext`; the Windows variant, which also splits on `\` and drive letters, is not modelled.
- Dispatch.TempDir.Create: cannot fail, while `tempfile.mkstemp` at backend.py:38 can raise before any file exists; that exception escapes `extract` unhandled and is not modelled.
- Relays.OllamaGenerate: the JSON reply itself is not modelled. A truthy reply that is not an object (a non-empty list or string, a non-zero number, `true`) makes `.get` raise, and the model counts it as `Failed`, the same 500 path. A falsy reply (`null`, `[]`, `""`, `0`, `false`) is read as `{}` by `data or {}` and is `Answered(None)`, which gives `""`.
- Think.RemoveSpans: a text is a sequence of code points, so `[\s\S]` matches any character; surrogate pairs and other encodings are not modelled.

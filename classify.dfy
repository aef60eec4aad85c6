/** The PDF routing pipeline of classify_convert2txt.py: a threshold rule that labels each
    PDF "searchable" or "image" (or "error: ..."), an OCR fallback that renders every page,
    recognises it into a one-page PDF and merges those pages in order, text extraction
    into a ".txt" file, and the batch loop that walks the input files and routes each one.

    The PDF, rendering and OCR libraries are not modelled; they are the fields of a
    `Library` value: total functions of the bytes they read, so that the same file always
    yields the same answer. */
module Classify {
  import opened Outcomes
  import opened Text
  import opened Paths

  type Bytes = seq<bv8>

  /** One page of an opened PDF document. */
  datatype Page = Page(data: Bytes)

  /** One page rendered to a raster image. */
  datatype Image = Image(pixels: Bytes)

  /** The foreign calls of the script. */
  datatype Library = Library(
    extractText: Bytes -> Result<string>,     // pdfminer.high_level.extract_text
    open: Bytes -> Result<seq<Page>>,         // fitz.open, on a file or on a byte stream
    hasImages: Page -> Result<bool>,          // bool(page.get_images())
    render: (Bytes, nat) -> Result<seq<Image>>, // pdf2image.convert_from_path(path, dpi=...)
    recognize: Image -> Result<Bytes>,        // pytesseract.image_to_pdf_or_hocr(img, extension="pdf")
    save: seq<Page> -> Result<Bytes>,         // Document.save: the bytes written for these pages
    writeText: (Path, string) -> Store)       // open(path, "w", encoding="utf-8").write(text)

  /** How writing a text file ends. Opening with "w" empties the file, so a write that fails
      part-way leaves the first `written` characters of the text behind. */
  datatype Store = Stored | OpenFailed(cause: string) | WriteFailed(cause: string, written: nat)

  const OcrDpi: nat := 300

  // ---------------------------------------------------------------------------------------
  // classify_pdf

  datatype Thresholds = Thresholds(minTextLength: int, minTextPerPage: real, imagePageRatio: real)

  /** The keyword defaults of `classify_pdf`, which is the only way the batch loop calls it. */
  const Defaults := Thresholds(500, 100.0, 0.8)

  const ImageLabel: string := "image"
  const SearchableLabel: string := "searchable"
  const ErrorPrefix: string := "error: "

  /** The 4-tuple `classify_pdf` returns: a label and three metrics, all `None` on error. */
  datatype Verdict = Verdict(classification: string, textLength: Option<nat>, textPerPage: Option<real>,
                             imageRatio: Option<real>)

  /** `sum(1 for page in doc if page.get_images())`: the pages are asked in order, and the
      first page whose images cannot be listed raises. */
  function CountImagePages(lib: Library, pages: seq<Page>): (n: Result<nat>)
    ensures n.Ok? ==> n.value <= |pages|
    ensures n.Ok? ==> (n.value == 0 <==> forall i :: 0 <= i < |pages| ==> lib.hasImages(pages[i]) == Ok(false))
    ensures n.Ok? ==> (n.value == |pages| <==> forall i :: 0 <= i < |pages| ==> lib.hasImages(pages[i]) == Ok(true))
  {
    if pages == [] then Ok(0)
    else
      var prefix := pages[..|pages| - 1];
      assert forall i :: 0 <= i < |prefix| ==> prefix[i] == pages[i];
      match CountImagePages(lib, prefix)
      case Fails(e) => Fails(e)
      case Ok(count) =>
        match lib.hasImages(pages[|pages| - 1])
        case Fails(e) => Fails(e)
        case Ok(hasImages) => Ok(count + if hasImages then 1 else 0)
  }

  /** Counting fails exactly when some page cannot list its images, and then with the
      cause of the first such page. */
  lemma {:induction false} CountImagePagesFails(lib: Library, pages: seq<Page>)
    ensures var n := CountImagePages(lib, pages);
            && (n.Fails? <==> exists i :: 0 <= i < |pages| && lib.hasImages(pages[i]).Fails?)
            && (n.Fails? ==> exists i :: 0 <= i < |pages| && lib.hasImages(pages[i]) == Fails(n.cause)
                                         && forall k :: 0 <= k < i ==> lib.hasImages(pages[k]).Ok?)
    decreases |pages|
  {
    if pages != [] {
      var prefix := pages[..|pages| - 1];
      assert forall i :: 0 <= i < |prefix| ==> prefix[i] == pages[i];
      CountImagePagesFails(lib, prefix);
    }
  }

  /** `x / n if n else 0`, the form of both `text_per_page` and `image_ratio`. */
  function PerPage(x: nat, n: nat): real {
    if n > 0 then x as real / n as real else 0.0
  }

  lemma RatioAtMostOne(x: nat, n: nat)
    requires x <= n
    ensures 0.0 <= PerPage(x, n) <= 1.0
  {
    if n > 0 {
      assert x as real / n as real <= n as real / n as real;
    }
  }

  /** The classification test: any single threshold violated makes the document look
      scanned, whatever the other two say. */
  predicate LooksScanned(t: Thresholds, textLength: nat, textPerPage: real, imageRatio: real) {
    textLength < t.minTextLength || textPerPage < t.minTextPerPage || imageRatio > t.imagePageRatio
  }

  predicate IsErrorLabel(cls: string) {
    |cls| >= |ErrorPrefix| && cls[..|ErrorPrefix|] == ErrorPrefix
  }

  /** `classify_pdf(file_path, ...)` on a file with contents `pdf`. The text is extracted
      first, then the document is opened, then its pages are asked for images; the first of
      the three that fails gives the error label. Otherwise the label is "image" exactly
      when the threshold test holds on the stripped text length, the text per page and the
      share of pages carrying images. */
  function ClassifyPdf(lib: Library, pdf: Bytes, t: Thresholds): (v: Verdict)
    ensures lib.extractText(pdf).Fails? ==>
              v == Verdict(ErrorPrefix + lib.extractText(pdf).cause, None, None, None)
    ensures lib.extractText(pdf).Ok? && lib.open(pdf).Fails? ==>
              v == Verdict(ErrorPrefix + lib.open(pdf).cause, None, None, None)
    ensures lib.extractText(pdf).Ok? && lib.open(pdf).Ok? && CountImagePages(lib, lib.open(pdf).value).Fails? ==>
              v == Verdict(ErrorPrefix + CountImagePages(lib, lib.open(pdf).value).cause, None, None, None)
    ensures lib.extractText(pdf).Ok? && lib.open(pdf).Ok? && CountImagePages(lib, lib.open(pdf).value).Ok? ==>
              var pages := lib.open(pdf).value;
              var len := |Strip(lib.extractText(pdf).value)|;
              var ratio := PerPage(CountImagePages(lib, pages).value, |pages|);
              && v.textLength == Some(len)
              && v.textPerPage == Some(PerPage(len, |pages|))
              && v.imageRatio == Some(ratio)
              && 0.0 <= ratio <= 1.0
              && (v.classification == ImageLabel <==> LooksScanned(t, len, PerPage(len, |pages|), ratio))
              && (v.classification == SearchableLabel <==> !LooksScanned(t, len, PerPage(len, |pages|), ratio))
  {
    match lib.extractText(pdf)
    case Fails(e) => Verdict(ErrorPrefix + e, None, None, None)
    case Ok(text) =>
      var textLength := |Strip(text)|;
      match lib.open(pdf)
      case Fails(e) => Verdict(ErrorPrefix + e, None, None, None)
      case Ok(pages) =>
        var textPerPage := PerPage(textLength, |pages|);
        match CountImagePages(lib, pages)
        case Fails(e) => Verdict(ErrorPrefix + e, None, None, None)
        case Ok(imagePages) =>
          var imageRatio := PerPage(imagePages, |pages|);
          RatioAtMostOne(imagePages, |pages|);
          if LooksScanned(t, textLength, textPerPage, imageRatio) then
            Verdict(ImageLabel, Some(textLength), Some(textPerPage), Some(imageRatio))
          else
            Verdict(SearchableLabel, Some(textLength), Some(textPerPage), Some(imageRatio))
  }

  /** Every label is one of the three kinds, and an error label is neither of the other two,
      so the batch loop's final `else` branch is taken exactly for errors. */
  lemma LabelKinds(lib: Library, pdf: Bytes, t: Thresholds)
    ensures var v := ClassifyPdf(lib, pdf, t);
            && (v.classification == ImageLabel || v.classification == SearchableLabel || IsErrorLabel(v.classification))
            && (IsErrorLabel(v.classification) <==> v.textLength.None?)
            && (IsErrorLabel(v.classification) ==> v.classification != ImageLabel && v.classification != SearchableLabel)
  {
    var v := ClassifyPdf(lib, pdf, t);
    if v.textLength.None? {
      assert v.classification[..|ErrorPrefix|] == ErrorPrefix;
      assert v.classification[0] == 'e';
    } else {
      assert ImageLabel[0] == 'i' && SearchableLabel[0] == 's';
      assert !IsErrorLabel(v.classification) by {
        if |v.classification| >= |ErrorPrefix| {
          assert v.classification[0] == v.classification[..|ErrorPrefix|][0];
        }
      }
    }
  }

  /** A document with no pages gets 0 text per page and image ratio 0, so with the default
      thresholds it is always labelled "image", however much text it has. */
  lemma ZeroPagesIsImage(lib: Library, pdf: Bytes)
    requires lib.extractText(pdf).Ok? && lib.open(pdf) == Ok([])
    ensures var v := ClassifyPdf(lib, pdf, Defaults);
            v.classification == ImageLabel && v.textPerPage == Some(0.0) && v.imageRatio == Some(0.0)
  {
  }

  // ---------------------------------------------------------------------------------------
  // ocr_pdf

  /** One rendered page through the recogniser: the one-page PDF it produces, opened. */
  function OcrPage(lib: Library, img: Image): Result<seq<Page>> {
    match lib.recognize(img)
    case Fails(e) => Fails(e)
    case Ok(bytes) => lib.open(bytes)
  }

  /** The pages of the recognised images merged in image order, or the first failure. */
  function MergeRecognized(lib: Library, imgs: seq<Image>): Result<seq<Page>>
    decreases |imgs|
  {
    if imgs == [] then Ok([])
    else
      match MergeRecognized(lib, imgs[..|imgs| - 1])
      case Fails(e) => Fails(e)
      case Ok(pages) =>
        match OcrPage(lib, imgs[|imgs| - 1])
        case Fails(e) => Fails(e)
        case Ok(more) => Ok(pages + more)
  }

  /** What `ocr_pdf` builds for a file with contents `pdf` before it saves it. */
  function Reassemble(lib: Library, pdf: Bytes): Result<seq<Page>> {
    match lib.render(pdf, OcrDpi)
    case Fails(e) => Fails(e)
    case Ok(imgs) => MergeRecognized(lib, imgs)
  }

  /** What `ocr_pdf` saves for a file with contents `pdf`: the merged pages, or the first
      failure of rendering, recognising, opening or saving. */
  function OcrOutput(lib: Library, pdf: Bytes): Result<Bytes> {
    match Reassemble(lib, pdf)
    case Fails(e) => Fails(e)
    case Ok(pages) => lib.save(pages)
  }

  /** OCR succeeds exactly when the pages render, every page is recognised into a PDF that
      opens, and the merged document saves. */
  lemma OcrOutputOk(lib: Library, pdf: Bytes)
    ensures Reassemble(lib, pdf).Ok? <==>
              && lib.render(pdf, OcrDpi).Ok?
              && forall i :: 0 <= i < |lib.render(pdf, OcrDpi).value| ==>
                   OcrPage(lib, lib.render(pdf, OcrDpi).value[i]).Ok?
    ensures OcrOutput(lib, pdf).Ok? <==> Reassemble(lib, pdf).Ok? && lib.save(Reassemble(lib, pdf).value).Ok?
  {
    if lib.render(pdf, OcrDpi).Ok? {
      MergeOkIffEveryPage(lib, lib.render(pdf, OcrDpi).value);
    }
  }

  /** The merge succeeds exactly when every page is recognised and opened: one failing page
      fails the whole document. */
  lemma {:induction false} MergeOkIffEveryPage(lib: Library, imgs: seq<Image>)
    ensures MergeRecognized(lib, imgs).Ok? <==> forall i :: 0 <= i < |imgs| ==> OcrPage(lib, imgs[i]).Ok?
    decreases |imgs|
  {
    if imgs != [] {
      var prefix := imgs[..|imgs| - 1];
      MergeOkIffEveryPage(lib, prefix);
      assert forall i :: 0 <= i < |prefix| ==> prefix[i] == imgs[i];
    }
  }

  /** When the recogniser turns each image into a one-page PDF, page `i` of the merged
      document is the recognised page of image `i`. */
  lemma {:induction false} MergeKeepsPageOrder(lib: Library, imgs: seq<Image>)
    requires forall i :: 0 <= i < |imgs| ==> OcrPage(lib, imgs[i]).Ok? && |OcrPage(lib, imgs[i]).value| == 1
    ensures MergeRecognized(lib, imgs).Ok?
    ensures var pages := MergeRecognized(lib, imgs).value;
            |pages| == |imgs| && forall i :: 0 <= i < |imgs| ==> pages[i] == OcrPage(lib, imgs[i]).value[0]
    decreases |imgs|
  {
    if imgs != [] {
      var prefix := imgs[..|imgs| - 1];
      assert forall i :: 0 <= i < |prefix| ==> prefix[i] == imgs[i];
      MergeKeepsPageOrder(lib, prefix);
    }
  }

  /** The document `fitz.open()` creates empty and `insert_pdf` appends pages to. */
  class MergedPdf {
    var pages: seq<Page>

    constructor ()
      ensures pages == []
    {
      pages := [];
    }

    /** `insert_pdf(doc)`: all pages of `doc` are appended, in order. */
    method InsertPdf(doc: seq<Page>)
      modifies this
      ensures pages == old(pages) + doc
    {
      pages := pages + doc;
    }
  }

  // ---------------------------------------------------------------------------------------
  // process_pdfs, per file

  /** A file found by the walk: its directory relative to the input root, its name, and
      its contents. */
  datatype SourceFile = SourceFile(dir: seq<string>, name: string, content: Bytes)

  /** Where a file's run through the loop ends; the script prints a line for each. */
  datatype Route =
    | NotPdf
    | ClassificationFailed(classification: string)
    | ExtractedDirect
    | OcrFailed(cause: string)
    | InvalidOcr(cause: string)
    | ExtractedFromOcr
    | ExtractionFailed(cause: string)
    | OutputNotOpened(cause: string)
    | OutputTruncated(cause: string)

  /** What handling one file does to the disk: the directories it creates, the OCR file it
      saves and the text file it writes. */
  datatype Effect = Effect(route: Route, dirs: set<Path>, temp: Option<(Path, Bytes)>,
                           write: Option<(Path, string)>)

  /** The files and directories the script has written. */
  datatype Disk = Disk(outputs: map<Path, string>, tempFiles: map<Path, Bytes>, dirs: set<Path>)

  /** `output_root / rel_path.with_suffix("")`. */
  function OutputStem(outputRoot: Path, f: SourceFile): (p: Path)
    requires f.name != []
    ensures p != [] && p[|p| - 1] != []
  {
    outputRoot + f.dir + [WithSuffix(f.name, "")]
  }

  /** `output_path.parent.mkdir(parents=True)`: the parent and every ancestor below the
      output root. */
  function ParentDirs(outputRoot: Path, f: SourceFile): set<Path> {
    set k | 0 <= k <= |f.dir| :: outputRoot + f.dir[..k]
  }

  /** `temp_ocr_dir / rel_path.name`: only the base name is used. */
  function OcrPath(tempOcrDir: Path, f: SourceFile): Path {
    tempOcrDir + [f.name]
  }

  /** What a file holds after the text was written to it: all of it, or only the first
      `written` characters when the write failed part-way. */
  function Kept(text: string, s: Store): (r: string)
    ensures r <= text
    ensures s.WriteFailed? ==> |r| == if s.written < |text| then s.written else |text|
    ensures !s.WriteFailed? ==> r == text
  {
    if s.WriteFailed? && s.written < |text| then text[..s.written] else text
  }

  /** `convert_pdf_to_text(pdf, output_path)` as an effect: the text is extracted before the
      ".txt" file is opened, so a failed extraction writes nothing; a file that cannot be
      opened is left as it was, and a write that fails part-way leaves what was written. */
  function Extraction(lib: Library, pdf: Bytes, outputPath: Path, dirs: set<Path>,
                      temp: Option<(Path, Bytes)>, done: Route): Effect
    requires outputPath != [] && outputPath[|outputPath| - 1] != []
  {
    match lib.extractText(pdf)
    case Fails(e) => Effect(ExtractionFailed(e), dirs, temp, None)
    case Ok(text) =>
      var path := PathWithSuffix(outputPath, ".txt");
      var stored := lib.writeText(path, text);
      var route := match stored
                   case Stored => done
                   case OpenFailed(e) => OutputNotOpened(e)
                   case WriteFailed(e, _) => OutputTruncated(e);
      Effect(route, dirs, temp, if stored.OpenFailed? then None else Some((path, Kept(text, stored))))
  }

  /** One pass of the loop body of `process_pdfs` for file `f`. */
  function FileEffect(lib: Library, outputRoot: Path, tempOcrDir: Path, f: SourceFile): Effect {
    if !IsPdfName(f.name) then Effect(NotPdf, {}, None, None)
    else
      var v := ClassifyPdf(lib, f.content, Defaults);
      Dispatch(lib, f.content, v.classification, OutputStem(outputRoot, f), ParentDirs(outputRoot, f),
               OcrPath(tempOcrDir, f))
  }

  /** What the loop body does with a PDF once it has been labelled `cls`. */
  function Dispatch(lib: Library, pdf: Bytes, cls: string, outputPath: Path, dirs: set<Path>,
                    ocrPath: Path): Effect
    requires outputPath != [] && outputPath[|outputPath| - 1] != []
  {
    if cls == SearchableLabel then
      Extraction(lib, pdf, outputPath, dirs, None, ExtractedDirect)
    else if cls == ImageLabel then
      match OcrOutput(lib, pdf)
      case Fails(e) => Effect(OcrFailed(e), dirs, None, None)
      case Ok(saved) =>
        match lib.open(saved)
        case Fails(e) => Effect(InvalidOcr(e), dirs, Some((ocrPath, saved)), None)
        case Ok(_) => Extraction(lib, saved, outputPath, dirs, Some((ocrPath, saved)), ExtractedFromOcr)
    else
      Effect(ClassificationFailed(cls), dirs, None, None)
  }

  /** A text file is written exactly when the file reaches one of the two extraction
      states or the write fails part-way, and then at
      `output_root / <dirs> / <name without suffixes>.txt`. */
  lemma WriteOnlyOnSuccess(lib: Library, outputRoot: Path, tempOcrDir: Path, f: SourceFile)
    ensures var e := FileEffect(lib, outputRoot, tempOcrDir, f);
            && (e.write.Some? <==> e.route == ExtractedDirect || e.route == ExtractedFromOcr
                                   || e.route.OutputTruncated?)
            && (e.write.Some? ==> e.write.value.0 == outputRoot + f.dir + [TxtName(f.name)])
  {
    if IsPdfName(f.name) {
      TxtPath(outputRoot, f);
      DispatchWrites(lib, f.content, ClassifyPdf(lib, f.content, Defaults).classification,
                     OutputStem(outputRoot, f), ParentDirs(outputRoot, f), OcrPath(tempOcrDir, f));
    }
  }

  /** Whatever the label, the loop body writes exactly when it reaches an extraction state
      or a write fails part-way, and then to the ".txt" path. */
  lemma DispatchWrites(lib: Library, pdf: Bytes, cls: string, outputPath: Path, dirs: set<Path>,
                       ocrPath: Path)
    requires outputPath != [] && outputPath[|outputPath| - 1] != []
    ensures var e := Dispatch(lib, pdf, cls, outputPath, dirs, ocrPath);
            && (e.write.Some? <==> e.route == ExtractedDirect || e.route == ExtractedFromOcr
                                   || e.route.OutputTruncated?)
            && (e.write.Some? ==> e.write.value.0 == PathWithSuffix(outputPath, ".txt"))
  {
  }

  /** `output_path.with_suffix(".txt")` is the file's directory under the output root and
      its name without suffixes plus ".txt". */
  lemma TxtPath(outputRoot: Path, f: SourceFile)
    requires f.name != []
    ensures PathWithSuffix(OutputStem(outputRoot, f), ".txt") == outputRoot + f.dir + [TxtName(f.name)]
  {
    var p := OutputStem(outputRoot, f);
    assert p[..|p| - 1] == outputRoot + f.dir;
  }

  /** Searchable files are extracted from the original, and never go through OCR; the file
      written holds the whole text when the write succeeds, and a prefix of it otherwise. */
  lemma SearchableUsesOriginal(lib: Library, outputRoot: Path, tempOcrDir: Path, f: SourceFile)
    requires IsPdfName(f.name) && ClassifyPdf(lib, f.content, Defaults).classification == SearchableLabel
    ensures var e := FileEffect(lib, outputRoot, tempOcrDir, f);
            var t := lib.extractText(f.content);
            var path := outputRoot + f.dir + [TxtName(f.name)];
            && e.temp == None
            && (e.write.Some? <==> t.Ok? && !lib.writeText(path, t.value).OpenFailed?)
            && (e.write.Some? ==> e.write.value.1 <= t.value)
            && (e.route == ExtractedDirect <==> t.Ok? && lib.writeText(path, t.value).Stored?)
            && (e.route == ExtractedDirect ==> e.write == Some((path, t.value)))
  {
    TxtPath(outputRoot, f);
  }

  /** Image files are extracted only from the saved OCR output, and only when the OCR
      succeeded and the saved file re-opens; the original is never a fallback. */
  lemma ImageUsesOcrOutputOnly(lib: Library, outputRoot: Path, tempOcrDir: Path, f: SourceFile)
    requires IsPdfName(f.name) && ClassifyPdf(lib, f.content, Defaults).classification == ImageLabel
    ensures var e := FileEffect(lib, outputRoot, tempOcrDir, f);
            var o := OcrOutput(lib, f.content);
            var path := outputRoot + f.dir + [TxtName(f.name)];
            && (e.temp.Some? <==> o.Ok?)
            && (e.temp.Some? ==> e.temp.value == (OcrPath(tempOcrDir, f), o.value))
            && (e.write.Some? <==> && o.Ok? && lib.open(o.value).Ok? && lib.extractText(o.value).Ok?
                                   && !lib.writeText(path, lib.extractText(o.value).value).OpenFailed?)
            && (e.write.Some? ==> e.write.value.1 <= lib.extractText(o.value).value)
            && (e.route == ExtractedFromOcr ==> e.write == Some((path, lib.extractText(o.value).value)))
  {
    TxtPath(outputRoot, f);
    OcrDispatch(lib, f.content, OutputStem(outputRoot, f), ParentDirs(outputRoot, f), OcrPath(tempOcrDir, f));
  }

  /** The image branch of the loop body, for any output and OCR paths. */
  lemma OcrDispatch(lib: Library, pdf: Bytes, outputPath: Path, dirs: set<Path>, ocrPath: Path)
    requires outputPath != [] && outputPath[|outputPath| - 1] != []
    ensures var e := Dispatch(lib, pdf, ImageLabel, outputPath, dirs, ocrPath);
            var o := OcrOutput(lib, pdf);
            var path := PathWithSuffix(outputPath, ".txt");
            && (e.temp.Some? <==> o.Ok?)
            && (e.temp.Some? ==> e.temp.value == (ocrPath, o.value))
            && (e.write.Some? <==> && o.Ok? && lib.open(o.value).Ok? && lib.extractText(o.value).Ok?
                                   && !lib.writeText(path, lib.extractText(o.value).value).OpenFailed?)
            && (e.write.Some? ==> e.write.value.1 <= lib.extractText(o.value).value)
            && (e.route == ExtractedFromOcr ==> e.write == Some((path, lib.extractText(o.value).value)))
  {
  }

  /** A file whose classification failed is skipped: nothing is saved or written. */
  lemma ErrorIsSkipped(lib: Library, outputRoot: Path, tempOcrDir: Path, f: SourceFile)
    requires IsPdfName(f.name)
    requires || lib.extractText(f.content).Fails? || lib.open(f.content).Fails?
             || CountImagePages(lib, lib.open(f.content).value).Fails?
    ensures var e := FileEffect(lib, outputRoot, tempOcrDir, f);
            && e.route == ClassificationFailed(ClassifyPdf(lib, f.content, Defaults).classification)
            && IsErrorLabel(e.route.classification)
            && e.temp == None && e.write == None
  {
    LabelKinds(lib, f.content, Defaults);
  }

  /** Files whose name does not end in ".pdf", in any letter case, are not touched. */
  lemma NonPdfIgnored(lib: Library, outputRoot: Path, tempOcrDir: Path, f: SourceFile)
    requires !IsPdfName(f.name)
    ensures FileEffect(lib, outputRoot, tempOcrDir, f) == Effect(NotPdf, {}, None, None)
  {
  }

  // ---------------------------------------------------------------------------------------
  // process_pdfs, whole walk

  function Apply(d: Disk, e: Effect): Disk {
    Disk(if e.write.Some? then d.outputs[e.write.value.0 := e.write.value.1] else d.outputs,
         if e.temp.Some? then d.tempFiles[e.temp.value.0 := e.temp.value.1] else d.tempFiles,
         d.dirs + e.dirs)
  }

  /** The effects of handling `files`, one per file, in walk order. */
  function Effects(lib: Library, outputRoot: Path, tempOcrDir: Path, files: seq<SourceFile>): (es: seq<Effect>)
    ensures |es| == |files|
    ensures forall i :: 0 <= i < |files| ==> es[i] == FileEffect(lib, outputRoot, tempOcrDir, files[i])
  {
    seq(|files|, i requires 0 <= i < |files| => FileEffect(lib, outputRoot, tempOcrDir, files[i]))
  }

  /** The disk after the effects `es` have been carried out in order, starting from `d`. */
  function Replay(d: Disk, es: seq<Effect>): Disk
    decreases |es|
  {
    if es == [] then d else Apply(Replay(d, es[..|es| - 1]), es[|es| - 1])
  }

  lemma ReplayStep(d: Disk, es: seq<Effect>, i: nat)
    requires i < |es|
    ensures Replay(d, es[..i + 1]) == Apply(Replay(d, es[..i]), es[i])
  {
    assert es[..i + 1][..i] == es[..i];
  }

  /** The route of each effect. */
  function RoutesOf(es: seq<Effect>): seq<Route> {
    seq(|es|, i requires 0 <= i < |es| => es[i].route)
  }

  lemma RoutesStep(es: seq<Effect>, i: nat)
    requires i < |es|
    ensures RoutesOf(es[..i + 1]) == RoutesOf(es[..i]) + [es[i].route]
  {
  }

  /** The text files written by `es`, the later effect winning on a shared path. */
  function Written(es: seq<Effect>): map<Path, string>
    decreases |es|
  {
    if es == [] then map[]
    else
      var e := es[|es| - 1];
      var w := Written(es[..|es| - 1]);
      if e.write.Some? then w[e.write.value.0 := e.write.value.1] else w
  }

  function Saved(es: seq<Effect>): map<Path, Bytes>
    decreases |es|
  {
    if es == [] then map[]
    else
      var e := es[|es| - 1];
      var s := Saved(es[..|es| - 1]);
      if e.temp.Some? then s[e.temp.value.0 := e.temp.value.1] else s
  }

  function Created(es: seq<Effect>): set<Path>
    decreases |es|
  {
    if es == [] then {} else Created(es[..|es| - 1]) + es[|es| - 1].dirs
  }

  /** A run overwrites what it writes and leaves every other file as it was: the result
      does not depend on what the disk held at the paths it writes. */
  lemma {:induction false} ReplayOverrides(d: Disk, es: seq<Effect>)
    ensures Replay(d, es) == Disk(d.outputs + Written(es), d.tempFiles + Saved(es), d.dirs + Created(es))
    decreases |es|
  {
    if es != [] {
      var prefix := es[..|es| - 1];
      ReplayOverrides(d, prefix);
      var e := es[|es| - 1];
      var w := Written(prefix);
      var s := Saved(prefix);
      if e.write.Some? {
        assert (d.outputs + w)[e.write.value.0 := e.write.value.1]
            == d.outputs + w[e.write.value.0 := e.write.value.1];
      }
      if e.temp.Some? {
        assert (d.tempFiles + s)[e.temp.value.0 := e.temp.value.1]
            == d.tempFiles + s[e.temp.value.0 := e.temp.value.1];
      }
    }
  }

  /** Running the batch a second time over the same input leaves the disk exactly as the
      first run left it: every file is rewritten with the same contents. */
  lemma RunTwiceIsRunOnce(d: Disk, es: seq<Effect>)
    ensures Replay(Replay(d, es), es) == Replay(d, es)
  {
    var once := Replay(d, es);
    ReplayOverrides(d, es);
    ReplayOverrides(once, es);
    assert (d.outputs + Written(es)) + Written(es) == d.outputs + Written(es);
    assert (d.tempFiles + Saved(es)) + Saved(es) == d.tempFiles + Saved(es);
  }

  /** Fault isolation: the text file written for file `i` survives to the end of the run
      unless a later file writes the same path; how the other files fare does not matter. */
  lemma {:induction false} LastWriteWins(es: seq<Effect>, i: nat)
    requires i < |es| && es[i].write.Some?
    requires forall j :: i < j < |es| ==> es[j].write.None? || es[j].write.value.0 != es[i].write.value.0
    ensures es[i].write.value.0 in Written(es) && Written(es)[es[i].write.value.0] == es[i].write.value.1
    decreases |es|
  {
    var prefix := es[..|es| - 1];
    if i < |es| - 1 {
      assert forall j :: 0 <= j < |prefix| ==> prefix[j] == es[j];
      LastWriteWins(prefix, i);
    }
  }

  /** A path no file writes keeps what it held before the run. */
  lemma {:induction false} UnwrittenUnchanged(es: seq<Effect>, p: Path)
    requires forall j :: 0 <= j < |es| ==> es[j].write.None? || es[j].write.value.0 != p
    ensures p !in Written(es)
    decreases |es|
  {
    if es != [] {
      var prefix := es[..|es| - 1];
      assert forall j :: 0 <= j < |prefix| ==> prefix[j] == es[j];
      UnwrittenUnchanged(prefix, p);
    }
  }

  // ---------------------------------------------------------------------------------------
  // The script's state and its three procedures

  /** The converter: the configured directories, the libraries, and what is on disk. */
  class Pipeline {
    const lib: Library
    const outputRoot: Path
    const tempOcrDir: Path
    var outputs: map<Path, string>
    var tempFiles: map<Path, Bytes>
    var dirs: set<Path>

    function State(): Disk
      reads this
    {
      Disk(outputs, tempFiles, dirs)
    }

    /** Loading the script creates the temp and output directories. */
    constructor (lib: Library, outputRoot: Path, tempOcrDir: Path, disk: Disk)
      ensures this.lib == lib && this.outputRoot == outputRoot && this.tempOcrDir == tempOcrDir
      ensures State() == Disk(disk.outputs, disk.tempFiles, disk.dirs + {tempOcrDir, outputRoot})
    {
      this.lib := lib;
      this.outputRoot := outputRoot;
      this.tempOcrDir := tempOcrDir;
      outputs := disk.outputs;
      tempFiles := disk.tempFiles;
      dirs := disk.dirs + {tempOcrDir, outputRoot};
    }

    /** `ocr_pdf(original, ocr_pdf_path)`: renders, recognises and merges every page in
        order and saves the result; any failure returns false and saves nothing. */
    method OcrPdf(pdf: Bytes, ocrPdfPath: Path) returns (success: bool)
      modifies this
      ensures success <==> OcrOutput(lib, pdf).Ok?
      ensures tempFiles == if success then old(tempFiles)[ocrPdfPath := OcrOutput(lib, pdf).value]
                           else old(tempFiles)
      ensures outputs == old(outputs) && dirs == old(dirs)
    {
      var rendered := lib.render(pdf, OcrDpi);
      if rendered.Fails? {
        return false;
      }
      var images := rendered.value;
      var merged := new MergedPdf();
      var i := 0;
      while i < |images|
        invariant 0 <= i <= |images|
        invariant MergeRecognized(lib, images[..i]) == Ok(merged.pages)
        invariant outputs == old(outputs) && dirs == old(dirs) && tempFiles == old(tempFiles)
      {
        assert images[..i + 1][..i] == images[..i];
        var pdfBytes := lib.recognize(images[i]);
        if pdfBytes.Fails? {
          MergeOkIffEveryPage(lib, images);
          return false;
        }
        var singlePagePdf := lib.open(pdfBytes.value);
        if singlePagePdf.Fails? {
          MergeOkIffEveryPage(lib, images);
          return false;
        }
        merged.InsertPdf(singlePagePdf.value);
        i := i + 1;
      }
      assert images[..i] == images;
      var saved := lib.save(merged.pages);
      if saved.Fails? {
        return false;
      }
      tempFiles := tempFiles[ocrPdfPath := saved.value];
      success := true;
    }

    /** `convert_pdf_to_text(pdf_path, output_path)`: the text is extracted first and only
        then written, replacing any earlier file, to `output_path` with suffix ".txt". A file
        that cannot be opened is left as it was; a write that fails part-way leaves the file
        holding what was written before the failure. */
    method ConvertPdfToText(pdf: Bytes, outputPath: Path)
      requires outputPath != [] && outputPath[|outputPath| - 1] != []
      modifies this
      ensures var path := PathWithSuffix(outputPath, ".txt");
              outputs == match lib.extractText(pdf)
                         case Fails(_) => old(outputs)
                         case Ok(text) =>
                           var stored := lib.writeText(path, text);
                           if stored.OpenFailed? then old(outputs) else old(outputs)[path := Kept(text, stored)]
      ensures tempFiles == old(tempFiles) && dirs == old(dirs)
    {
      var text := lib.extractText(pdf);
      if text.Ok? {
        var path := PathWithSuffix(outputPath, ".txt");
        var stored := lib.writeText(path, text.value);
        if !stored.OpenFailed? {
          outputs := outputs[path := Kept(text.value, stored)];
        }
      }
    }

    /** The body of the `process_pdfs` loop for one file. */
    method ProcessFile(f: SourceFile) returns (route: Route)
      modifies this
      ensures route == FileEffect(lib, outputRoot, tempOcrDir, f).route
      ensures State() == Apply(old(State()), FileEffect(lib, outputRoot, tempOcrDir, f))
    {
      if !IsPdfName(f.name) {
        return NotPdf;
      }
      var outputPath := OutputStem(outputRoot, f);
      dirs := dirs + ParentDirs(outputRoot, f);
      var verdict := ClassifyPdf(lib, f.content, Defaults);
      if verdict.classification == SearchableLabel {
        ConvertPdfToText(f.content, outputPath);
        route := Extraction(lib, f.content, outputPath, {}, None, ExtractedDirect).route;
      } else if verdict.classification == ImageLabel {
        var ocrPdfPath := OcrPath(tempOcrDir, f);
        var success := OcrPdf(f.content, ocrPdfPath);
        if success {
          var saved := tempFiles[ocrPdfPath];
          var reopened := lib.open(saved);
          if reopened.Ok? {
            ConvertPdfToText(saved, outputPath);
            route := Extraction(lib, saved, outputPath, {}, None, ExtractedFromOcr).route;
          } else {
            route := InvalidOcr(reopened.cause);
          }
        } else {
          route := OcrFailed(OcrOutput(lib, f.content).cause);
        }
      } else {
        route := ClassificationFailed(verdict.classification);
      }
    }

    /** `process_pdfs`: every file of the walk, in walk order; returns the route each file
        took (the script prints it). */
    method ProcessPdfs(files: seq<SourceFile>) returns (routes: seq<Route>)
      modifies this
      ensures |routes| == |files|
      ensures forall i :: 0 <= i < |files| ==> routes[i] == FileEffect(lib, outputRoot, tempOcrDir, files[i]).route
      ensures State() == Replay(old(State()), Effects(lib, outputRoot, tempOcrDir, files))
    {
      ghost var es := Effects(lib, outputRoot, tempOcrDir, files);
      ghost var start := State();
      routes := [];
      var i := 0;
      while i < |files|
        invariant 0 <= i <= |files|
        invariant |routes| == i
        invariant routes == RoutesOf(es[..i])
        invariant State() == Replay(start, es[..i])
      {
        ReplayStep(start, es, i);
        RoutesStep(es, i);
        var route := ProcessFile(files[i]);
        routes := routes + [route];
        i := i + 1;
      }
      assert es[..i] == es;
    }
  }
}

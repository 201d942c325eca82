/** The document processor: reading a PDF, a text file or a web article,
    splitting its text into chunks and numbering the chunks as documents;
    choosing the reader from the file extension; validating an upload.
    Reading files, fetching and parsing web pages and splitting text are
    done by libraries, so they arrive here as parameters: the outcome of
    the read (the text, or the exception it raised) and the splitter. */
module DocumentProcessor {
  import opened Outcomes
  import opened Strings
  import opened Paths
  import opened Config
  import opened Documents
  import opened WebText

  /** `RecursiveCharacterTextSplitter.split_text`, left abstract. */
  type Splitter = string -> seq<string>

  /** `process_pdf`: `pages` is the text PyPDF2 extracted from each page, or
      the exception opening or reading the file raised. */
  function ProcessPdf(path: string, pages: Result<seq<string>>, split: Splitter): (docs: seq<Document>)
    ensures pages.Raised? ==> docs == []
    ensures pages.Ok? ==>
      var chunks := split(PdfText(pages.value));
      && |docs| == |chunks|
      && forall i :: 0 <= i < |chunks| ==>
           && docs[i].pageContent == chunks[i]
           && docs[i].metadata == map["source" := Str(path), "page" := Int(i + 1), "type" := Str("pdf")]
  {
    match pages
    case Raised(_) => []
    case Ok(texts) => ChunkDocuments(split(PdfText(texts)), path, Page, "pdf")
  }

  /** `process_text_file`: `contents` is the file read as UTF-8, or the
      exception opening or decoding it raised. */
  function ProcessTextFile(path: string, contents: Result<string>, split: Splitter): (docs: seq<Document>)
    ensures contents.Raised? ==> docs == []
    ensures contents.Ok? ==>
      var chunks := split(contents.value);
      && |docs| == |chunks|
      && forall i :: 0 <= i < |chunks| ==>
           && docs[i].pageContent == chunks[i]
           && docs[i].metadata == map["source" := Str(path), "chunk" := Int(i + 1), "type" := Str("text")]
  {
    match contents
    case Raised(_) => []
    case Ok(text) => ChunkDocuments(split(text), path, Chunk, "text")
  }

  /** `process_web_article`: `pageText` is the text of the fetched page with
      scripts and styles removed, or the exception fetching or parsing
      raised. The splitter sees the cleaned text. */
  function ProcessWebArticle(url: string, pageText: Result<string>, split: Splitter): (docs: seq<Document>)
    ensures pageText.Raised? ==> docs == []
    ensures pageText.Ok? ==>
      var chunks := split(CleanWebText(pageText.value));
      && |docs| == |chunks|
      && forall i :: 0 <= i < |chunks| ==>
           && docs[i].pageContent == chunks[i]
           && docs[i].metadata == map["source" := Str(url), "chunk" := Int(i + 1), "type" := Str("web")]
  {
    match pageText
    case Raised(_) => []
    case Ok(text) => ChunkDocuments(split(CleanWebText(text)), url, Chunk, "web")
  }

  datatype FileKind = PdfFile | TextFile | Unsupported

  /** The branch `process_file` takes for an extension: the comparison
      of the lower-cased extension ignores the case of its letters. */
  function KindOf(ext: string): (kind: FileKind)
    ensures kind == PdfFile <==> CaseVariant(ext, ".pdf")
    ensures kind == TextFile <==> CaseVariant(ext, ".txt") || CaseVariant(ext, ".md")
  {
    var lowered := Lower(ext);
    LowerCaseVariants(ext);
    if lowered == ".pdf" then PdfFile
    else if lowered in [".txt", ".md"] then TextFile
    else Unsupported
  }

  /** The branch `process_file` takes for a path. */
  function Dispatch(path: string): (kind: FileKind)
    ensures kind == PdfFile <==> CaseVariant(Extension(path), ".pdf")
    ensures kind == TextFile <==> CaseVariant(Extension(path), ".txt") || CaseVariant(Extension(path), ".md")
  {
    KindOf(Extension(path))
  }

  lemma LowerCaseVariants(ext: string)
    ensures Lower(ext) == ".pdf" <==> CaseVariant(ext, ".pdf")
    ensures Lower(ext) == ".txt" <==> CaseVariant(ext, ".txt")
    ensures Lower(ext) == ".md" <==> CaseVariant(ext, ".md")
  {
    LowerMatchesCaseVariants(ext, ".pdf");
    LowerMatchesCaseVariants(ext, ".txt");
    LowerMatchesCaseVariants(ext, ".md");
  }

  /** What the file at a path yields when read as a PDF and as text. */
  datatype FileReads = FileReads(pdfPages: Result<seq<string>>, text: Result<string>)

  /** `process_file` */
  function ProcessFile(path: string, files: FileReads, split: Splitter): (docs: seq<Document>)
    ensures Dispatch(path) == PdfFile ==> docs == ProcessPdf(path, files.pdfPages, split)
    ensures Dispatch(path) == TextFile ==> docs == ProcessTextFile(path, files.text, split)
    ensures Dispatch(path) == Unsupported ==> docs == []
  {
    match Dispatch(path)
    case PdfFile => ProcessPdf(path, files.pdfPages, split)
    case TextFile => ProcessTextFile(path, files.text, split)
    case Unsupported => []
  }

  /** `validate_file`: the file exists, its lower-cased extension is one of
      the supported ones and it is at most 50 MB. The source divides the size
      by 1024 * 1024 and compares with 50; that division by a power of two is
      exact, so it is modelled with exact (real) division. */
  function ValidateFile(present: bool, path: string, sizeBytes: nat): (ok: bool)
    ensures ok <==> present && Lower(Extension(path)) in SupportedExtensions && sizeBytes <= MaxFileSizeMb * BytesPerMb
  {
    if !present then false
    else if Lower(Extension(path)) !in SupportedExtensions then false
    else if (sizeBytes as real) / (BytesPerMb as real) > MaxFileSizeMb as real then false
    else true
  }

  /** The size limit is inclusive: a file of exactly 50 MB is judged like an
      empty one, and one byte more is always rejected. */
  lemma SizeLimitIsInclusive(present: bool, path: string)
    ensures ValidateFile(present, path, 52428800) == ValidateFile(present, path, 0)
    ensures !ValidateFile(present, path, 52428801)
  {
  }

  /** A name `n.ext` with a one-letter stem has extension `.ext`. */
  lemma ExtensionOfSimpleName(p: string)
    requires |p| >= 2 && p[0] != '.' && p[0] != '/' && p[1] == '.'
    requires forall k :: 2 <= k < |p| ==> p[k] != '.' && p[k] != '/'
    ensures Extension(p) == p[1..]
  {
    assert DotAfterName(p, 0, 1);
    ExtensionNonEmptyIff(p);
    var i := ExtensionStart(p);
    assert Extension(p) == p[i..];
    assert i == 1;
  }

  /** A file that yields documents has a supported extension. */
  lemma ProcessedFileHasSupportedExtension(path: string, files: FileReads, split: Splitter)
    ensures ProcessFile(path, files, split) != [] ==> Lower(Extension(path)) in SupportedExtensions
  {
  }

  /** Validation does not promise processing: every ".docx" file within the
      size limit passes `validate_file`, but `process_file` has no reader
      for it. */
  lemma DocxValidatesButYieldsNothing(path: string, sizeBytes: nat, files: FileReads, split: Splitter)
    requires Lower(Extension(path)) == ".docx" && sizeBytes <= MaxFileSizeMb * BytesPerMb
    ensures ValidateFile(true, path, sizeBytes)
    ensures ProcessFile(path, files, split) == []
  {
    LowerCaseVariants(Extension(path));
  }
}

/** LangChain `Document` records as the processors build them, and the
    numbering of splitter chunks into documents. */
module Documents {
  import opened Seqs

  /** A metadata value: the source puts strings and integers in metadata. */
  datatype MetaValue = Str(text: string) | Int(number: int)

  type Metadata = map<string, MetaValue>

  datatype Document = Document(pageContent: string, metadata: Metadata)

  /** The metadata key holding a chunk's 1-based position: PDFs use "page",
      text files and web articles use "chunk". */
  datatype IndexKey = Page | Chunk {
    function Name(): (key: string)
      ensures key != "source" && key != "type"
    {
      match this
      case Page => "page"
      case Chunk => "chunk"
    }
  }

  /** The metadata dictionary `{"source": ..., <key>: n, "type": ...}`. */
  function ChunkMetadata(source: string, key: IndexKey, n: int, kind: string): Metadata {
    map["source" := Str(source), key.Name() := Int(n), "type" := Str(kind)]
  }

  /** `for i, chunk in enumerate(chunks): documents.append(Document(...))`:
      the i-th chunk becomes the i-th document, numbered i + 1 and tagged
      with the source and the type. */
  function ChunkDocuments(chunks: seq<string>, source: string, key: IndexKey, kind: string): (docs: seq<Document>)
    ensures |docs| == |chunks|
    ensures forall i :: 0 <= i < |chunks| ==> docs[i].pageContent == chunks[i]
    ensures forall i :: 0 <= i < |chunks| ==> docs[i].metadata == ChunkMetadata(source, key, i + 1, kind)
    ensures forall i :: 0 <= i < |chunks| ==>
      && docs[i].metadata.Keys == {"source", key.Name(), "type"}
      && docs[i].metadata["source"] == Str(source)
      && docs[i].metadata[key.Name()] == Int(i + 1)
      && docs[i].metadata["type"] == Str(kind)
    decreases |chunks|
  {
    if |chunks| == 0 then []
    else
      var n := |chunks|;
      ChunkDocuments(chunks[..n - 1], source, key, kind)
        + [Document(chunks[n - 1], ChunkMetadata(source, key, n, kind))]
  }

  /** The text a PDF hands to the splitter: each page's extracted text
      followed by a newline, accumulated page by page. */
  function PdfText(pages: seq<string>): (text: string)
    ensures |text| == |Concat(pages)| + |pages|
    ensures pages != [] ==> text[|text| - 1] == '\n'
    decreases |pages|
  {
    if |pages| == 0 then []
    else
      var n := |pages|;
      assert pages == pages[..n - 1] + [pages[n - 1]];
      ConcatAppend(pages[..n - 1], [pages[n - 1]]);
      PdfText(pages[..n - 1]) + pages[n - 1] + "\n"
  }

  /** Position in `PdfText(pages)` where page `k` begins. */
  function PageOffset(pages: seq<string>, k: nat): nat
    requires k <= |pages|
  {
    |PdfText(pages[..k])|
  }

  /** The text of the first `k` pages is a prefix of the text of all pages. */
  lemma {:induction false} PdfTextPrefix(pages: seq<string>, k: nat)
    requires k <= |pages|
    ensures |PdfText(pages[..k])| <= |PdfText(pages)|
    ensures PdfText(pages)[..|PdfText(pages[..k])|] == PdfText(pages[..k])
    decreases |pages| - k
  {
    if k < |pages| {
      PdfTextPrefix(pages, k + 1);
      var n := |pages|;
      assert pages[..k + 1][..k] == pages[..k];
      var shorter := PdfText(pages[..k]);
      var longer := PdfText(pages[..k + 1]);
      assert longer == shorter + pages[k] + "\n";
      assert longer[..|shorter|] == shorter;
    } else {
      assert pages[..k] == pages;
    }
  }

  /** Page `k` appears in `PdfText(pages)` at its offset, in page order, and
      is followed by a newline. */
  lemma PdfTextHoldsPage(pages: seq<string>, k: nat)
    requires k < |pages|
    ensures PageOffset(pages, k) + |pages[k]| < |PdfText(pages)|
    ensures PdfText(pages)[PageOffset(pages, k)..PageOffset(pages, k) + |pages[k]|] == pages[k]
    ensures PdfText(pages)[PageOffset(pages, k) + |pages[k]|] == '\n'
    ensures k + 1 < |pages| ==> PageOffset(pages, k + 1) == PageOffset(pages, k) + |pages[k]| + 1
  {
    PdfTextPrefix(pages, k + 1);
    assert pages[..k + 1][..k] == pages[..k];
    var before := PdfText(pages[..k]);
    var upto := PdfText(pages[..k + 1]);
    assert upto == before + pages[k] + "\n";
    var all := PdfText(pages);
    assert all[..|upto|] == upto;
    assert all[|before|..|before| + |pages[k]|] == upto[|before|..|before| + |pages[k]|];
    assert all[|before| + |pages[k]|] == upto[|before| + |pages[k]|];
  }
}

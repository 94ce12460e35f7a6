/** PDF ingestion (`pdf_handler.py`) and the vector collection it feeds
    (`vectordb_handler.py`). The PDF decoder and the text splitter are
    parameters; the collection is the sequence of documents it holds. */
module Ingestion {
  import opened Wrappers
  import Strings
  import Base64

  type Bytes = seq<Base64.Byte>

  /** LangChain's `Document(page_content=…)`. */
  datatype Document = Document(pageContent: string)

  /** What the PDF library yields for a file: the text of each page in page
      order, or an exception somewhere while opening or reading it. */
  datatype Decoded = Unreadable | Pages(pages: seq<string>)

  // ---------------------------------------------------------------------------
  // extract_text_from_pdf, get_pdf_texts

  /** `extract_text_from_pdf`: the page texts joined by newlines, or the empty
      string when the library raises. */
  function ExtractTextFromPdf(decode: Bytes -> Decoded, pdf: Bytes): (r: string)
    ensures decode(pdf).Unreadable? ==> r == ""
    ensures decode(pdf).Pages? && |decode(pdf).pages| == 0 ==> r == ""
    ensures decode(pdf).Pages? && |decode(pdf).pages| == 1 ==> r == decode(pdf).pages[0]
  {
    match decode(pdf)
    case Unreadable => ""
    case Pages(pages) => Strings.Join(pages, "\n")
  }

  /** When no page text holds a newline, splitting the extracted text on
      newlines recovers the pages, in page order. */
  lemma ExtractedPagesRecoverable(decode: Bytes -> Decoded, pdf: Bytes)
    requires decode(pdf).Pages? && |decode(pdf).pages| >= 1
    requires forall k, j :: 0 <= k < |decode(pdf).pages| && 0 <= j < |decode(pdf).pages[k]| ==>
      decode(pdf).pages[k][j] != '\n'
    ensures Strings.Split(ExtractTextFromPdf(decode, pdf), '\n') == decode(pdf).pages
  {
    Strings.SplitJoin(decode(pdf).pages, '\n');
  }

  /** Whatever the pages hold, page `k` occurs in the extracted text right
      after the earlier pages and their newlines. */
  lemma ExtractedPageAt(decode: Bytes -> Decoded, pdf: Bytes, k: nat)
    requires decode(pdf).Pages? && k < |decode(pdf).pages|
    ensures Strings.OccursAt(ExtractTextFromPdf(decode, pdf), decode(pdf).pages[k], Strings.JoinOffset(decode(pdf).pages, "\n", k))
  {
    Strings.JoinPartAt(decode(pdf).pages, "\n", k);
  }

  /** `get_pdf_texts`: one text per file, in input order. */
  function GetPdfTexts(decode: Bytes -> Decoded, pdfs: seq<Bytes>): (r: seq<string>)
    ensures |r| == |pdfs|
    ensures forall i :: 0 <= i < |pdfs| ==> r[i] == ExtractTextFromPdf(decode, pdfs[i])
  {
    seq(|pdfs|, i requires 0 <= i < |pdfs| => ExtractTextFromPdf(decode, pdfs[i]))
  }

  lemma GetPdfTextsAppend(decode: Bytes -> Decoded, a: seq<Bytes>, b: seq<Bytes>)
    ensures GetPdfTexts(decode, a + b) == GetPdfTexts(decode, a) + GetPdfTexts(decode, b)
  {
  }

  // ---------------------------------------------------------------------------
  // get_document_chunks

  /** One document per chunk of one text. */
  function DocumentsOf(chunks: seq<string>): (r: seq<Document>)
    ensures |r| == |chunks| && forall i :: 0 <= i < |chunks| ==> r[i].pageContent == chunks[i]
  {
    seq(|chunks|, i requires 0 <= i < |chunks| => Document(chunks[i]))
  }

  /** The documents of every text, text after text, chunk after chunk. */
  function Chunks(split: string -> seq<string>, texts: seq<string>): seq<Document> {
    if |texts| == 0 then [] else DocumentsOf(split(texts[0])) + Chunks(split, texts[1..])
  }

  /** The number of chunks the splitter makes of all the texts. */
  function ChunkCount(split: string -> seq<string>, texts: seq<string>): nat {
    if |texts| == 0 then 0 else |split(texts[0])| + ChunkCount(split, texts[1..])
  }

  lemma {:induction false} ChunksAppend(split: string -> seq<string>, a: seq<string>, b: seq<string>)
    ensures Chunks(split, a + b) == Chunks(split, a) + Chunks(split, b)
  {
    if |a| > 0 {
      assert (a + b)[1..] == a[1..] + b;
      ChunksAppend(split, a[1..], b);
    } else {
      assert a + b == b;
    }
  }

  /** There is one document per chunk, so none for no texts. */
  lemma {:induction false} ChunksLength(split: string -> seq<string>, texts: seq<string>)
    ensures |Chunks(split, texts)| == ChunkCount(split, texts)
    ensures |texts| == 0 ==> Chunks(split, texts) == []
  {
    if |texts| > 0 {
      ChunksLength(split, texts[1..]);
    }
  }

  /** The chunks of text `i` sit in the output after those of texts `0..i`. */
  lemma {:induction false} ChunkPosition(split: string -> seq<string>, texts: seq<string>, i: nat, j: nat)
    requires i < |texts| && j < |split(texts[i])|
    ensures ChunkCount(split, texts[..i]) + j < |Chunks(split, texts)|
    ensures Chunks(split, texts)[ChunkCount(split, texts[..i]) + j] == Document(split(texts[i])[j])
  {
    var own, after := DocumentsOf(split(texts[0])), Chunks(split, texts[1..]);
    assert Chunks(split, texts) == own + after;
    if i == 0 {
      assert ChunkCount(split, texts[..0]) == 0;
    } else {
      ChunkPosition(split, texts[1..], i - 1, j);
      assert texts[1..][..i - 1] == texts[..i][1..];
      assert ChunkCount(split, texts[..i]) == |own| + ChunkCount(split, texts[1..][..i - 1]);
    }
  }

  /** `get_document_chunks`: the nested loop appending one document per chunk. */
  method GetDocumentChunks(split: string -> seq<string>, texts: seq<string>) returns (documents: seq<Document>)
    ensures documents == Chunks(split, texts)
  {
    documents := [];
    for i := 0 to |texts|
      invariant documents == Chunks(split, texts[..i])
    {
      var chunks := split(texts[i]);
      for j := 0 to |chunks|
        invariant documents == Chunks(split, texts[..i]) + DocumentsOf(chunks[..j])
      {
        assert DocumentsOf(chunks[..j + 1]) == DocumentsOf(chunks[..j]) + [Document(chunks[j])];
        documents := documents + [Document(chunks[j])];
      }
      assert chunks[..|chunks|] == chunks;
      assert texts[..i + 1] == texts[..i] + [texts[i]];
      ChunksAppend(split, texts[..i], [texts[i]]);
      assert Chunks(split, [texts[i]]) == DocumentsOf(chunks) + Chunks(split, []);
    }
    assert texts[..|texts|] == texts;
  }

  // ---------------------------------------------------------------------------
  // The Chroma collection

  /** How `load_vectordb` ends. `dropped`: `delete_existing_collection`
      removed the collection, or there was none, so none is left; it is false
      when the delete raised (its handler swallows every exception) or when a
      step before it raised. `loaded`: the `Chroma` instance was returned; it
      is false when creating the directory, the client or the `Chroma`
      instance raised. */
  datatype LoadOutcome = LoadOutcome(dropped: bool, loaded: bool)

  /** The collection left by the reload: empty when the old one was dropped,
      the old one otherwise. */
  function Reloaded(before: seq<Document>, load: LoadOutcome): seq<Document> {
    if load.dropped then [] else before
  }

  /** The persistent collection, as the documents it holds in insertion order. */
  class VectorStore {
    var documents: seq<Document>

    constructor ()
      ensures documents == []
    {
      documents := [];
    }

    /** `load_vectordb`: the existing collection is deleted, unless the delete
        raises, which is swallowed and leaves it in place; then a collection of
        the same name is opened. `loaded` is false when the call raises. */
    method LoadVectorDb(load: LoadOutcome) returns (loaded: bool)
      modifies this
      ensures load.dropped ==> documents == []
      ensures !load.dropped ==> documents == old(documents)
      ensures loaded == load.loaded
    {
      if load.dropped {
        documents := [];
      }
      loaded := load.loaded;
    }

    /** `add_documents`: embedding and storage either succeed for the whole
        batch or raise. */
    method AddDocuments(batch: seq<Document>, embedOk: bool)
      modifies this
      ensures documents == if embedOk then old(documents) + batch else old(documents)
    {
      if embedOk {
        documents := documents + batch;
      }
    }
  }

  /** The outcomes of one `add_documents_to_db`: how the reload ends and
      whether `add_documents` succeeds. */
  datatype AddOutcome = AddOutcome(load: LoadOutcome, embedded: bool)

  /** The batch is stored: the reload returned a collection and the add did
      not raise. */
  predicate Stores(o: AddOutcome) {
    o.load.loaded && o.embedded
  }

  /** The collection a batch leaves when the reload dropped the old one:
      exactly this batch's chunks when they were stored, nothing otherwise. */
  function BatchCollection(decode: Bytes -> Decoded, split: string -> seq<string>, pdfs: seq<Bytes>, stored: bool): (r: seq<Document>)
    ensures |r| == if stored then ChunkCount(split, GetPdfTexts(decode, pdfs)) else 0
  {
    ChunksLength(split, GetPdfTexts(decode, pdfs));
    if stored then Chunks(split, GetPdfTexts(decode, pdfs)) else []
  }

  /** What `add_documents_to_db` is handed for one PDF: an uploaded file, whose
      `.read()` yields its bytes, or a bare `bytes` value, which has no
      `.read()`, so reading it raises. */
  datatype PdfSource = UploadedFile(data: Bytes) | RawBytes(data: Bytes)

  /** Line 90, `[pdf.read() for pdf in pdfs]`: the bytes of every file, or
      `None` when one item cannot be read. */
  function {:induction false} ReadAll(pdfs: seq<PdfSource>): (r: Option<seq<Bytes>>)
    ensures r.Some? <==> forall i :: 0 <= i < |pdfs| ==> pdfs[i].UploadedFile?
    ensures r.Some? ==> |r.value| == |pdfs| && forall i :: 0 <= i < |pdfs| ==> r.value[i] == pdfs[i].data
  {
    if |pdfs| == 0 then Some([])
    else if pdfs[0].RawBytes? then None
    else match ReadAll(pdfs[1..])
      case None => None
      case Some(rest) => Some([pdfs[0].data] + rest)
  }

  /** Streamlit's uploaded files for the given contents. */
  function Uploads(contents: seq<Bytes>): seq<PdfSource> {
    seq(|contents|, i requires 0 <= i < |contents| => UploadedFile(contents[i]))
  }

  lemma ReadUploads(contents: seq<Bytes>)
    ensures ReadAll(Uploads(contents)) == Some(contents)
  {
    var r := ReadAll(Uploads(contents));
    assert r.Some?;
    assert r.value == contents;
  }

  /** The collection after `add_documents_to_db(pdfs)` when it held `before`:
      an item that cannot be read raises before the collection is loaded, and
      the handler leaves it as it was; otherwise the batch's chunks, if
      stored, follow what the reload left. */
  function AfterAdd(decode: Bytes -> Decoded, split: string -> seq<string>, before: seq<Document>,
                    pdfs: seq<PdfSource>, outcome: AddOutcome): seq<Document> {
    match ReadAll(pdfs)
    case None => before
    case Some(contents) => Reloaded(before, outcome.load) + BatchCollection(decode, split, contents, Stores(outcome))
  }

  /** `add_documents_to_db`: read, extract, chunk, reload the collection and
      add. Every failure is caught, so the method has no error result. */
  method AddDocumentsToDb(db: VectorStore, decode: Bytes -> Decoded, split: string -> seq<string>,
                          pdfs: seq<PdfSource>, outcome: AddOutcome)
    modifies db
    ensures ReadAll(pdfs).None? ==> db.documents == old(db.documents)
    ensures ReadAll(pdfs).Some? && outcome.load.dropped ==>
      db.documents == BatchCollection(decode, split, ReadAll(pdfs).value, Stores(outcome))
    ensures ReadAll(pdfs).Some? && !outcome.load.dropped ==>
      db.documents == old(db.documents) + BatchCollection(decode, split, ReadAll(pdfs).value, Stores(outcome))
  {
    var contents := ReadAll(pdfs);
    if contents.None? {
      return;
    }
    var texts := GetPdfTexts(decode, contents.value);
    var documents := GetDocumentChunks(split, texts);
    var loaded := db.LoadVectorDb(outcome.load);
    if loaded {
      db.AddDocuments(documents, outcome.embedded);
    }
  }

  /** A bare `bytes` item anywhere in the batch leaves the collection as it was. */
  lemma RawBytesChangeNothing(decode: Bytes -> Decoded, split: string -> seq<string>, before: seq<Document>,
                              pdfs: seq<PdfSource>, outcome: AddOutcome, i: nat)
    requires i < |pdfs| && pdfs[i].RawBytes?
    ensures AfterAdd(decode, split, before, pdfs, outcome) == before
  {
  }

  /** When the reload drops the collection, uploaded files replace whatever it
      held: the result does not depend on what was stored before, so adding a
      batch twice leaves the collection as after adding it once. */
  lemma BatchCollectionRepeat(decode: Bytes -> Decoded, split: string -> seq<string>, before: seq<Document>,
                              contents: seq<Bytes>, outcome: AddOutcome)
    ensures outcome.load.dropped ==>
      AfterAdd(decode, split, before, Uploads(contents), outcome) == BatchCollection(decode, split, contents, Stores(outcome))
    ensures outcome.load.dropped ==>
      var once := AfterAdd(decode, split, before, Uploads(contents), outcome);
      AfterAdd(decode, split, once, Uploads(contents), outcome) == once
  {
    ReadUploads(contents);
    assert Reloaded(before, outcome.load) == [] <== outcome.load.dropped;
  }

  /** When the delete raises and is swallowed, the documents already stored
      stay, in order, and the uploaded batch's chunks, if stored, follow them. */
  lemma UploadAfterFailedDelete(decode: Bytes -> Decoded, split: string -> seq<string>, before: seq<Document>,
                                contents: seq<Bytes>, outcome: AddOutcome)
    requires !outcome.load.dropped
    ensures var after := AfterAdd(decode, split, before, Uploads(contents), outcome);
      |before| <= |after| && after[..|before|] == before
      && after[|before|..] == BatchCollection(decode, split, contents, Stores(outcome))
  {
    ReadUploads(contents);
    var after := AfterAdd(decode, split, before, Uploads(contents), outcome);
    assert after == before + BatchCollection(decode, split, contents, Stores(outcome));
  }

  // ---------------------------------------------------------------------------
  // process_pdf_folder

  /** A directory entry: its name and its content, `None` when opening or
      reading it raises. */
  datatype FileEntry = FileEntry(name: string, content: Option<Bytes>)

  const PdfSuffix: string := ".pdf"

  predicate IsPdfName(name: string) {
    Strings.EndsWith(name, PdfSuffix)
  }

  predicate IsPdfEntry(e: FileEntry) {
    IsPdfName(e.name)
  }

  /** The collection and the number of `add_documents_to_db` calls so far. */
  datatype FolderState = FolderState(documents: seq<Document>, calls: nat)

  /** The item the loop hands to `add_documents_to_db` for a file it read:
      line 122 passes the bare bytes; `fileLike` instead wraps them in an
      object with `.read()`, as the uploader's files are. */
  function FolderItem(fileLike: bool, bytes: Bytes): PdfSource {
    if fileLike then UploadedFile(bytes) else RawBytes(bytes)
  }

  /** The loop of `process_pdf_folder` over the remaining entries: other names
      are skipped, a readable PDF is passed on its own to `add_documents_to_db`,
      and an unreadable one ends the loop (the outer handler catches the
      exception). The outcome of the n-th add is `outcome(n)`. */
  function FolderRun(decode: Bytes -> Decoded, split: string -> seq<string>, outcome: nat -> AddOutcome, fileLike: bool,
                     entries: seq<FileEntry>, s: FolderState): FolderState
  {
    if |entries| == 0 then s
    else if !IsPdfName(entries[0].name) then FolderRun(decode, split, outcome, fileLike, entries[1..], s)
    else match entries[0].content
      case None => s
      case Some(bytes) =>
        FolderRun(decode, split, outcome, fileLike, entries[1..],
                  FolderState(AfterAdd(decode, split, s.documents, [FolderItem(fileLike, bytes)], outcome(s.calls)), s.calls + 1))
  }

  /** The PDF contents the loop reaches: every readable PDF before the first
      unreadable one, in listing order. */
  function ProcessedPdfs(entries: seq<FileEntry>): seq<Bytes> {
    if |entries| == 0 then []
    else if !IsPdfName(entries[0].name) then ProcessedPdfs(entries[1..])
    else match entries[0].content
      case None => []
      case Some(bytes) => [bytes] + ProcessedPdfs(entries[1..])
  }

  /** Only PDF names are processed, each exactly once and in listing order:
      when every file is readable, the processed contents are those of the
      PDF entries. */
  lemma {:induction false} AllReadableAllProcessed(entries: seq<FileEntry>)
    requires forall i :: 0 <= i < |entries| ==> entries[i].content.Some?
    ensures |ProcessedPdfs(entries)| == |Filter(entries, IsPdfEntry)|
    ensures forall i :: 0 <= i < |ProcessedPdfs(entries)| ==>
      Some(ProcessedPdfs(entries)[i]) == Filter(entries, IsPdfEntry)[i].content
  {
    if |entries| > 0 {
      AllReadableAllProcessed(entries[1..]);
    }
  }

  /** `processed` holds the contents of the first entries of `pdfs`, one each,
      and the entry after them, if any, could not be read. */
  predicate WalkedInOrder(pdfs: seq<FileEntry>, processed: seq<Bytes>) {
    |processed| <= |pdfs|
    && (forall i :: 0 <= i < |processed| ==> pdfs[i].content == Some(processed[i]))
    && (|processed| < |pdfs| ==> pdfs[|processed|].content.None?)
  }

  lemma WalkedStep(e: FileEntry, pdfs: seq<FileEntry>, processed: seq<Bytes>)
    requires e.content.Some? && WalkedInOrder(pdfs, processed)
    ensures WalkedInOrder([e] + pdfs, [e.content.value] + processed)
  {
    var f, p := [e] + pdfs, [e.content.value] + processed;
    forall i | 0 <= i < |p| ensures f[i].content == Some(p[i]) {
      if i > 0 { assert f[i] == pdfs[i - 1] && p[i] == processed[i - 1]; }
    }
  }

  /** The loop walks the PDF entries in listing order: what it reaches are the
      contents of the first PDF entries, one each, and when it stops before the
      last PDF entry it is because that entry could not be read. */
  lemma {:induction false} ProcessedOnlyPdfs(entries: seq<FileEntry>)
    ensures |ProcessedPdfs(entries)| <= |Filter(entries, IsPdfEntry)|
    ensures forall i :: 0 <= i < |ProcessedPdfs(entries)| ==>
      Filter(entries, IsPdfEntry)[i].content == Some(ProcessedPdfs(entries)[i])
    ensures |ProcessedPdfs(entries)| < |Filter(entries, IsPdfEntry)| ==>
      Filter(entries, IsPdfEntry)[|ProcessedPdfs(entries)|].content.None?
  {
    var f, p := Filter(entries, IsPdfEntry), ProcessedPdfs(entries);
    if |entries| > 0 {
      var e, rest := entries[0], entries[1..];
      ProcessedOnlyPdfs(rest);
      var f1, p1 := Filter(rest, IsPdfEntry), ProcessedPdfs(rest);
      assert WalkedInOrder(f1, p1);
      if !IsPdfEntry(e) {
        assert f == f1 && p == p1;
      } else if e.content.None? {
        assert p == [] && f[0] == e;
      } else {
        assert f == [e] + f1 && p == [e.content.value] + p1;
        WalkedStep(e, f1, p1);
      }
    }
    assert WalkedInOrder(f, p);
  }

  /** As written, every add is handed bare bytes and raises at `.read()`
      before the collection is loaded: the folder run makes one call per
      processed PDF and never changes the collection. */
  lemma {:induction false} FolderRunAsWrittenKeepsCollection(decode: Bytes -> Decoded, split: string -> seq<string>,
                                                             outcome: nat -> AddOutcome, entries: seq<FileEntry>, s: FolderState)
    ensures FolderRun(decode, split, outcome, false, entries, s) == FolderState(s.documents, s.calls + |ProcessedPdfs(entries)|)
  {
    if |entries| > 0 && IsPdfName(entries[0].name) && entries[0].content.Some? {
      var bytes := entries[0].content.value;
      RawBytesChangeNothing(decode, split, s.documents, [RawBytes(bytes)], outcome(s.calls), 0);
      FolderRunAsWrittenKeepsCollection(decode, split, outcome, entries[1..], FolderState(s.documents, s.calls + 1));
      assert ProcessedPdfs(entries) == [bytes] + ProcessedPdfs(entries[1..]);
    } else if |entries| > 0 && !IsPdfName(entries[0].name) {
      FolderRunAsWrittenKeepsCollection(decode, split, outcome, entries[1..], s);
    }
  }

  /** A concrete folder: one readable "a.pdf" leaves any collection as it was. */
  lemma OneReadablePdfAddsNothing(decode: Bytes -> Decoded, split: string -> seq<string>, outcome: nat -> AddOutcome,
                                  pdf: Bytes, collection: seq<Document>)
    ensures FolderRun(decode, split, outcome, false, [FileEntry("a.pdf", Some(pdf))], FolderState(collection, 0))
         == FolderState(collection, 1)
  {
    assert IsPdfName("a.pdf") by { assert "a.pdf"[|"a.pdf"| - |PdfSuffix|..] == PdfSuffix; }
    FolderRunAsWrittenKeepsCollection(decode, split, outcome, [FileEntry("a.pdf", Some(pdf))], FolderState(collection, 0));
  }

  /** Every reload of the run drops the collection. */
  ghost predicate AlwaysDrops(outcome: nat -> AddOutcome) {
    forall n :: outcome(n).load.dropped
  }

  /** With file-like items, when every reload drops the collection, the
      folder run makes one call per processed PDF and leaves only the last
      processed file's chunks (nothing, if they were not stored); with no PDF
      processed the collection is untouched. */
  lemma {:induction false} OnlyLastFileRemains(decode: Bytes -> Decoded, split: string -> seq<string>, outcome: nat -> AddOutcome,
                                               entries: seq<FileEntry>, s: FolderState)
    requires AlwaysDrops(outcome)
    ensures var ps := ProcessedPdfs(entries);
      var r := FolderRun(decode, split, outcome, true, entries, s);
      r.calls == s.calls + |ps|
      && r.documents == (if |ps| == 0 then s.documents
                         else BatchCollection(decode, split, [ps[|ps| - 1]], Stores(outcome(s.calls + |ps| - 1))))
  {
    if |entries| > 0 && IsPdfName(entries[0].name) && entries[0].content.Some? {
      var bytes := entries[0].content.value;
      var s1 := FolderState(BatchCollection(decode, split, [bytes], Stores(outcome(s.calls))), s.calls + 1);
      OnlyLastFileRemains(decode, split, outcome, entries[1..], s1);
      OnlyLastFileStep(decode, split, outcome, entries, s);
    } else if |entries| > 0 && !IsPdfName(entries[0].name) {
      OnlyLastFileRemains(decode, split, outcome, entries[1..], s);
    }
  }

  /** The readable-PDF step of `OnlyLastFileRemains`: what holds for the rest
      of the listing, from the state the first add leaves, holds for the whole. */
  lemma OnlyLastFileStep(decode: Bytes -> Decoded, split: string -> seq<string>, outcome: nat -> AddOutcome,
                         entries: seq<FileEntry>, s: FolderState)
    requires AlwaysDrops(outcome)
    requires |entries| > 0 && IsPdfName(entries[0].name) && entries[0].content.Some?
    requires var bytes, ps1 := entries[0].content.value, ProcessedPdfs(entries[1..]);
      var s1 := FolderState(BatchCollection(decode, split, [bytes], Stores(outcome(s.calls))), s.calls + 1);
      var r := FolderRun(decode, split, outcome, true, entries[1..], s1);
      r.calls == s1.calls + |ps1|
      && r.documents == (if |ps1| == 0 then s1.documents
                         else BatchCollection(decode, split, [ps1[|ps1| - 1]], Stores(outcome(s1.calls + |ps1| - 1))))
    ensures var ps := ProcessedPdfs(entries);
      var r := FolderRun(decode, split, outcome, true, entries, s);
      r.calls == s.calls + |ps|
      && r.documents == BatchCollection(decode, split, [ps[|ps| - 1]], Stores(outcome(s.calls + |ps| - 1)))
  {
    var bytes, ps1 := entries[0].content.value, ProcessedPdfs(entries[1..]);
    var added := BatchCollection(decode, split, [bytes], Stores(outcome(s.calls)));
    var s1 := FolderState(added, s.calls + 1);
    assert ProcessedPdfs(entries) == [bytes] + ps1;
    FolderRunReadablePdf(decode, split, outcome, entries, s);
    assert outcome(s.calls).load.dropped;
    assert FolderState(Reloaded(s.documents, outcome(s.calls).load) + added, s.calls + 1) == s1;
    assert FolderRun(decode, split, outcome, true, entries, s) == FolderRun(decode, split, outcome, true, entries[1..], s1);
    if |ps1| > 0 {
      assert ([bytes] + ps1)[|ps1|] == ps1[|ps1| - 1];
    }
  }

  /** With file-like items, a readable PDF entry is added on its own: the
      loop goes on with the next entry from what the reload left, followed by
      the entry's chunks if they were stored. */
  lemma FolderRunReadablePdf(decode: Bytes -> Decoded, split: string -> seq<string>, outcome: nat -> AddOutcome,
                              entries: seq<FileEntry>, s: FolderState)
    requires |entries| > 0 && IsPdfName(entries[0].name) && entries[0].content.Some?
    ensures var o := outcome(s.calls);
      FolderRun(decode, split, outcome, true, entries, s)
      == FolderRun(decode, split, outcome, true, entries[1..],
           FolderState(Reloaded(s.documents, o.load) + BatchCollection(decode, split, [entries[0].content.value], Stores(o)),
                       s.calls + 1))
  {
    ReadUploads([entries[0].content.value]);
    assert Uploads([entries[0].content.value]) == [UploadedFile(entries[0].content.value)];
  }

  /** `process_pdf_folder`: `listing` is `None` when listing the folder raises.
      `fileLike` is false for the code as written (line 122 passes bare bytes),
      in which case the collection never changes. */
  method ProcessPdfFolder(db: VectorStore, decode: Bytes -> Decoded, split: string -> seq<string>,
                          outcome: nat -> AddOutcome, fileLike: bool, listing: Option<seq<FileEntry>>)
    modifies db
    ensures listing.None? ==> db.documents == old(db.documents)
    ensures listing.Some? ==>
      db.documents == FolderRun(decode, split, outcome, fileLike, listing.value, FolderState(old(db.documents), 0)).documents
    ensures !fileLike ==> db.documents == old(db.documents)
  {
    if listing.None? {
      return;
    }
    var entries := listing.value;
    ghost var d0 := db.documents;
    var calls := 0;
    var i := 0;
    while i < |entries|
      invariant 0 <= i <= |entries|
      invariant FolderRun(decode, split, outcome, fileLike, entries[i..], FolderState(db.documents, calls))
             == FolderRun(decode, split, outcome, fileLike, entries, FolderState(d0, 0))
    {
      var entry := entries[i];
      assert entries[i..][1..] == entries[i + 1..];
      if IsPdfName(entry.name) {
        if entry.content.None? {
          break;
        }
        ghost var before := db.documents;
        AddDocumentsToDb(db, decode, split, [FolderItem(fileLike, entry.content.value)], outcome(calls));
        assert db.documents == AfterAdd(decode, split, before, [FolderItem(fileLike, entry.content.value)], outcome(calls));
        calls := calls + 1;
      }
      i := i + 1;
    }
    FolderRunAsWrittenKeepsCollection(decode, split, outcome, entries, FolderState(d0, 0));
  }
}

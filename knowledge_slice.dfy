/** The knowledge-base store of the web client (frontend/store/knowledgeSlice.ts):
    the documents loaded so far, the selection, the paging counters and the
    loading and error flags. Each reducer is a method of `KnowledgeStore`
    that assigns the fields it names; the thunks' network calls are left to
    their callers, which pass in the payloads. */
module KnowledgeSlice {
  import opened Base
  import VdbCollection
  import Canister

  /** A document as the client shows it. `createdAt` is the time value, in
      milliseconds, of the `Date` the client builds. */
  datatype Document = Document(filename: string, title: string, docType: string, size: nat, createdAt: int)

  datatype KnowledgeState = KnowledgeState(
    documents: seq<Document>,
    selectedDocumentId: Option<string>,
    isLoading: bool,
    error: Option<string>,
    hasMore: bool,
    totalDocuments: int,
    currentPage: int,
    pageSize: int)

  const INITIAL_STATE := KnowledgeState([], None, false, None, true, 0, 1, 10)

  /** The largest time value a JavaScript `Date` holds, in milliseconds
      from the epoch (TimeClip, section 21.4.1.31 of ECMA-262); outside
      `[-MAX_TIME_MS, MAX_TIME_MS]` a `Date` is "Invalid Date". */
  const MAX_TIME_MS: int := 8_640_000_000_000_000

  predicate IsValidTime(t: int)
  {
    -MAX_TIME_MS <= t <= MAX_TIME_MS
  }

  /** `ic_cdk::api::time()` counts nanoseconds. */
  const NANOS_PER_MILLI: nat := 1_000_000

  /** The time the client computes, as written: `Number(created_at) * 1000`,
      which reads the canister's nanoseconds as seconds. */
  function TimeAsWritten(createdAt: u64): int
  {
    createdAt * 1000
  }

  /** As written, every creation time later than 2.4 hours after the epoch
      gives an invalid date; a time of November 2023 does, while the
      intended conversion gives that instant in milliseconds. */
  lemma TimeAsWrittenInvalid(createdAt: u64)
    requires createdAt > MAX_TIME_MS / 1000
    ensures !IsValidTime(TimeAsWritten(createdAt))
  {
  }

  lemma TimeAsWrittenExample()
    ensures !IsValidTime(TimeAsWritten(1_700_000_000_000_000_000))
    ensures TimeOfNanos(1_700_000_000_000_000_000) == 1_700_000_000_000
  {
  }

  /** The intended conversion: nanoseconds to whole milliseconds, always a
      valid date. */
  function TimeOfNanos(createdAt: u64): (t: int)
    ensures IsValidTime(t)
    ensures t * NANOS_PER_MILLI <= createdAt < (t + 1) * NANOS_PER_MILLI
  {
    createdAt / NANOS_PER_MILLI
  }

  /** The client's view of one listed document. The type defaults to
      "unknown" when the canister sent none, or an empty one, since `||`
      treats "" as missing. The time is converted as TimeOfNanos says. */
  function FromMetadata(d: VdbCollection.DocMetadata): (doc: Document)
    ensures doc.filename == d.fileName && doc.title == d.title && doc.size == d.fileSize
    ensures d.fileType.Some? && d.fileType.value != "" ==> doc.docType == d.fileType.value
    ensures d.fileType.None? || d.fileType.value == "" ==> doc.docType == "unknown"
    ensures doc.createdAt == TimeOfNanos(d.createdAt) && IsValidTime(doc.createdAt)
  {
    var docType := if d.fileType.Some? && d.fileType.value != "" then d.fileType.value else "unknown";
    Document(d.fileName, d.title, docType, d.fileSize, TimeOfNanos(d.createdAt))
  }

  /** What a fulfilled `fetchDocuments` carries. */
  datatype FetchResult = FetchResult(documents: seq<Document>, append: bool, hasMore: bool)

  /** The payload `fetchDocuments` builds from the canister's page. */
  function FetchPayload(page: seq<VdbCollection.DocMetadata>, limit: int, append: bool): (p: FetchResult)
    ensures |p.documents| == |page| && p.append == append
    ensures forall i :: 0 <= i < |page| ==> p.documents[i] == FromMetadata(page[i])
    ensures forall i :: 0 <= i < |page| ==> p.documents[i].filename == page[i].fileName
    ensures p.hasMore <==> |page| == limit
  {
    FetchResult(seq(|page|, i requires 0 <= i < |page| => FromMetadata(page[i])), append, |page| == limit)
  }

  /** The filter of a fulfilled delete: `d => d.filename !== filename`. */
  function OtherFilename(filename: string): Document -> bool
  {
    (d: Document) => d.filename != filename
  }

  /** The test of `find`: `d => d.filename === filename`. */
  function HasFilename(filename: string): Document -> bool
  {
    (d: Document) => d.filename == filename
  }

  /** `selectSelectedDocument`: the first document with the selected file
      name, or nothing when there is no selection or no such document. */
  function SelectSelectedDocument(s: KnowledgeState): (d: Option<Document>)
    ensures d.Some? <==> s.selectedDocumentId.Some? && exists i :: 0 <= i < |s.documents| && s.documents[i].filename == s.selectedDocumentId.value
    ensures d.Some? ==> d.value in s.documents && d.value.filename == s.selectedDocumentId.value
    ensures d.Some? ==> exists i :: (&& 0 <= i < |s.documents| && d.value == s.documents[i]
                                     && forall j :: 0 <= j < i ==> s.documents[j].filename != s.selectedDocumentId.value)
  {
    match s.selectedDocumentId
    case None => None
    case Some(id) =>
      match FindFirst(s.documents, HasFilename(id))
      case None => None
      case Some(i) => Some(s.documents[i])
  }

  /** The state after a fulfilled fetch: the batch replaces or extends the
      list, `hasMore` is taken over, and the page counter moves on only when
      the batch is not empty. */
  function AfterFetch(s: KnowledgeState, p: FetchResult): KnowledgeState
  {
    s.(isLoading := false,
       documents := if p.append then s.documents + p.documents else p.documents,
       hasMore := p.hasMore,
       currentPage := if |p.documents| > 0 then s.currentPage + 1 else s.currentPage)
  }

  /** Infinite scroll loads the list in order. While the loaded documents
      are the first `(currentPage - 1) * pageSize` of the list (or all of
      it), a load-more fetch at offset `(currentPage - 1) * pageSize` keeps
      that so; when it reports no more, the whole list is loaded. */
  lemma InfiniteScrollStep(all: seq<VdbCollection.DocMetadata>, s: KnowledgeState)
    requires s.pageSize > 0 && s.currentPage >= 1
    requires var o := (s.currentPage - 1) * s.pageSize;
      s.documents == Loaded(all, if o <= |all| then o else |all|)
    ensures var o := (s.currentPage - 1) * s.pageSize;
      var t := AfterFetch(s, FetchPayload(Canister.Paginate(all, s.pageSize, o), s.pageSize, true));
      var o' := (t.currentPage - 1) * t.pageSize;
      && t.documents == Loaded(all, if o' <= |all| then o' else |all|)
      && (!t.hasMore ==> t.documents == Loaded(all, |all|))
  {
    var o := (s.currentPage - 1) * s.pageSize;
    var page := Canister.Paginate(all, s.pageSize, o);
    var p := FetchPayload(page, s.pageSize, true);
    var t := AfterFetch(s, p);
    if o < |all| {
      var e := Canister.Min(o + s.pageSize, |all|);
      assert page == all[o..e];
      assert p.documents == Loaded(all[o..e], e - o);
      LoadedConcat(all, o, e);
      assert t.documents == Loaded(all, e);
      NextOffset(s.currentPage, s.pageSize);
      assert (t.currentPage - 1) * t.pageSize == o + s.pageSize;
    } else {
      assert page == [];
      assert t.documents == s.documents;
    }
  }

  lemma NextOffset(page: int, size: int)
    ensures (page + 1 - 1) * size == (page - 1) * size + size
  {
  }

  /** A fresh fetch from the first page, as the page does after
      `resetPagination`, starts the scroll correctly. */
  lemma FirstPageStartsScroll(all: seq<VdbCollection.DocMetadata>, s: KnowledgeState)
    requires s.pageSize > 0 && s.currentPage == 1
    ensures var t := AfterFetch(s, FetchPayload(Canister.Paginate(all, s.pageSize, 0), s.pageSize, false));
      var o' := (t.currentPage - 1) * t.pageSize;
      && t.documents == Loaded(all, if o' <= |all| then o' else |all|)
      && (!t.hasMore ==> t.documents == Loaded(all, |all|))
  {
    var page := Canister.Paginate(all, s.pageSize, 0);
    if |all| > 0 {
      var e := Canister.Min(s.pageSize, |all|);
      assert page == all[0..e];
      assert all[0..e] == all[..e];
    }
  }

  /** The client's view of the first `n` listed documents. */
  function Loaded(all: seq<VdbCollection.DocMetadata>, n: nat): seq<Document>
    requires n <= |all|
  {
    seq(n, i requires 0 <= i < n => FromMetadata(all[i]))
  }

  lemma LoadedConcat(all: seq<VdbCollection.DocMetadata>, o: nat, e: nat)
    requires o <= e <= |all|
    ensures Loaded(all, o) + Loaded(all[o..e], e - o) == Loaded(all, e)
  {
  }

  class KnowledgeStore {
    var documents: seq<Document>
    var selectedDocumentId: Option<string>
    var isLoading: bool
    var error: Option<string>
    var hasMore: bool
    var totalDocuments: int
    var currentPage: int
    var pageSize: int

    function State(): KnowledgeState
      reads this
    {
      KnowledgeState(documents, selectedDocumentId, isLoading, error, hasMore, totalDocuments, currentPage, pageSize)
    }

    /** `initialState`. */
    constructor ()
      ensures State() == INITIAL_STATE
    {
      documents, selectedDocumentId, isLoading, error := [], None, false, None;
      hasMore, totalDocuments, currentPage, pageSize := true, 0, 1, 10;
    }

    method SetSelectedDocument(id: Option<string>)
      modifies this
      ensures State() == old(State()).(selectedDocumentId := id)
    {
      selectedDocumentId := id;
    }

    /** `clearDocuments`: no documents, no selection, back to page 1; the
        page size stays. */
    method ClearDocuments()
      modifies this
      ensures State() == old(State()).(documents := [], selectedDocumentId := None, currentPage := 1, hasMore := true)
    {
      documents := [];
      selectedDocumentId := None;
      currentPage := 1;
      hasMore := true;
    }

    /** `resetPagination`: only the page counter and `hasMore`. */
    method ResetPagination()
      modifies this
      ensures State() == old(State()).(currentPage := 1, hasMore := true)
    {
      currentPage := 1;
      hasMore := true;
    }

    /** `updateDocumentTitle`: retitles the first document with that file
        name; without one nothing changes. */
    method UpdateDocumentTitle(documentId: string, title: string)
      modifies this
      ensures match FindFirst(old(documents), HasFilename(documentId))
        case None => State() == old(State())
        case Some(i) => State() == old(State()).(documents := old(documents)[i := old(documents)[i].(title := title)])
    {
      var found := FindFirst(documents, HasFilename(documentId));
      if found.Some? {
        var i := found.value;
        documents := documents[i := documents[i].(title := title)];
      }
    }

    method SetPageSize(size: int)
      modifies this
      ensures State() == old(State()).(pageSize := size)
    {
      pageSize := size;
    }

    /** The `pending` case of all three thunks. */
    method Pending()
      modifies this
      ensures State() == old(State()).(isLoading := true, error := None)
    {
      isLoading := true;
      error := None;
    }

    /** The `rejected` case of all three thunks: the documents stay. */
    method Rejected(message: string)
      modifies this
      ensures State() == old(State()).(isLoading := false, error := Some(message))
    {
      isLoading := false;
      error := Some(message);
    }

    /** `fetchDocuments.fulfilled`. */
    method FetchFulfilled(p: FetchResult)
      modifies this
      ensures State() == AfterFetch(old(State()), p)
      ensures p.append ==> documents[..|old(documents)|] == old(documents)
    {
      isLoading := false;
      if p.append {
        documents := documents + p.documents;
      } else {
        documents := p.documents;
      }
      hasMore := p.hasMore;
      if |p.documents| > 0 {
        currentPage := currentPage + 1;
      }
    }

    /** `uploadDocument.fulfilled`: the new document goes first. */
    method UploadFulfilled(d: Document)
      modifies this
      ensures State() == old(State()).(isLoading := false, documents := [d] + old(documents))
    {
      isLoading := false;
      documents := [d] + documents;
    }

    /** `deleteDocument.fulfilled`: every document with the file name goes,
        and the selection is cleared exactly when it was that file. */
    method DeleteFulfilled(filename: string)
      modifies this
      ensures State() == old(State()).(
        isLoading := false,
        documents := Filter(old(documents), OtherFilename(filename)),
        selectedDocumentId := if old(selectedDocumentId) == Some(filename) then None else old(selectedDocumentId))
    {
      isLoading := false;
      documents := Filter(documents, OtherFilename(filename));
      if selectedDocumentId == Some(filename) {
        selectedDocumentId := None;
      }
    }
  }
}

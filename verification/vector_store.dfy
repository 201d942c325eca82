/** The vector store: a nullable handle on a Chroma collection, created
    lazily. Every operation first initialises the handle when it is absent
    and answers with a fixed failure value when that fails; library
    exceptions inside an operation are caught and mapped to fixed values.
    The collection's contents are modelled as a sequence of documents; the
    outcomes of the Chroma and embedding calls are parameters. */
module VectorStore {
  import opened Outcomes
  import opened Documents

  const CollectionName := "knowledge_vault"

  /** The LangChain `Chroma` object the store holds once initialised. */
  datatype Handle = Handle(collectionName: string)

  /** The `vectorstore` field (None until initialised) and the documents
      in the persisted collection. */
  datatype Store = Store(handle: Option<Handle>, collection: seq<Document>)

  /** A method's return value and the store it leaves behind. */
  datatype Reply<+T> = Reply(value: T, store: Store)

  /** `vectorstore.similarity_search(query, k=k)` over the collection: the
      ranked documents, or the exception it raised. */
  type Searcher = (seq<Document>, string, int) -> Result<seq<Document>>

  /** The outcomes of the library calls a store operation may make. */
  datatype Calls = Calls(
    length: Attempt,    // `len(self.vectorstore)` behind `if not self.vectorstore`
    chroma: Attempt,    // `Chroma(...)` in initialize_vectorstore
    add: Attempt,       // `vectorstore.add_documents`
    search: Searcher,   // `vectorstore.similarity_search`
    count: Attempt,     // `client.get_collection(...).count()`
    delete: Attempt,    // `client.delete_collection`
    recreate: Attempt)  // `Chroma(...)` after the delete in clear_collection

  datatype CollectionInfo = CollectionInfo(count: nat, error: Option<string>)

  /** The `k` of `similarity_search` when the caller gives none. */
  const DefaultK := 5

  /** `VectorStore()`: no handle yet, whatever the collection already holds on disk. */
  function NewStore(persisted: seq<Document>): Store {
    Store(None, persisted)
  }

  /** `bool(self.vectorstore)` when it does not raise: None is false, and
      LangChain's `Chroma` wrapper defines `__len__` as the number of
      documents in its collection, so a store whose collection is empty is
      false as well. */
  predicate Truthy(s: Store) {
    s.handle.Some? && |s.collection| > 0
  }

  /** `not self.vectorstore`: None is false without a call; on a set handle
      Python calls `len`, which counts the collection and may raise. */
  function TestsFalse(s: Store, length: Attempt): (r: Result<bool>)
    ensures r.Raised? <==> TestRaises(s, length)
    ensures r.Raised? ==> r.message == length.message
    ensures r.Ok? ==> (r.value <==> !Truthy(s))
  {
    if s.handle.None? then Ok(true)
    else
      match length
      case Raised(e) => Raised(e)
      case Ok(_) => Ok(|s.collection| == 0)
  }

  /** The truthiness test of a store raises. */
  predicate TestRaises(s: Store, length: Attempt) {
    s.handle.Some? && length.Raised?
  }

  /** The operation gets past `if not self.vectorstore: if not
      self.initialize_vectorstore(): ...` with a handle to use. */
  predicate Usable(s: Store, calls: Calls) {
    !TestRaises(s, calls.length) && (Truthy(s) || calls.chroma.Ok?)
  }

  /** `initialize_vectorstore`: True exactly when it set the handle; on an
      exception nothing changes. */
  function Initialize(s: Store, calls: Calls): (r: Reply<bool>)
    ensures r.value <==> calls.chroma.Ok?
    ensures r.value ==> r.store.handle.Some? && r.store.collection == s.collection
    ensures !r.value ==> r.store == s
  {
    match calls.chroma
    case Ok(_) => Reply(true, s.(handle := Some(Handle(CollectionName))))
    case Raised(_) => Reply(false, s)
  }

  /** `if not self.vectorstore: if not self.initialize_vectorstore(): ...`:
      `Ok(true)` when there is a handle to use, `Ok(false)` when the store
      tested false and initialising it failed, and the exception when the
      test itself raised. Only a store that tests false is initialised. */
  function Ready(s: Store, calls: Calls): (r: Reply<Result<bool>>)
    ensures r.value.Raised? <==> TestRaises(s, calls.length)
    ensures r.value.Raised? ==> r.value.message == calls.length.message
    ensures r.value == Ok(true) <==> Usable(s, calls)
    ensures r.value == Ok(true) ==> r.store.handle.Some? && r.store.collection == s.collection
    ensures Truthy(s) || r.value != Ok(true) ==> r.store == s
  {
    match TestsFalse(s, calls.length)
    case Raised(e) => Reply(Raised(e), s)
    case Ok(falsy) =>
      if !falsy then Reply(Ok(true), s)
      else
        var init := Initialize(s, calls);
        Reply(Ok(init.value), init.store)
  }

  /** `add_documents(documents)`: `documents or []` is appended to the
      collection and True returned; a failed initialisation or an exception
      returns False. */
  function AddDocuments(s: Store, documents: Option<seq<Document>>, calls: Calls): (r: Reply<bool>)
    ensures TestRaises(s, calls.length) || (!Truthy(s) && calls.chroma.Raised?) ==> r == Reply(false, s)
    ensures r.value <==> Usable(s, calls) && calls.add.Ok?
    ensures r.value ==> r.store.collection == s.collection + documents.GetOr([])
    ensures !r.value ==> r.store.collection == s.collection
    ensures s.handle.Some? ==> r.store.handle.Some?
    ensures Truthy(s) ==> r.store.handle == s.handle
    ensures r.store.handle.None? ==> r.store == s
  {
    var ready := Ready(s, calls);
    if ready.value != Ok(true) then Reply(false, s)
    else
      match calls.add
      case Ok(_) => Reply(true, ready.store.(collection := ready.store.collection + documents.GetOr([])))
      case Raised(_) => Reply(false, ready.store)
  }

  /** `similarity_search(query, k=5)`: the search results for `k` as given,
      or [] when the truthiness test or initialisation fails or the search raises. */
  function SimilaritySearch(s: Store, query: string, calls: Calls, k: int := DefaultK): (r: Reply<seq<Document>>)
    ensures TestRaises(s, calls.length) || (!Truthy(s) && calls.chroma.Raised?) ==> r == Reply([], s)
    ensures Usable(s, calls) ==> r.value == calls.search(s.collection, query, k).ValueOr([])
    ensures r.store.collection == s.collection
    ensures Truthy(s) ==> r.store == s
    ensures r.store.handle.None? ==> r.store == s
  {
    var ready := Ready(s, calls);
    if ready.value != Ok(true) then Reply([], s)
    else
      match calls.search(ready.store.collection, query, k)
      case Ok(results) => Reply(results, ready.store)
      case Raised(_) => Reply([], ready.store)
  }

  /** A search that names no `k` asks for five documents. */
  lemma SearchDefaultsToFive(s: Store, query: string, calls: Calls)
    ensures SimilaritySearch(s, query, calls) == SimilaritySearch(s, query, calls, 5)
    ensures Usable(s, calls) ==> SimilaritySearch(s, query, calls).value == calls.search(s.collection, query, 5).ValueOr([])
  {
  }

  /** `get_collection_info()`: the number of documents and no error, or a
      count of 0 with the reason. */
  function GetCollectionInfo(s: Store, calls: Calls): (r: Reply<CollectionInfo>)
    ensures TestRaises(s, calls.length) ==> r == Reply(CollectionInfo(0, Some(calls.length.message)), s)
    ensures !TestRaises(s, calls.length) && !Truthy(s) && calls.chroma.Raised? ==>
      r == Reply(CollectionInfo(0, Some("Failed to initialize")), s)
    ensures r.value.error.None? <==> Usable(s, calls) && calls.count.Ok?
    ensures r.value.error.None? ==> r.value.count == |s.collection|
    ensures r.value.error.Some? ==> r.value.count == 0
    ensures Usable(s, calls) && calls.count.Raised? ==> r.value.error == Some(calls.count.message)
    ensures r.store.collection == s.collection
    ensures Truthy(s) ==> r.store == s
    ensures r.store.handle.None? ==> r.store == s
  {
    var ready := Ready(s, calls);
    match ready.value
    case Raised(e) => Reply(CollectionInfo(0, Some(e)), s)
    case Ok(false) => Reply(CollectionInfo(0, Some("Failed to initialize")), s)
    case Ok(true) =>
      match calls.count
      case Ok(_) => Reply(CollectionInfo(|ready.store.collection|, None), ready.store)
      case Raised(e) => Reply(CollectionInfo(0, Some(e)), ready.store)
  }

  /** `clear_collection()`: delete the collection and open a new, empty one.
      If the delete raises the documents are kept; if only the reopening
      raises the documents are gone but the handle stays. */
  function ClearCollection(s: Store, calls: Calls): (r: Reply<bool>)
    ensures TestRaises(s, calls.length) || (!Truthy(s) && calls.chroma.Raised?) ==> r == Reply(false, s)
    ensures r.value <==> Usable(s, calls) && calls.delete.Ok? && calls.recreate.Ok?
    ensures r.value ==> r.store.handle.Some? && r.store.collection == []
    ensures calls.delete.Raised? ==> r.store.collection == s.collection
    ensures calls.delete.Ok? && Usable(s, calls) ==> r.store.collection == []
    ensures s.handle.Some? ==> r.store.handle.Some?
    ensures r.store.handle.None? ==> r.store == s
  {
    var ready := Ready(s, calls);
    if ready.value != Ok(true) then Reply(false, s)
    else
      match calls.delete
      case Raised(_) => Reply(false, ready.store)
      case Ok(_) =>
        match calls.recreate
        case Ok(_) => Reply(true, Store(Some(Handle(CollectionName)), []))
        case Raised(_) => Reply(false, ready.store.(collection := []))
  }

  /** A clear followed by a count reports no documents. The cleared store
      tests false, so the count first initialises again, and reports no
      error exactly when the test, that and the count succeed. */
  lemma ClearThenCountIsZero(s: Store, clearing: Calls, counting: Calls)
    requires ClearCollection(s, clearing).value
    ensures GetCollectionInfo(ClearCollection(s, clearing).store, counting).value.count == 0
    ensures GetCollectionInfo(ClearCollection(s, clearing).store, counting).value.error.None?
      <==> counting.length.Ok? && counting.chroma.Ok? && counting.count.Ok?
    ensures counting.length.Raised? ==>
      GetCollectionInfo(ClearCollection(s, clearing).store, counting).value.error == Some(counting.length.message)
  {
  }

  /** An add followed by a count reports the added documents. */
  lemma AddThenCount(s: Store, documents: Option<seq<Document>>, adding: Calls, counting: Calls)
    requires AddDocuments(s, documents, adding).value && counting.count.Ok?
    ensures var added := AddDocuments(s, documents, adding).store;
      Usable(added, counting) ==>
        GetCollectionInfo(added, counting).value == CollectionInfo(|s.collection| + |documents.GetOr([])|, None)
  {
  }

  /** The public operations of the store. */
  datatype Request =
    | InitializeRequest
    | AddRequest(documents: Option<seq<Document>>)
    | SearchRequest(query: string, k: int)
    | InfoRequest
    | ClearRequest

  datatype Response = Flag(ok: bool) | Found(documents: seq<Document>) | Info(info: CollectionInfo)

  function Step(s: Store, request: Request, calls: Calls): Reply<Response> {
    match request
    case InitializeRequest => var r := Initialize(s, calls); Reply(Flag(r.value), r.store)
    case AddRequest(documents) => var r := AddDocuments(s, documents, calls); Reply(Flag(r.value), r.store)
    case SearchRequest(query, k) => var r := SimilaritySearch(s, query, calls, k); Reply(Found(r.value), r.store)
    case InfoRequest => var r := GetCollectionInfo(s, calls); Reply(Info(r.value), r.store)
    case ClearRequest => var r := ClearCollection(s, calls); Reply(Flag(r.value), r.store)
  }

  /** The store after a sequence of operations, each with its own call outcomes. */
  function Run(s: Store, requests: seq<Request>, calls: seq<Calls>): Store
    requires |calls| == |requests|
    decreases |requests|
  {
    if |requests| == 0 then s
    else Run(Step(s, requests[0], calls[0]).store, requests[1..], calls[1..])
  }

  /** Once set, the handle is never reset to None by any sequence of operations. */
  lemma {:induction false} HandleNeverCleared(s: Store, requests: seq<Request>, calls: seq<Calls>)
    requires |calls| == |requests|
    requires s.handle.Some?
    ensures Run(s, requests, calls).handle.Some?
    decreases |requests|
  {
    if |requests| > 0 {
      var next := Step(s, requests[0], calls[0]).store;
      assert next.handle.Some?;
      HandleNeverCleared(next, requests[1..], calls[1..]);
    }
  }

  /** The value each operation returns when initialisation fails. */
  function InitFailure(request: Request): Response {
    match request
    case InitializeRequest => Flag(false)
    case AddRequest(_) => Flag(false)
    case SearchRequest(_, _) => Found([])
    case InfoRequest => Info(CollectionInfo(0, Some("Failed to initialize")))
    case ClearRequest => Flag(false)
  }

  /** When the store tests false, a failed initialisation ends every
      operation with its fixed failure value and leaves the store as it was. */
  lemma FailedInitialisationShortCircuits(s: Store, request: Request, calls: Calls)
    requires !Truthy(s) && calls.chroma.Raised? && !TestRaises(s, calls.length)
    ensures Step(s, request, calls) == Reply(InitFailure(request), s)
  {
  }

  /** The value each operation's `except` branch returns for exception text `e`. */
  function ExceptValue(request: Request, e: string): Response {
    match request
    case InitializeRequest => Flag(false)
    case AddRequest(_) => Flag(false)
    case SearchRequest(_, _) => Found([])
    case InfoRequest => Info(CollectionInfo(0, Some(e)))
    case ClearRequest => Flag(false)
  }

  /** When the truthiness test raises, every operation but
      `initialize_vectorstore`, which makes no test, answers with its
      `except` value and leaves the store as it was. */
  lemma FailedTestShortCircuits(s: Store, request: Request, calls: Calls)
    requires TestRaises(s, calls.length) && !request.InitializeRequest?
    ensures Step(s, request, calls) == Reply(ExceptValue(request, calls.length.message), s)
  {
  }

  /** When the store tests true, no operation but `initialize_vectorstore`
      itself initialises: the outcome of constructing `Chroma` does not matter. */
  lemma InitialisesOnlyWhenFalsy(s: Store, request: Request, calls: Calls, chroma: Attempt)
    requires Truthy(s) && !request.InitializeRequest?
    ensures Step(s, request, calls) == Step(s, request, calls.(chroma := chroma))
  {
  }

  /** The first operation on a new store initialises it, so when that fails
      every operation answers with its failure value. */
  lemma NewStoreFailsWithoutChroma(persisted: seq<Document>, request: Request, calls: Calls)
    requires calls.chroma.Raised?
    ensures Step(NewStore(persisted), request, calls) == Reply(InitFailure(request), NewStore(persisted))
  {
    FailedInitialisationShortCircuits(NewStore(persisted), request, calls);
  }
}

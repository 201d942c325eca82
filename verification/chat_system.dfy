/** The chat system: shaping the answer of the conversational retrieval
    chain into a response record, reading the conversation memory as a
    role/content history, and previewing the documents a query retrieves.
    The chain, the language model and the memory's windowing are library
    code; the chain's outcome for a question is a parameter. */
module ChatSystem {
  import opened Outcomes
  import opened Seqs
  import opened Config
  import opened Documents
  import VectorStore

  /** A message in the conversation memory. `OtherMessage` stands for every
      message class that is neither a human nor an AI message. */
  datatype Message = Human(content: string) | Ai(content: string) | OtherMessage(kind: string, content: string)

  /** `memory.chat_memory`: the full list of stored messages. */
  datatype ChatMemory = ChatMemory(messages: seq<Message>)

  /** `MemoryWrapper`: exposes the wrapped memory's message list. */
  datatype MemoryWrapper = MemoryWrapper(memory: ChatMemory)

  /** `MemoryWrapper.messages` */
  function Messages(w: MemoryWrapper): seq<Message> {
    w.memory.messages
  }

  /** `MemoryWrapper.add_message`: the message is stored after all earlier
      ones and the wrapper's view shows it. */
  function AddMessage(w: MemoryWrapper, m: Message): (w': MemoryWrapper)
    ensures Messages(w') == Messages(w) + [m]
  {
    MemoryWrapper(ChatMemory(w.memory.messages + [m]))
  }

  /** `clear_memory`: the memory holds no message afterwards. */
  function ClearMemory(memory: ChatMemory): (cleared: ChatMemory)
    ensures |cleared.messages| == 0
  {
    ChatMemory([])
  }

  datatype HistoryEntry = HistoryEntry(role: string, content: string)

  /** Human and AI messages appear in the history; other kinds do not. */
  predicate InHistory(m: Message) {
    m.Human? || m.Ai?
  }

  /** The history entry a human or AI message becomes. */
  function Entry(m: Message): HistoryEntry {
    HistoryEntry(if m.Human? then "user" else "assistant", m.content)
  }

  /** `get_chat_history`: one entry per human or AI message, in order. */
  function ChatHistory(messages: seq<Message>): (history: seq<HistoryEntry>)
    ensures |history| <= |messages|
    ensures forall i :: 0 <= i < |history| ==> history[i].role == "user" || history[i].role == "assistant"
    decreases |messages|
  {
    if |messages| == 0 then []
    else
      var m := messages[0];
      var rest := ChatHistory(messages[1..]);
      match m
      case Human(c) => [HistoryEntry("user", c)] + rest
      case Ai(c) => [HistoryEntry("assistant", c)] + rest
      case OtherMessage(_, _) => rest
  }

  /** The history of a concatenation is the concatenation of the histories. */
  lemma {:induction false} ChatHistoryAppend(a: seq<Message>, b: seq<Message>)
    ensures ChatHistory(a + b) == ChatHistory(a) + ChatHistory(b)
    decreases |a|
  {
    if |a| > 0 {
      assert (a + b)[1..] == a[1..] + b;
      ChatHistoryAppend(a[1..], b);
    } else {
      assert a + b == b;
    }
  }

  /** The history is the human and AI messages, kept in order and mapped to
      their roles. */
  lemma {:induction false} ChatHistoryIsFilteredMessages(messages: seq<Message>)
    ensures ChatHistory(messages) == Map(Entry, Filter(InHistory, messages))
    decreases |messages|
  {
    if |messages| > 0 {
      ChatHistoryIsFilteredMessages(messages[1..]);
      var rest := Filter(InHistory, messages[1..]);
      if InHistory(messages[0]) {
        assert Filter(InHistory, messages) == [messages[0]] + rest;
        assert Map(Entry, [messages[0]] + rest) == [Entry(messages[0])] + Map(Entry, rest);
      } else {
        assert Filter(InHistory, messages) == rest;
      }
    }
  }

  /** Adding a message through the wrapper extends the history by its entry
      when it is a human or AI message. */
  lemma HistoryAfterAdd(w: MemoryWrapper, m: Message)
    ensures ChatHistory(Messages(AddMessage(w, m))) == ChatHistory(Messages(w)) + (if InHistory(m) then [Entry(m)] else [])
  {
    ChatHistoryAppend(Messages(w), [m]);
    assert ChatHistory([m]) == (if InHistory(m) then [Entry(m)] else []) + ChatHistory([]);
  }

  /** After `clear_memory` the history is empty. */
  lemma HistoryAfterClear(memory: ChatMemory)
    ensures ChatHistory(ClearMemory(memory).messages) == []
  {
  }

  /** The chain's output dictionary: "answer" and "source_documents" may be absent. */
  datatype ChainOutput = ChainOutput(answer: Option<string>, sourceDocuments: Option<seq<Document>>)

  /** The conversation chain's outcome for a question. */
  type Chain = string -> Result<ChainOutput>

  datatype ChatResponse = ChatResponse(response: string, sourceDocuments: seq<Document>, error: Option<string>)

  const NotInitializedResponse := "Sorry, the chat system is not properly initialized. Please check your configuration."
  const NotInitializedError := "Chat system not initialized"
  const ErrorPrefix := "Sorry, I encountered an error: "

  /** `str(e)` of the KeyError raised by `result["answer"]` when the chain's
      output has no answer. */
  const MissingAnswerMessage := "'answer'"

  /** `chat(user_input)`: the three outcomes are an uninitialised chain, the
      chain's answer, and an exception turned into an apology. */
  function Chat(chain: Option<Chain>, userInput: string): (r: ChatResponse)
    ensures chain.None? ==> r == ChatResponse(NotInitializedResponse, [], Some(NotInitializedError))
    ensures r.error.None? <==> chain.Some? && chain.value(userInput).Ok? && chain.value(userInput).value.answer.Some?
    ensures r.error.None? ==>
      && r.response == chain.value(userInput).value.answer.value
      && r.sourceDocuments == chain.value(userInput).value.sourceDocuments.GetOr([])
    ensures r.error.Some? ==> r.sourceDocuments == []
    ensures chain.Some? && chain.value(userInput).Raised? ==>
      var e := chain.value(userInput).message;
      r == ChatResponse(ErrorPrefix + e, [], Some(e))
    ensures chain.Some? && chain.value(userInput).Ok? && chain.value(userInput).value.answer.None? ==>
      r == ChatResponse(ErrorPrefix + MissingAnswerMessage, [], Some(MissingAnswerMessage))
    ensures chain.Some? && r.error.Some? ==> r.response == ErrorPrefix + r.error.value
  {
    match chain
    case None => ChatResponse(NotInitializedResponse, [], Some(NotInitializedError))
    case Some(invoke) =>
      match invoke(userInput)
      case Raised(e) => ChatResponse(ErrorPrefix + e, [], Some(e))
      case Ok(output) =>
        match output.answer
        case None => ChatResponse(ErrorPrefix + MissingAnswerMessage, [], Some(MissingAnswerMessage))
        case Some(answer) => ChatResponse(answer, output.sourceDocuments.GetOr([]), None)
  }

  /** `_initialize_conversation_chain`: a chain exists afterwards only if the
      vector store tests true or initialising it succeeds, and building the
      chain does not raise. An exception from the truthiness test is caught
      and leaves no chain. `build` is the chain built from the store, or the exception. */
  function InitializeConversationChain(s: VectorStore.Store, calls: VectorStore.Calls, build: Result<Chain>): (r: VectorStore.Reply<Option<Chain>>)
    ensures r.value.Some? <==> VectorStore.Usable(s, calls) && build.Ok?
    ensures VectorStore.TestRaises(s, calls.length) ==> r == VectorStore.Reply(None, s)
    ensures r.value.Some? ==> r.store.handle.Some?
    ensures r.store.collection == s.collection
    ensures VectorStore.Truthy(s) ==> r.store == s
  {
    var ready := VectorStore.Ready(s, calls);
    if ready.value != Ok(true) then VectorStore.Reply(None, ready.store)
    else
      match build
      case Ok(chain) => VectorStore.Reply(Some(chain), ready.store)
      case Raised(_) => VectorStore.Reply(None, ready.store)
  }

  const PreviewLength: nat := 200

  /** `content[:limit] + "..." if len(content) > limit else content`. */
  function Preview(content: string, limit: nat): (p: string)
    ensures |content| <= limit ==> p == content
    ensures |content| > limit ==> |p| == limit + 3 && p[..limit] == content[..limit] && p[limit..] == "..."
  {
    if |content| > limit then content[..limit] + "..." else content
  }

  /** A preview is never longer than the limit plus the ellipsis, and the
      part before any ellipsis is a prefix of the content. */
  lemma PreviewIsBoundedPrefix(content: string, limit: nat)
    ensures |Preview(content, limit)| <= limit + 3
    ensures var p := Preview(content, limit);
      var kept := if |content| > limit then limit else |content|;
      p[..kept] == content[..kept]
  {
  }

  /** Previewing a preview changes nothing. */
  lemma PreviewIdempotent(content: string, limit: nat)
    ensures Preview(Preview(content, limit), limit) == Preview(content, limit)
  {
    var p := Preview(content, limit);
    if |content| > limit {
      assert p[..limit] + "..." == p;
    }
  }

  datatype ContextEntry = ContextEntry(content: string, metadata: Metadata, relevanceScore: string)
  datatype ContextInfo = ContextInfo(documents: seq<ContextEntry>, error: Option<string>)

  const NoVectorStoreError := "Vector store not initialized"

  /** The entry `get_context_info` lists for one retrieved document. */
  function ContextEntryOf(doc: Document): ContextEntry {
    ContextEntry(Preview(doc.pageContent, PreviewLength), doc.metadata, "N/A")
  }

  /** `get_context_info(query)`: when the store tests false, an error and no
      search; when the test raises, that exception's text; otherwise one
      preview per document `similarity_search` retrieves with `k =
      MAX_CONTEXT_CHUNKS`, in retrieval order, with the metadata as is.
      `test` is the outcome of the truthiness test made here; the search
      makes its own, `calls.length`. */
  function GetContextInfo(s: VectorStore.Store, query: string, test: Attempt, calls: VectorStore.Calls): (info: ContextInfo)
    ensures VectorStore.TestRaises(s, test) ==> info == ContextInfo([], Some(test.message))
    ensures !VectorStore.Truthy(s) && !VectorStore.TestRaises(s, test) ==> info == ContextInfo([], Some(NoVectorStoreError))
    ensures info.error.None? <==> VectorStore.Truthy(s) && test.Ok?
    ensures info.error.None? ==>
      var found := if calls.length.Ok? then calls.search(s.collection, query, MaxContextChunks).ValueOr([]) else [];
      && |info.documents| == |found|
      && forall i :: 0 <= i < |found| ==>
           && info.documents[i].metadata == found[i].metadata
           && info.documents[i].relevanceScore == "N/A"
           && info.documents[i].content == Preview(found[i].pageContent, PreviewLength)
  {
    match VectorStore.TestsFalse(s, test)
    case Raised(e) => ContextInfo([], Some(e))
    case Ok(falsy) =>
      if falsy then ContextInfo([], Some(NoVectorStoreError))
      else
        var found := VectorStore.SimilaritySearch(s, query, calls, MaxContextChunks).value;
        ContextInfo(Map(ContextEntryOf, found), None)
  }

  /** A conversation chain built over a store that holds documents leaves a
      store that tests true, so a later `get_context_info` whose test does
      not raise searches instead of reporting a missing vector store. */
  lemma ChainLeavesStoreForContext(s: VectorStore.Store, calls: VectorStore.Calls, build: Result<Chain>,
                                   query: string, test: Attempt, searching: VectorStore.Calls)
    requires InitializeConversationChain(s, calls, build).value.Some?
    requires |s.collection| > 0 && test.Ok?
    ensures GetContextInfo(InitializeConversationChain(s, calls, build).store, query, test, searching).error.None?
  {
  }
}

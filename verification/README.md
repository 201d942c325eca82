# Docuchat core in Dafny

Docuchat is a retrieval-augmented chat application. It reads PDFs, text
files and web articles, splits them into numbered chunk documents and stores
them in a Chroma vector collection. It answers questions through a
conversational retrieval chain that uses those documents. This project models
the application's own logic and treats every library it calls as a parameter:
the text splitter, the PDF, HTTP and HTML readers, Chroma and the language
model chain.

The model covers:

- **Ingestion** (`DocumentProcessor`, `Documents`, `WebText`).
  - The web-text clean-up.
  - The concatenation of PDF page text.
  - The numbering of splitter chunks into documents.
  - The dispatch on the extension that `os.path.splitext` returns.
  - The upload validator.
  - The "any exception yields no documents" paths.
- **Vector store** (`VectorStore`). A lazy-initialisation state machine with a
  nullable handle and a collection of documents. Every outcome of a library
  call (success or exception) is an input. The test `if not self.vectorstore`
  is Python truthiness: the store tests false when the handle is None or its
  collection is empty (`VectorStore.Truthy`). On a set handle the test calls
  `len`, and the outcome of that call is an input too: it may raise, and the
  enclosing `except` then handles it (`VectorStore.TestsFalse`).
- **Chat** (`ChatSystem`).
  - The three outcomes of `chat`.
  - The role mapping of the chat history.
  - The conversation memory wrapper.
  - Building the conversation chain.
  - The 200-character previews of `get_context_info`.
- **Setup** (`Setup`).
  - The Python version check.
  - Creating `.env` from its template.
  - The test for which Azure variables are missing.

Supporting modules model the Python built-ins this logic relies on:

- `Outcomes` models exceptions as `Result` and nullable values as `Option`.
- `Seqs` provides filter, map and concatenation.
- `Strings` covers `str.isspace`, `strip`, `splitlines`, `split("  ")`, `join`, `in` and ASCII `lower`.
- `Words` models `str.split()` with no argument: the words of a text. The web-text clean-up is proved to keep them.
- `Paths` models POSIX `splitext`.
- `Config` holds the constants of `config.py`.

## Model

| member | source | states |
|---|---|---|
| Strings.Strip | document_processor.py:96-97 | `str.strip()`: the result is a contiguous slice of the input with no whitespace at either end. It is empty exactly when the input is all whitespace. Removing ends keeps "no line break" and "no double space". A string without whitespace at its ends is unchanged. |
| Strings.StripKeepsNonSpace | document_processor.py:96-97 | `strip()` removes whitespace only: the non-whitespace characters of the result are those of the input. |
| Strings.SplitLines | document_processor.py:96 | `str.splitlines()`: no piece holds a line-boundary character. Every piece is blank exactly when the text is all whitespace. Text without a line boundary gives one piece, or none if it is empty. |
| Strings.SplitLinesConcat | document_processor.py:96 | The lines of `splitlines()`, concatenated, are the text with its line-boundary characters removed. |
| Strings.NonSpaceIgnoresLineBreaks | document_processor.py:96 | Line boundaries are whitespace, so removing them keeps the text's non-whitespace characters. |
| Strings.SplitOnDoubleSpace | document_processor.py:97 | `line.split("  ")`: at least one piece. No piece contains two consecutive spaces, and no piece gains a line break. The pieces are all blank exactly when the line is. A line with no double space is its own single piece. |
| Strings.SplitOnDoubleSpaceJoin | document_processor.py:97 | Joining the pieces of `split("  ")` with two spaces rebuilds the line. |
| Strings.Join | document_processor.py:98 | `sep.join(parts)`: no parts give "", one part gives itself, and otherwise the length is the parts' total length plus one separator between each two parts. |
| Strings.JoinKeepsNonSpace | document_processor.py:97-98 | Joining parts with a whitespace separator (one or two spaces) keeps exactly the parts' non-whitespace characters, in order. |
| Strings.ContainsIffOccurs | setup.py:77 | The substring test `t in s` holds exactly when `t` occurs at some position of `s`. |
| Strings.Lower | document_processor.py:124 | `lower()` maps each character independently and keeps the length. |
| Strings.LowerMatchesCaseVariants | document_processor.py:124-128 | For a target without capitals, `s.lower() == t` holds exactly when `s` spells `t` with each letter in either case. |
| Words.Split | document_processor.py:96-98 | `str.split()`: every word is non-empty and holds no whitespace. |
| Words.SplitOfStrip | document_processor.py:96-97 | `strip()` keeps the words of the text. |
| Words.SplitAround | document_processor.py:97-98 | Non-empty whitespace between two texts keeps their words apart: the words of the whole are the first text's, then the second's. |
| Words.SplitOfJoin | document_processor.py:98 | Joining parts with non-empty whitespace gives the parts' words, part after part: no two parts' words merge. |
| Words.SplitOfLines | document_processor.py:96 | The lines of `splitlines()` hold the text's words, line after line: no word spans a line boundary. |
| Words.SplitOfDoubleSpacePieces | document_processor.py:97 | The pieces of `split("  ")` hold the line's words, piece after piece. |
| Paths.ExtensionStart | document_processor.py:124 | The extension begins at a dot, or is empty. No dot or slash follows its start. |
| Paths.Extension | document_processor.py:124 | The `splitext` extension is empty or starts with '.'. After that dot it contains no further dot or separator. |
| Paths.ExtensionNonEmptyIff | document_processor.py:124 | The extension is non-empty exactly when the last component has a dot preceded by some non-dot character of that component. A leading dot (".bashrc") does not count. |
| Paths.SplitExt | document_processor.py:124 | The loop of `posixpath.splitext`. Root and extension concatenate back to the path, and the extension agrees with `Paths.Extension`. |
| Documents.ChunkDocuments | document_processor.py:35-44 | One document per chunk, in order. The i-th document holds chunk i. Its metadata has exactly the keys source, the index key and type, with the index key numbered i + 1. |
| Documents.PdfText | document_processor.py:24-28 | The accumulated PDF text is one character longer per page than the pages' text put together, and ends with a newline when there is a page. |
| Documents.PdfTextPrefix | document_processor.py:24-28 | The text of the first k pages is a prefix of the text of all pages. |
| Documents.PdfTextHoldsPage | document_processor.py:24-28 | Each page's extracted text appears at its offset, in page order, followed by a newline. The next page starts right after that newline. |
| WebText.LinePhrases | document_processor.py:96-98 | The phrases of one stripped line are clean. There are none exactly when the line is blank. A line that is already a clean phrase yields itself. |
| WebText.KeepStripped | document_processor.py:97-98 | The stripped, non-empty phrases: clean when the pieces were, and none exactly when every piece was blank. |
| WebText.CleanWebText | document_processor.py:96-98 | The cleaned text has no whitespace at either end, no line-boundary character and no two consecutive spaces. It is empty exactly when the input has no non-whitespace character. |
| WebText.JoinedPhrases | document_processor.py:98 | Joining clean phrases with one space gives a clean phrase, or the empty string when there are no phrases. |
| WebText.CleanWebTextIdempotent | document_processor.py:96-98 | Cleaning already-cleaned text returns it unchanged. |
| WebText.KeepStrippedKeepsText | document_processor.py:97-98 | Stripping the pieces and dropping the empty ones keeps their non-whitespace characters, in order. |
| WebText.LinePhrasesKeepText | document_processor.py:96-98 | The phrases of one line hold that line's non-whitespace characters, in order. |
| WebText.PiecesKeepText | document_processor.py:97-98 | Splitting a line at double spaces, stripping the pieces and dropping the empty ones keeps the line's non-whitespace characters, in order. |
| WebText.TextPhrasesKeepText | document_processor.py:96-98 | The phrases of all lines hold the lines' non-whitespace characters, in order. |
| WebText.CleanWebTextKeepsText | document_processor.py:96-98 | The clean-up removes whitespace only: the non-whitespace characters of the cleaned text are exactly those of the input, in the same order. |
| WebText.KeepStrippedKeepsWords | document_processor.py:97-98 | Stripping the pieces and dropping the empty ones keeps their words, piece after piece. |
| WebText.PiecesKeepWords | document_processor.py:97-98 | Splitting a line at double spaces, stripping the pieces and dropping the empty ones keeps the line's words. |
| WebText.LinePhrasesKeepWords | document_processor.py:96-98 | The phrases of one line hold that line's words. |
| WebText.TextPhrasesKeepWords | document_processor.py:96-98 | The phrases of all lines hold the lines' words, line after line. |
| WebText.CleanWebTextKeepsWords | document_processor.py:96-98 | The clean-up keeps the words: `CleanWebText(text).split() == text.split()`. No two words are merged and none is split. |
| DocumentProcessor.ProcessPdf | document_processor.py:19-50 | On an exception, no documents. Otherwise one document per chunk of the page-by-page text: chunk i, metadata `{source: path, page: i+1, type: "pdf"}`. |
| DocumentProcessor.ProcessTextFile | document_processor.py:52-78 | On an exception, no documents. Otherwise one document per chunk of the file's text: chunk i, metadata `{source: path, chunk: i+1, type: "text"}`. |
| DocumentProcessor.ProcessWebArticle | document_processor.py:80-120 | On an exception, no documents. Otherwise one document per chunk of the cleaned page text: chunk i, metadata `{source: url, chunk: i+1, type: "web"}`. |
| DocumentProcessor.KindOf | document_processor.py:124-132 | For a given extension: the PDF branch is taken exactly when it is ".pdf" in any letter case. The text branch is taken exactly when it is ".txt" or ".md" in any case. |
| DocumentProcessor.Dispatch | document_processor.py:124-132 | The same choice made on the path: the PDF branch is taken exactly when its `splitext` extension is ".pdf" in any letter case. The text branch is taken exactly when it is ".txt" or ".md" in any case. |
| DocumentProcessor.ProcessFile | document_processor.py:122-132 | Runs the PDF or the text reader as `Dispatch` decides; any other extension yields no documents. |
| DocumentProcessor.ValidateFile | document_processor.py:134-149 | True exactly when all three hold: the file exists, its lower-cased extension is one of `SUPPORTED_EXTENSIONS`, and its size is at most 50 × 1048576 bytes. |
| DocumentProcessor.SizeLimitIsInclusive | document_processor.py:144-145 | For any path, a file of exactly 50 MB is judged like an empty file, and a file one byte larger is rejected. |
| DocumentProcessor.ExtensionOfSimpleName | document_processor.py:124 | A name with a one-character stem and one dot has everything from the dot on as its extension. |
| DocumentProcessor.ProcessedFileHasSupportedExtension | document_processor.py:122-132 | A file that yields documents has a supported extension. |
| DocumentProcessor.DocxValidatesButYieldsNothing | document_processor.py:128-149 | Every existing file whose lower-cased extension is ".docx" and whose size is within the limit passes validation, yet processing it yields no documents. |
| VectorStore.Initialize | vector_store.py:35-50 | True exactly when constructing Chroma succeeds, and then the handle is set and the collection is untouched. On an exception, nothing changes. |
| VectorStore.Truthy | vector_store.py:55 | `bool(self.vectorstore)` when the test does not raise: a set handle whose collection holds at least one document. |
| VectorStore.TestsFalse | vector_store.py:55 | `not self.vectorstore`: raises exactly when there is a handle and its `len` call raises, with that call's message. Otherwise it is True exactly when the store is not truthy. The same test stands at vector_store.py:73, 88 and 104 and at chat_system.py:56 and 143. |
| VectorStore.Ready | vector_store.py:55-57 | The truthiness test's exception comes through exactly when the test raises. Otherwise initialisation is attempted exactly when the store tests false (no handle, or an empty collection). The operation may proceed exactly when the test does not raise and the store tests true or initialisation succeeds. |
| VectorStore.AddDocuments | vector_store.py:52-68 | When the truthiness test raises, or the store tests false and initialisation fails: False, with the store unchanged. Otherwise True exactly when the add succeeds, and then the collection grows by `documents or []`. On False the collection is unchanged. A handle is never lost, and a store that tests true keeps its handle. |
| VectorStore.SimilaritySearch | vector_store.py:70-83 | When the truthiness test raises, or the store tests false and initialisation fails: []. Otherwise the search results for k as given, or [] when the search raises. The collection never changes. |
| VectorStore.SearchDefaultsToFive | vector_store.py:70 | A call that gives no `k` searches with k = 5. |
| VectorStore.GetCollectionInfo | vector_store.py:85-99 | When the truthiness test raises: count 0 and the test's message. When the store tests false and initialisation fails: count 0 and "Failed to initialize". The error is absent exactly when the store is or becomes ready and the count call succeeds, and then the count is the collection's size. An exception gives count 0 with its text. |
| VectorStore.ClearCollection | vector_store.py:101-120 | When the truthiness test raises, or the store tests false and initialisation fails: False, with the store unchanged. Otherwise True exactly when the delete and the recreation succeed; the collection is then empty and a handle is held. A failed delete leaves the documents in place. An existing handle is never lost. |
| VectorStore.ClearThenCountIsZero | vector_store.py:85-116 | After a successful clear, a count always reports 0 documents. The cleared store tests false, so the count first initialises again; it reports no error exactly when the truthiness test, that initialisation and the count succeed. A raising test reports its message. |
| VectorStore.AddThenCount | vector_store.py:52-96 | After a successful add, a successful count reports the old size plus the number of added documents, unless the count cannot get past its truthiness test: the test raises, or the store still tests false (nothing was ever added) and re-initialising fails. |
| VectorStore.HandleNeverCleared | vector_store.py:32-50 | Once the handle is set, no sequence of store operations resets it to None. |
| VectorStore.FailedInitialisationShortCircuits | vector_store.py:55-57 | When the store tests false without the test raising, failed initialisation makes every operation return its fixed failure value and leaves the store as it was. Add and clear return False, search returns [], info returns count 0 with "Failed to initialize". |
| VectorStore.FailedTestShortCircuits | vector_store.py:55-120 | When the truthiness test raises, every operation except `initialize_vectorstore` returns what its `except` branch returns and leaves the store as it was. Add and clear return False, search returns [], info returns count 0 with the exception's text. |
| VectorStore.InitialisesOnlyWhenFalsy | vector_store.py:73-75 | When the store tests true, no operation except `initialize_vectorstore` itself depends on whether constructing Chroma would succeed. |
| VectorStore.NewStoreFailsWithoutChroma | vector_store.py:32-57 | A new store has no handle, so its first operation initialises; when that fails, every operation gives its failure value and the store stays new. |
| ChatSystem.AddMessage | chat_system.py:21-28 | `add_message` appends the message after all earlier ones, and `messages` shows it. |
| ChatSystem.ClearMemory | chat_system.py:132-135 | After `clear_memory` the memory holds no message. |
| ChatSystem.ChatHistory | chat_system.py:118-127 | The history is never longer than the message list. Every role is "user" or "assistant". |
| ChatSystem.ChatHistoryAppend | chat_system.py:121-127 | The history of a concatenation is the concatenation of the histories. |
| ChatSystem.ChatHistoryIsFilteredMessages | chat_system.py:121-127 | The history equals the human and AI messages, kept in order, each mapped to its role and content. |
| ChatSystem.HistoryAfterAdd | chat_system.py:21-28 | Adding a human or AI message extends the history by its entry. Adding any other kind of message leaves the history as it was. |
| ChatSystem.HistoryAfterClear | chat_system.py:132-135 | After clearing, the history is empty. |
| ChatSystem.Chat | chat_system.py:89-116 | Without a chain: the fixed apology, no sources, "Chat system not initialized". The error is absent exactly when the chain returns an answer, and then the response is that answer and the sources default to []. Every exception, including the KeyError of a missing "answer" (message `'answer'`), gives "Sorry, I encountered an error: " + message, no sources, and the message as error. |
| ChatSystem.InitializeConversationChain | chat_system.py:52-87 | A chain exists afterwards exactly when the truthiness test does not raise, the store tests true or initialising it succeeds, and building the chain does not raise. A raising test is caught and leaves no chain and the store unchanged. The collection is never touched. |
| ChatSystem.Preview | chat_system.py:152-156 | Content of at most 200 characters is kept as is. Longer content becomes its first 200 characters followed by "...", 203 characters in all. |
| ChatSystem.PreviewIsBoundedPrefix | chat_system.py:152-156 | A preview is at most limit + 3 long, and the part before any ellipsis is a prefix of the content. |
| ChatSystem.PreviewIdempotent | chat_system.py:152-156 | Previewing a preview changes nothing. |
| ChatSystem.GetContextInfo | chat_system.py:140-167 | When the truthiness test raises, the outer handler answers with no documents and the exception's text. When the vector store tests false: no documents, error "Vector store not initialized", and no search. Otherwise one entry per document the search returns with k = 5, in order, where the search's own test may raise and give none. Each entry has its content previewed, its metadata unchanged and relevance "N/A". |
| ChatSystem.ChainLeavesStoreForContext | chat_system.py:140-147 | After `_initialize_conversation_chain` builds a chain over a store holding documents, `get_context_info` gets past its truthiness test when that test does not raise, and reports no error. |
| Setup.CheckPythonVersion | setup.py:13-20 | False exactly when the version is below (3, 8): major < 3, or major 3 with minor < 8. |
| Setup.TupleLessIsStrictOrder | setup.py:15 | Python's tuple `<` is irreflexive and transitive. |
| Setup.CreateEnvFile | setup.py:33-49 | An existing `.env` is kept untouched. Otherwise the template is copied when it exists. True exactly when `.env` exists afterwards. |
| Setup.IsMissing | setup.py:77 | A variable is missing exactly when `VAR=` occurs at no position of the file, or `VAR=your_` occurs at some position. |
| Setup.MissingVars | setup.py:66-79 | The missing list is a subsequence of the required variables, so it keeps their order, and it has no duplicates. A required variable is in it exactly when `VAR=` is absent from the file or `VAR=your_` is present. |
| Setup.CheckAzureConfig | setup.py:59-86 | True exactly when `.env` exists and no required variable is missing. |
| Setup.PlaceholderMarksMissing | setup.py:77 | Whatever else the file holds, an occurrence of the template placeholder `VAR=your_` reports the variable missing, even when another line sets it. |

## Left out

- The Streamlit UI (`main.py`) and the walkthrough script (`demo.py`) are interface and I/O. The 300-character source preview of `main.py` has the shape of `ChatSystem.Preview` with limit 300. The previews of `demo.py` always append "..." and are not modelled.
- The parts of `setup.py` that install with pip, create directories and probe imports are process and filesystem plumbing.
- `RecursiveCharacterTextSplitter` is a parameter: its chunk sizes and overlap are library behaviour.
- PyPDF2 extraction, the HTTP fetch and BeautifulSoup parsing are inputs (page texts, page text, or an exception), not modelled.
- OpenAI embeddings and chat, and the LangChain chains, are external services. `chat` sees the chain only as its outcome for a question.
- The windowing of `ConversationBufferWindowMemory` (k = 5) is library code. Memory is the full message list, and the chain's own appends to memory are not modelled.
- Chroma's similarity ranking is a parameter (the searcher).
- `st.error`, `st.success` and `print` have only side effects, so they are not modelled.
- Environment loading in `config.py` is not modelled. Only its constants are used.
- VectorStore.Ready: `VectorStore.Truthy` assumes that the `Chroma` wrapper defines `__len__` as its collection's document count. That library code is not part of this model. Under the assumption, an initialised store with an empty collection tests false, and the next operation initialises it again. Without such a `__len__`, only a missing handle would test false. The outcome of the `len` call (`Calls.length`) is an input that may raise. What it counts is not modelled: a call that succeeds is taken to count the collection the model holds.
- VectorStore.AddDocuments: an exception part-way through an add leaves the collection unchanged in the model, whereas Chroma may have stored some of the documents.
- Paths.Extension: only the POSIX `splitext` is modelled (separator '/'). The Windows variant with '\\' and drive letters is not.
- Strings.Lower: only ASCII letters are lowered. Python's full Unicode `lower()` differs only on characters that cannot produce ".pdf", ".txt", ".md" or ".docx", so dispatch and validation are exact.
- Setup.CreateEnvFile: an exception raised by the copy itself propagates in the source and is not modelled.
- ChatSystem.ChatHistory: the outer exception handler of `get_chat_history` is not modelled, because reading a list of messages cannot raise there.
- ChatSystem.GetContextInfo: of the outer exception handler, only the raising truthiness test is modelled. The search inside catches its own exceptions, and building the entries from documents is taken not to raise.
- ChatSystem.ClearMemory: the exception handler around `memory.clear()` is not modelled; clearing is taken to succeed.

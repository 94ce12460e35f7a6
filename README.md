# A verified model of a Streamlit RAG chat front-end

The application is a single-user chat front-end for a local Ollama server. It
keeps chat sessions and their messages in SQLite. It can ingest uploaded PDFs
into a Chroma collection and answer with the retrieved text as context. It also
recognises a few slash commands. This project models its sequential core in
Dafny and proves properties of that model:

- `chat_store.dfy` (module `ChatStore`) models `database_operations.py`. The
  `chat_sessions` and `messages` tables are sequences of rows in rowid order,
  and the two AUTOINCREMENT counters are fields. The class `ChatStore.Store`
  holds them as mutable state. Its methods are proved against pure functions
  over a `Tables` value: `SaveText`, `History`, `RecentTurns`, `SessionKeys`
  and `Delete`. The invariant `TablesValid` holds the schema rules: ascending
  positive ids below their counters, `UNIQUE(session_key, user_id)` and the
  foreign key from messages to sessions. It also holds one rule that the
  schema leaves open and the code keeps: `text_content` is nullable, but every
  text row carries its text, because `save_text_message` always passes a
  string. Each write, commit and read that can fail is a boolean parameter.
- `utils.dfy` (module `Utils`) models `utils.py`: `command` dispatch, the
  `list_ollama_models` filter and its fall-backs, `get_avatar`, and the base64
  data URI.
- `ingestion.dfy` (module `Ingestion`) models `pdf_handler.py` and the
  collection effect of `vectordb_handler.py`. The PDF library and the text
  splitter are function parameters. The Chroma collection is the class
  `Ingestion.VectorStore`, which holds a sequence of documents. `load_vectordb`
  empties it, unless the delete raises: its handler swallows every exception,
  and the old collection is then kept. How a load ends is a parameter.
- `app.dfy` (module `App`) models `app.py`. It covers the session-key state
  machine in `st.session_state` as the class `App.SessionState`, the Ollama
  chat request, the "never raise" reply contract and one chat turn. The HTTP
  backend is a function from request to reply. `uuid4()` is a parameter. Both
  chat functions wrap the HTTP call in `try`/`except Exception` and return
  `Error: …` (app.py:123-131 and 152-160), so a failed backend still yields a
  saved reply. Retrieval runs before that `try` (app.py:99-103), so a failure
  of `load_vectordb` or `similarity_search` escapes `main` and nothing is
  saved.
- `strings.dfy` (module `Strings`) holds the Python string operations the code
  relies on: `strip()`, `split(sep)`, `sep.join`, `in` and `endswith`.
  `base64.dfy` (module `Base64`) holds base64 with padding as in section 4 of
  RFC 4648, with a decoder proved to invert it. `wrappers.dfy` (module
  `Wrappers`) holds `Option`, sequence filtering (the SQL `WHERE`) and reversal.

Some pure functions define meaning and have no contract of their own, so they
have no row below. In `ChatStore`: `SessionRows`, `History`, `TextRows`,
`NewestTextRows`, `RecentTextRows`, `RecentTurns`, `UserSessions`,
`SessionKeys`, `AppendText`, `SaveText` and `Delete`, from
database_operations.py:20-250. In `Ingestion`: `Chunks`, `ChunkCount`,
`Reloaded`, `Stores`, `Uploads`, `AfterAdd`, `FolderItem`, `FolderRun`,
`ProcessedPdfs` and `AlwaysDrops`. In `App`:
`PlainRequest`, `RagRequest`, `SystemMessage`, `Context`, `RagAnswer`,
`RagRequestAsWritten`, `TurnAnswer` and `TurnTables`. In `Strings`:
`JoinOffset`. The lemmas in the table state what these functions do. The
per-row mappings `ChatStore.LoadAll`, `ChatStore.TurnsOf`, `ChatStore.KeysOf`,
`Ingestion.DocumentsOf` and `App.PageContents` are helpers, and the lemmas
about the queries that use them carry their meaning.

## Model

| member | source | states |
|---|---|---|
| `ChatStore.FindSession` | database_operations.py:39-43 | The lookup fails exactly when no row has the key and user. When it succeeds, it returns the id of a row that has them. |
| `ChatStore.LimitCount` | database_operations.py:153-162 | `LIMIT k` never yields more rows than exist. A negative k means no limit. |
| `ChatStore.TextRowsHaveText` | database_operations.py:63-68 | Every text row of a session, and so every recent row, has a text column. |
| `ChatStore.NewestReversedIsRecent` | database_operations.py:153-171 | Reversing the rows fetched newest first with `LIMIT k` gives the last k text rows in chronological order. |
| `ChatStore.NewestRowsDescending` | database_operations.py:153-162 | The page fetched with `ORDER BY message_id DESC` is strictly descending by message id. |
| `ChatStore.FilterKeysUnique` | database_operations.py:265 | Removing rows keeps `UNIQUE(session_key, user_id)`. |
| `ChatStore.FilterSessionsValid` | database_operations.py:259-267 | Removing session rows keeps the session-table invariant. |
| `ChatStore.SaveTextValid` | database_operations.py:20-74 | Every outcome of `save_text_message` keeps the schema invariant. |
| `ChatStore.DeleteKeepsForeignKeys` | database_operations.py:231-241 | After the delete, every remaining message still refers to an existing session. |
| `ChatStore.DeleteKeepsMessageRows` | database_operations.py:232-235 | The remaining messages keep ids below the counter, and text rows keep their text. |
| `ChatStore.DeleteValid` | database_operations.py:205-250 | Every outcome of `delete_chat_history` keeps the schema invariant. |
| `ChatStore.FindSessionAppend` | database_operations.py:45-58 | After a session row is inserted, the re-select finds an earlier matching row if there is one, and otherwise the new row. |
| `ChatStore.FindSessionOfRow` | database_operations.py:265 | Because of the unique pair, looking up a row's own key and user finds that row. |
| `ChatStore.FindSessionDistinct` | database_operations.py:265 | Two different (key, user) pairs resolve to two different session ids. |
| `ChatStore.NoRowsForNextSession` | database_operations.py:261 | No message refers to the id the next session will get, so a new session starts empty. |
| `ChatStore.LoadAllAppend` | database_operations.py:109-116 | Loading rows plus one more row appends that row's entry. |
| `ChatStore.SaveIgnoresTrailingSpace` | database_operations.py:35 | A key with extra trailing white space saves exactly like the key without it. |
| `ChatStore.SaveEffect` | database_operations.py:35-72 | The function returns True exactly when a session exists or was created and the message insert succeeded. On success it appends one text message with the given sender and text to that session, and both counters behave as AUTOINCREMENT. On failure the messages and the counter are unchanged. Sessions gain at most the one committed new row. |
| `ChatStore.SaveFailureKeepsNewSession` | database_operations.py:51 | If the message insert fails after a new session was committed, the result is False but the new session row stays. |
| `ChatStore.SaveTwiceOneSession` | database_operations.py:39-60 | Two saves under the same stripped key create at most one session. The second save reuses the first one's session. If both succeed, the messages are two consecutive rows of that session, in call order. |
| `ChatStore.SaveAppendsToHistory` | database_operations.py:63-68 | After a successful save, the loaded history of the stripped key is the old history plus the new text message. |
| `ChatStore.SaveLeavesOtherHistories` | database_operations.py:63-68 | A save changes no history of any other (key, user) pair. |
| `ChatStore.HistoryShape` | database_operations.py:98-116 | An unknown session loads []. Otherwise there is one entry per row of the session, in ascending id (rowid) order, with the row's id, sender and type. Text rows carry their text, and every message of the session is among them. |
| `ChatStore.FindSessionAfterRemoval` | database_operations.py:238-241 | Deleting a session row changes no other pair's lookup. |
| `ChatStore.FindSessionRemoved` | database_operations.py:238-241 | After its row is deleted, the deleted pair no longer resolves. |
| `ChatStore.DeleteEffect` | database_operations.py:227-248 | The function returns True exactly when the session exists and the transaction commits. Otherwise nothing changes. After a successful delete, `load_messages` returns [] and the key is no longer listed. The counters are not reset. |
| `ChatStore.DeleteLeavesOthers` | database_operations.py:232-241 | A delete changes no other pair's history, and no other key's presence in the list. |
| `ChatStore.ListedKeyIsKnown` | database_operations.py:193-198 | Each listed key resolves to the user's session at the mirrored position in rowid order. |
| `ChatStore.KnownKeyIsListed` | database_operations.py:193-198 | Every key the user has a session under is listed. |
| `ChatStore.SessionKeysExact` | database_operations.py:193-198 | A key is listed for a user exactly when that user has a session under it. |
| `ChatStore.ListedPairNewestFirst` | database_operations.py:194 | The list is strictly descending by session id, newest first: of any two listed keys, the earlier one resolves to the larger session id. |
| `ChatStore.RecentRowsAreNewest` | database_operations.py:153-171 | The function returns min(k, n) rows, or all n rows when k is negative. They are text rows of the session, in ascending id order. Every text row left out is older than every row returned. |
| `ChatStore.ThreeMessagesValid` | database_operations.py:259-281 | The three-message example database satisfies the schema invariant. |
| `ChatStore.LastTwoRows` | database_operations.py:153-171 | In the example, the key resolves and the last two text rows are those with ids 2 and 3. |
| `ChatStore.LastTwoOfThree` | database_operations.py:148-173 | Concrete case: for messages 1..3 and k = 2, the function returns messages 2 and 3, oldest first. |
| `ChatStore.SaveKeepsKeysStripped` | database_operations.py:35 | Saving stores only stripped keys. |
| `ChatStore.DeleteKeepsKeysStripped` | database_operations.py:238-241 | Deleting keeps every stored key stripped. |
| `ChatStore.UnstrippedKeyFindsNothing` | database_operations.py:92-100 | `load_messages`, `load_last_k_text_messages_ollama` and `delete_chat_history` do not strip. A key with surrounding white space finds no session: it loads [] and the delete returns False. |
| `ChatStore.Store.constructor` | database_operations.py:259-281 | A new database has empty tables, counters at 1, and satisfies the invariant. |
| `ChatStore.Store.SaveTextMessage` | database_operations.py:20-74 | The new tables and the returned flag are `SaveText` of the old tables, and the invariant is kept. |
| `ChatStore.Store.LoadMessages` | database_operations.py:76-123 | The loop builds `History` of the current tables, or [] when the read fails. |
| `ChatStore.Store.LoadLastKTextMessages` | database_operations.py:125-178 | The reversed loop over the newest-first rows builds `RecentTurns`, or [] when the read fails. |
| `ChatStore.Store.GetAllChatHistoryIds` | database_operations.py:180-203 | The method returns `SessionKeys` of the current tables, or [] when the read fails. |
| `ChatStore.Store.DeleteChatHistory` | database_operations.py:205-250 | The new tables and the flag are `Delete` of the old tables, and the invariant is kept. |
| `Strings.StripShape` | database_operations.py:35 | `strip()` removes white space from the two ends only and leaves no white space at either end. |
| `Strings.StripTrailingSpace` | database_operations.py:35 | One more trailing white-space character does not change the stripped key. |
| `Strings.StripOfStripped` | database_operations.py:35 | A string with no white space at either end strips to itself. |
| `Strings.StripIdempotent` | database_operations.py:35 | Stripping twice is the same as stripping once. |
| `Strings.Split` | utils.py:42 | `split(" ")` always has at least one piece, and no piece contains the separator. |
| `Strings.JoinSplit` | utils.py:42 | Joining the pieces with the separator rebuilds the input. |
| `Strings.SplitNoSeparator` | utils.py:42 | A string without the separator is a single piece. |
| `Strings.SplitAtSeparator` | utils.py:42 | Splitting a + sep + b is splitting a, then splitting b. |
| `Strings.SplitJoin` | pdf_handler.py:23-26 | Splitting a join of pieces that hold no separator gives the pieces back. |
| `Strings.JoinPartAt` | pdf_handler.py:23-26 | Every part occurs in the join at its offset, after the earlier parts and their separators, whatever the parts hold. |
| `Base64.Encode` | utils.py:164-166 | The encoding has 4 characters per started group of 3 bytes. |
| `Base64.DecodeEncode` | utils.py:164-166 | Decoding the encoding of any byte string gives the bytes back. |
| `Base64.EncodeAlphabet` | utils.py:164-166 | Every character of an encoding is a base64 digit or '='. |
| `Base64.EncodeTestVectors` | utils.py:164-166 | The encoder gives the test vectors of section 10 of RFC 4648, "f" to "foobar". |
| `Utils.Command` | utils.py:40-53 | The result is a pull exactly when the first token is "/pull" and a second token exists. The pulled name has no space. The result is a model list exactly when the first token is "/list", and the help text exactly when it is "/help". Every other input gets the invalid-command text. |
| `Utils.SplitSingleSpace` | utils.py:42 | A first token without spaces, followed by one space, splits off as the first piece. |
| `Utils.PullSecondToken` | utils.py:43-44 | "/pull NAME" and "/pull NAME rest" pull exactly NAME. |
| `Utils.PullShape` | utils.py:42-44 | Conversely, a pull comes only from "/pull", one space, the name, then nothing or a space and anything. |
| `Utils.PullAloneInvalid` | utils.py:49-53 | "/pull" with no argument gets the invalid-command text. |
| `Utils.PullTrailingSpace` | utils.py:42-44 | "/pull " with a trailing space pulls the empty name. |
| `Utils.ListAndHelpIgnoreRest` | utils.py:45-48 | "/list" and "/help" act the same whatever follows them after a space. |
| `Utils.LeadingSpaceInvalid` | utils.py:42 | Any input that starts with a space is invalid. |
| `Utils.UnknownCommandInvalid` | utils.py:49-53 | A first token that is not one of the three commands gets the invalid-command text. |
| `Utils.ChatModels` | utils.py:144 | A name is kept exactly when it does not contain "embed". |
| `Utils.ChatModelsAppend` | utils.py:144 | The filter keeps response order: it distributes over concatenation. |
| `Utils.ListOllamaModels` | utils.py:128-149 | A request exception gives ["bge-m3:latest"], a body with a truthy error gives [], and otherwise the result is the filtered names. |
| `Utils.EmbeddingModelDropped` | utils.py:144 | Concrete case: "nomic-embed-text:latest" is dropped and "llama3:latest" is kept. |
| `Utils.GetAvatar` | utils.py:176-189 | The user icon is returned exactly for "user", and the bot icon for every other sender. |
| `Utils.ConvertBytesToBase64` | utils.py:164-166 | The text has 4 characters per started group of 3 bytes and decodes back to the bytes. |
| `Utils.ConvertBytesToBase64WithPrefix` | utils.py:168-170 | The result starts with "data:image/jpeg;base64,". The rest decodes back to the bytes. |
| `Ingestion.ExtractTextFromPdf` | pdf_handler.py:21-30 | A library exception gives "". No pages gives "". A single page gives that page's text. |
| `Ingestion.ExtractedPagesRecoverable` | pdf_handler.py:23-26 | When no page holds a newline, splitting the result on newlines gives the pages back in page order. |
| `Ingestion.ExtractedPageAt` | pdf_handler.py:23-26 | Whatever the pages hold, page k occurs in the extracted text right after the earlier pages and their newlines. |
| `Ingestion.GetPdfTexts` | pdf_handler.py:42 | There is one text per input file, in input order, each extracted from that file. |
| `Ingestion.GetPdfTextsAppend` | pdf_handler.py:42 | Extracting from a + b gives the texts of a, then the texts of b. |
| `Ingestion.ChunksAppend` | pdf_handler.py:71-75 | The chunks of a + b are the chunks of a followed by those of b. |
| `Ingestion.ChunksLength` | pdf_handler.py:71-75 | The output length is the sum of the splitter's chunk counts. No texts gives no documents. |
| `Ingestion.ChunkPosition` | pdf_handler.py:71-75 | Chunk j of text i is at the position after all chunks of the earlier texts, plus j. |
| `Ingestion.GetDocumentChunks` | pdf_handler.py:61-75 | The nested loop produces exactly `Chunks` of the texts. |
| `Ingestion.VectorStore.constructor` | vectordb_handler.py:50-54 | A new collection is empty. |
| `Ingestion.VectorStore.LoadVectorDb` | vectordb_handler.py:20-56 | Loading empties the collection when the delete succeeds (or there was none). A delete that raises is swallowed, and the collection keeps its documents. The call reports whether a collection was returned or a step raised. |
| `Ingestion.VectorStore.AddDocuments` | pdf_handler.py:100 | A successful add appends the batch. A failed add changes nothing. |
| `Ingestion.BatchCollection` | pdf_handler.py:88-104 | When the reload dropped the old collection, the collection holds exactly that batch's chunks if they were stored, and nothing otherwise. |
| `Ingestion.ReadAll` | pdf_handler.py:90 | Reading succeeds exactly when every item is an uploaded file, and then yields each file's bytes, in order. |
| `Ingestion.ReadUploads` | pdf_handler.py:90 | Reading the uploader's files gives back their contents. |
| `Ingestion.AddDocumentsToDb` | pdf_handler.py:77-104 | An item without `.read()` raises before the collection is loaded, and the handler leaves the collection as it was. Otherwise extract, chunk, reload and add leave `BatchCollection` of the contents when the reload dropped the collection. When the delete raised and was swallowed, they leave the old documents followed by `BatchCollection`. The chunks count as stored only when the reload returned a collection and the add did not raise. No error escapes. |
| `Ingestion.RawBytesChangeNothing` | pdf_handler.py:88-104 | A batch holding a bare `bytes` item leaves the collection as it was. |
| `Ingestion.BatchCollectionRepeat` | pdf_handler.py:88-104 | When the reload drops the collection, adding uploaded files leaves `BatchCollection` of them, whatever the collection held before. Adding the same batch a second time then leaves what the first add left. |
| `Ingestion.UploadAfterFailedDelete` | pdf_handler.py:88-104 | When the delete raises and is swallowed, the documents already stored stay, in order, and the batch's stored chunks follow them. |
| `Ingestion.AllReadableAllProcessed` | pdf_handler.py:117-122 | When every file is readable, the loop processes exactly the entries whose names end in ".pdf", each once and in listing order. |
| `Ingestion.ProcessedOnlyPdfs` | pdf_handler.py:117-122 | The loop walks the entries whose names end in ".pdf" in listing order. The processed contents are those of the first such entries, one each. When it stops before the last such entry, that entry could not be read. |
| `Ingestion.FolderRunAsWrittenKeepsCollection` | pdf_handler.py:117-122 | As written, the loop makes one call per processed PDF and never changes the collection, because every call is handed bare bytes. |
| `Ingestion.OneReadablePdfAddsNothing` | pdf_handler.py:117-122 | As written, a folder holding one readable "a.pdf" leaves any collection as it was, after one call. |
| `Ingestion.OnlyLastFileRemains` | pdf_handler.py:117-122 | With file-like items and every reload dropping the collection, the loop makes one add per processed PDF. Only the last processed file's chunks remain, or nothing if they were not stored. With no PDF processed, the collection is untouched. |
| `Ingestion.OnlyLastFileStep` | pdf_handler.py:118-122 | With every reload dropping the collection, adding a readable first PDF and then the rest of the listing leaves only the last processed file's chunks. |
| `Ingestion.FolderRunReadablePdf` | pdf_handler.py:118-122 | With file-like items, a readable PDF entry is added on its own. The loop then goes on with the next entry, from what the reload left followed by the entry's stored chunks. |
| `Ingestion.ProcessPdfFolder` | pdf_handler.py:106-125 | The loop leaves the collection as `FolderRun` describes. If the folder cannot be listed, the collection is unchanged. With the bare bytes of line 122, the collection never changes. |
| `App.GetKey` | app.py:55-61 | Outside "new_session", the selected key is returned and nothing changes. In "new_session", the function returns the pending key, which is created from the uuid only when none exists. Only the pending key can change. |
| `App.GetKeyStable` | app.py:57-60 | A second call returns the same key and the same state, whatever uuid it would draw. |
| `App.TrackerStep` | app.py:178-180 | In "new_session" with a pending key, the tracker takes that key and the pending key is cleared. In every other state, nothing changes. |
| `App.TrackerAdoptsNewKey` | app.py:178-180 | The key a new chat was saved under is the one the tracker follows on the next run. |
| `App.IndexOf` | app.py:190 | `list.index` gives the first position of the value, and fails exactly when the value is absent. |
| `App.SessionIndex` | app.py:189-194 | The index points at the tracker's first position in ["new_session"] + ids. An unlisted tracker falls back to "new_session" at index 0. |
| `App.DefaultModel` | app.py:175 | The default is the first option, or "qwen2.5:latest" when there are none. |
| `App.RoleOf` | app.py:110 | The role is "user" exactly for sender "user", and "assistant" otherwise. |
| `App.HistoryMessages` | app.py:138-143 | The list has len(history) + 1 entries. Entry i has role "user" exactly when history[i] is from "user", and carries its content. The last entry is the user's input. |
| `App.RagRequestExtendsPlain` | app.py:104-121 | The RAG request is the plain one with one system message in front, so it has len(history) + 2 entries. Neither request streams. |
| `App.SystemMessageCarriesPages` | app.py:104-106 | The system message starts with the fixed prefix. When no page holds a newline, splitting the rest on newlines gives the retrieved pages back. |
| `App.RetrievedPageAt` | app.py:104-106 | Whatever the pages hold, retrieved page i occurs in the system message right after the prefix, the earlier pages and their newlines. |
| `App.AnswerOf` | app.py:123-131 | A reply's content is returned verbatim. A failure gives "Error: " followed by the exception text. |
| `App.BuildMessages` | app.py:108-114 | The loop appends exactly `HistoryMessages` after the given prefix. |
| `App.ChatWithoutRag` | app.py:133-160 | The answer is `AnswerOf` the backend's reply to the plain request. |
| `App.Retrieve` | app.py:100-103 | The search yields at most as many documents as it picked, all from the collection. |
| `App.RetrieveFromEmpty` | app.py:99-103 | Nothing can be retrieved from an empty collection. |
| `App.RetrieveKeepsPick` | app.py:100-103 | Every picked position inside the collection yields a retrieved document. |
| `App.ChatWithRagAsWritten` | app.py:97-131 | As written, the collection is emptied, unless the delete raised and was swallowed. A load or a search that raises escapes the call. Otherwise the answer is the reply to the request built from the search. When the drop succeeded, that search is of the empty collection. |
| `App.AsWrittenContextAlwaysEmpty` | app.py:99-106 | As written, whatever the search picks, the system message is the bare prefix. |
| `App.ChatWithRag` | app.py:97-131 | With the collection kept, a failing search raises out of the call. Otherwise the answer is the reply to the RAG request built from the documents retrieved from the stored collection. |
| `App.RetrievedDocumentReachesModel` | app.py:100-106 | Every stored document the search picks is retrieved, and its text appears in the system message. |
| `App.SessionState.constructor` | app.py:167-175 | The first run starts in "new_session" with no pending key, tracker "new_session", uploader key 0 and PDF chat off. The model options come from `list_ollama_models`, and the default model is chosen from them. |
| `App.SessionState.GetSessionKey` | app.py:55-61 | The returned key and the new key state are `GetKey` of the old state. No other entry changes. |
| `App.SessionState.DeleteChatSessionHistory` | app.py:67-71 | The current key's history is deleted as `Delete` describes. The state then returns to "new_session" with no pending key. |
| `App.SessionState.TogglePdfChat` | app.py:77-80 | PDF chat is on, and nothing else changes. |
| `App.SessionState.DetogglePdfChat` | app.py:82-84 | PDF chat is off, and nothing else changes. |
| `App.SessionState.UpdateModelOptions` | app.py:93-95 | The options are replaced by `list_ollama_models`. |
| `App.SessionState.UpdateTracker` | app.py:178-180 | The key state becomes `TrackerStep` of the old one. |
| `App.SessionState.SelectSession` | app.py:186-196 | The tracker and index are `SessionIndex` over the listed keys. `session_key` becomes the picked entry, or else the entry at the index. |
| `App.SessionState.ProcessUploads` | app.py:217-220 | A non-empty upload leaves the collection as `BatchCollection` when the reload dropped it. When the delete raised, the upload leaves the old documents followed by `BatchCollection`. Either way it adds 2 to the uploader key. An empty upload changes nothing. |
| `App.TurnSavesUserThenAssistant` | app.py:242-243 | A turn creates at most one session. When both message writes succeed, it appends the user's message and then the answer, as consecutive rows of one session. |
| `App.FirstTurnScenario` | app.py:229-243 | On an empty database, "Hello" in plain mode sends just that message. The store ends with ("user", "Hello") as message 1 and the reply as message 2, in session 1. |
| `App.ProcessInput` | app.py:229-243 | An empty input does nothing. Otherwise the turn draws the key, loads the recent history of that key and computes the answer from it. With an answer, it saves the user's message and then the answer under that key. When the RAG search raises, nothing is saved. Plain mode always yields an answer. |
| `App.SaveTurn` | app.py:242-243 | The user's message and then the answer are saved as `TurnTables` describes, under the key `get_session_key` returns. The key state advances as `GetKey` says, and nothing else in the session state changes. |

## Left out

- Connections, logging, `print`, the `users` table, `created_at` timestamps and the `PRAGMA`: these are storage plumbing. Each storage step that can fail is reduced to a boolean outcome.
- Streamlit rendering, CSS, the sidebar widgets other than the session selectbox, `clear_cache`, `st.rerun` and the exclusive-or display condition (app.py:246-256): these are UI.
- `pull_ollama_model`, `pull_ollama_model_async`, `pull_model_in_background` and `list_openai_models`: these are network and concurrency code. `Utils.Command` returns the requested model name instead of a pull task.
- HTTP transport to Ollama: the backend is a function from request to reply, and every exception becomes `Failed` with its text.
- Chroma internals, embeddings and similarity ranking: the search is a function that picks positions in the collection, or reports that embedding the query raised. How `load_vectordb` ends is a parameter: whether the old collection was dropped and whether a collection was returned. The embedding step of an add either succeeds for the whole batch or fails.
- pypdfium2 and `RecursiveCharacterTextSplitter`: these are function parameters. Chunk sizes and overlap are therefore not modelled, and neither are any properties of the splitter's output.
- `load_config`, `convert_ns_to_seconds`, `timeit` and `get_timestamp`: these are file I/O, floating point and clocks. The memory length is a parameter. The number of retrieved documents is not: the search stands for `similarity_search` with that `k`, and the model does not bound how many positions it picks. `App.Retrieve` keeps at most as many documents as there are picks.
- prompt_templates.py is not part of this model: nothing here uses its constants.
- Utils.ListOllamaModels: a decoded body without a `models` field, or a model entry without a `name`, raises a `KeyError`. The handler at utils.py:147 catches only `RequestException`, so this error escapes, and this path is not modelled. A body that is not JSON raises `requests.exceptions.JSONDecodeError`, which is a `RequestException`, so it is caught and falls under `RequestFailed`.
- ChatStore.Store: blob messages are never written by this code, so only `load_messages` handles them.
- Ingestion.ProcessPdfFolder: `os.listdir` order is arbitrary. The listing is a parameter, in the order the loop sees it.
- App.SessionState.SelectSession: Streamlit's widget state is reduced to the user's pick or, without one, the entry at the index.
- App.ProcessInput: the turn uses `App.ChatWithRag`, which keeps the collection (see Findings). `App.ChatWithRagAsWritten` models the source as written.

## Findings

| source | as written | input that shows it | evidently intended | confidence | as-written member | corrected member |
|---|---|---|---|---|---|---|
| app.py:99 | `chat_with_rag` calls `load_vectordb()`, which deletes the collection (vectordb_handler.py:47) before the similarity search | upload any PDF, then ask a question with PDF chat on: when the delete succeeds, the search runs on an empty collection, so the system message is the bare prefix with an empty context | open the collection the uploads filled, without dropping it, and search that | high; not executed | `App.AsWrittenContextAlwaysEmpty` | `App.RetrievedDocumentReachesModel` |
| pdf_handler.py:122 | `process_pdf_folder` hands `add_documents_to_db` the bytes it read, but line 90 calls `.read()` on every item; `bytes` has no `.read()`, so each call raises an AttributeError that lines 103-104 catch before the collection is loaded | a folder holding one readable "a.pdf": the run makes one call and leaves the collection exactly as it was | hand each PDF over as a file-like object (the open file, or the bytes wrapped in `io.BytesIO`), so that its chunks are added (each add still drops the collection first, so the last file's chunks remain) | high; not executed | `Ingestion.OneReadablePdfAddsNothing` | `Ingestion.OnlyLastFileRemains` |

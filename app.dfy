/** The per-run logic of `app.py`: the session-key state kept in Streamlit's
    session state, the request sent to Ollama's chat endpoint, and one chat
    turn. Widgets, rendering and the HTTP transport are not modelled: the
    backend is a function from request to reply, and `uuid4` is a parameter. */
module App {
  import opened Wrappers
  import Strings
  import ChatStore
  import Utils
  import Ingestion

  const NewSession: string := "new_session"
  const FallbackChatModel: string := "qwen2.5:latest"

  /** `get_user_id`: there is one user. */
  const UserId: int := 1

  // ---------------------------------------------------------------------------
  // Session-key state

  /** The three session-state entries that decide which chat is shown and
      where messages go. */
  datatype KeyState = KeyState(sessionKey: string, newSessionKey: Option<string>, tracker: string)

  /** `get_session_key`: in the "new_session" state, a pending key is created
      from `uuid` only if none exists yet, and returned; otherwise the selected
      key is returned. Only the pending key can change. */
  function GetKey(s: KeyState, uuid: string): (r: (string, KeyState))
    ensures r.1.sessionKey == s.sessionKey && r.1.tracker == s.tracker
    ensures s.sessionKey != NewSession ==> r == (s.sessionKey, s)
    ensures s.sessionKey == NewSession ==> r.1.newSessionKey == Some(r.0)
    ensures s.sessionKey == NewSession && s.newSessionKey.None? ==> r.0 == uuid
    ensures s.newSessionKey.Some? ==> r.1 == s
  {
    if s.sessionKey == NewSession then
      if s.newSessionKey.None? then (uuid, s.(newSessionKey := Some(uuid)))
      else (s.newSessionKey.value, s)
    else (s.sessionKey, s)
  }

  /** Asking again, whatever uuid would be drawn, returns the same key and
      changes nothing: every call of one run sees one key. */
  lemma GetKeyStable(s: KeyState, uuid1: string, uuid2: string)
    ensures GetKey(GetKey(s, uuid1).1, uuid2) == GetKey(s, uuid1)
  {
  }

  /** Lines 178-180 of `main`: a pending key becomes the tracked session and
      stops being pending. Nothing else changes. */
  function TrackerStep(s: KeyState): (r: KeyState)
    ensures r.sessionKey == s.sessionKey
    ensures s.sessionKey == NewSession && s.newSessionKey.Some? ==>
      r.tracker == s.newSessionKey.value && r.newSessionKey.None?
    ensures !(s.sessionKey == NewSession && s.newSessionKey.Some?) ==> r == s
  {
    if s.sessionKey == NewSession && s.newSessionKey.Some? then
      s.(tracker := s.newSessionKey.value, newSessionKey := None)
    else s
  }

  /** The key a new chat was saved under is the one the tracker follows on the
      next run. */
  lemma TrackerAdoptsNewKey(s: KeyState, uuid: string)
    requires s.sessionKey == NewSession
    ensures TrackerStep(GetKey(s, uuid).1).tracker == GetKey(s, uuid).0
    ensures TrackerStep(GetKey(s, uuid).1).newSessionKey.None?
  {
  }

  /** The first index of `x` in `s`, as `list.index` finds it. */
  function IndexOf(s: seq<string>, x: string): (r: Option<nat>)
    ensures r.None? <==> x !in s
    ensures r.Some? ==> r.value < |s| && s[r.value] == x && forall j :: 0 <= j < r.value ==> s[j] != x
  {
    if |s| == 0 then None
    else if s[0] == x then Some(0)
    else match IndexOf(s[1..], x)
      case None => None
      case Some(i) => Some(i + 1)
  }

  /** The session list of the sidebar: "new_session" and then the user's keys,
      newest first. */
  function ChatSessions(ids: seq<string>): seq<string> {
    [NewSession] + ids
  }

  /** Lines 189-194 of `main`: the tracker and the index the selectbox opens
      at. A tracker that is not listed falls back to "new_session" at index 0. */
  function SessionIndex(tracker: string, ids: seq<string>): (r: (string, nat))
    ensures r.1 < |ChatSessions(ids)| && ChatSessions(ids)[r.1] == r.0
    ensures tracker in ChatSessions(ids) ==> r.0 == tracker && forall j :: 0 <= j < r.1 ==> ChatSessions(ids)[j] != tracker
    ensures tracker !in ChatSessions(ids) ==> r == (NewSession, 0)
  {
    match IndexOf(ChatSessions(ids), tracker)
    case Some(i) => (tracker, i)
    case None => (NewSession, 0)
  }

  /** The default model: the first option, or the fall-back when there is none. */
  function DefaultModel(options: seq<string>): (r: string)
    ensures |options| > 0 ==> r == options[0]
    ensures |options| == 0 ==> r == FallbackChatModel
    ensures r in options || (options == [] && r == FallbackChatModel)
  {
    if |options| > 0 then options[0] else FallbackChatModel
  }

  // ---------------------------------------------------------------------------
  // The Ollama chat request

  datatype ChatMessage = ChatMessage(role: string, content: string)
  datatype ChatRequest = ChatRequest(model: string, messages: seq<ChatMessage>, stream: bool)

  /** What the POST to `/api/chat` yields: the reply content, or an exception
      (transport, HTTP status, or a body without `message.content`) with its
      text. */
  datatype BackendReply = Replied(content: string) | Failed(reason: string)

  function RoleOf(senderType: string): (r: string)
    ensures r == "user" <==> senderType == "user"
    ensures r == "assistant" <==> senderType != "user"
  {
    if senderType == "user" then "user" else "assistant"
  }

  /** The history in Ollama's format, followed by the new user turn. */
  function HistoryMessages(history: seq<ChatStore.Turn>, userInput: string): (r: seq<ChatMessage>)
    ensures |r| == |history| + 1
    ensures forall i :: 0 <= i < |history| ==>
      (r[i].role == "user" <==> history[i].senderType == "user")
      && (r[i].role == "assistant" <==> history[i].senderType != "user")
      && r[i].content == history[i].content
    ensures r[|history|] == ChatMessage("user", userInput)
  {
    seq(|history|, i requires 0 <= i < |history| => ChatMessage(RoleOf(history[i].senderType), history[i].content))
      + [ChatMessage("user", userInput)]
  }

  const SystemPrefix: string := "You are a helpful assistant. Base your answers on the following context: "

  /** Line 104: the retrieved page contents joined by newlines. */
  function Context(retrieved: seq<Ingestion.Document>): string {
    Strings.Join(PageContents(retrieved), "\n")
  }

  function PageContents(docs: seq<Ingestion.Document>): (r: seq<string>)
    ensures |r| == |docs| && forall i :: 0 <= i < |docs| ==> r[i] == docs[i].pageContent
  {
    seq(|docs|, i requires 0 <= i < |docs| => docs[i].pageContent)
  }

  function SystemMessage(retrieved: seq<Ingestion.Document>): ChatMessage {
    ChatMessage("system", SystemPrefix + Context(retrieved))
  }

  /** The request of `chat_without_rag`. */
  function PlainRequest(model: string, history: seq<ChatStore.Turn>, userInput: string): ChatRequest {
    ChatRequest(model, HistoryMessages(history, userInput), false)
  }

  /** The request of `chat_with_rag`, given the retrieved documents. */
  function RagRequest(model: string, retrieved: seq<Ingestion.Document>, history: seq<ChatStore.Turn>, userInput: string): ChatRequest {
    ChatRequest(model, [SystemMessage(retrieved)] + HistoryMessages(history, userInput), false)
  }

  /** The RAG request is the plain one with one system message in front, so it
      is two longer than the history; neither streams. */
  lemma RagRequestExtendsPlain(model: string, retrieved: seq<Ingestion.Document>, history: seq<ChatStore.Turn>, userInput: string)
    ensures RagRequest(model, retrieved, history, userInput).messages
         == [SystemMessage(retrieved)] + PlainRequest(model, history, userInput).messages
    ensures |RagRequest(model, retrieved, history, userInput).messages| == |history| + 2
    ensures RagRequest(model, retrieved, history, userInput).messages[0].role == "system"
    ensures !RagRequest(model, retrieved, history, userInput).stream && !PlainRequest(model, history, userInput).stream
  {
  }

  /** When no retrieved page holds a newline, the pages can be read back from
      the system message, in retrieval order. */
  lemma SystemMessageCarriesPages(retrieved: seq<Ingestion.Document>)
    requires |retrieved| >= 1
    requires forall k, j :: 0 <= k < |retrieved| && 0 <= j < |retrieved[k].pageContent| ==> retrieved[k].pageContent[j] != '\n'
    ensures SystemMessage(retrieved).content[..|SystemPrefix|] == SystemPrefix
    ensures Strings.Split(SystemMessage(retrieved).content[|SystemPrefix|..], '\n') == PageContents(retrieved)
  {
    var c := SystemMessage(retrieved).content;
    assert c[|SystemPrefix|..] == Context(retrieved);
    Strings.SplitJoin(PageContents(retrieved), '\n');
  }

  /** The "never raise" contract: the reply content verbatim, or "Error: "
      followed by the exception text. */
  function AnswerOf(reply: BackendReply): (r: string)
    ensures reply.Replied? ==> r == reply.content
    ensures reply.Failed? ==> r == "Error: " + reply.reason
  {
    match reply
    case Replied(c) => c
    case Failed(e) => "Error: " + e
  }

  /** The message-building loop of both chat functions, after `prefix`. */
  method BuildMessages(prefix: seq<ChatMessage>, history: seq<ChatStore.Turn>, userInput: string) returns (messages: seq<ChatMessage>)
    ensures messages == prefix + HistoryMessages(history, userInput)
  {
    messages := prefix;
    for i := 0 to |history|
      invariant |messages| == |prefix| + i
      invariant messages[..|prefix|] == prefix
      invariant forall j :: 0 <= j < i ==>
        messages[|prefix| + j] == ChatMessage(RoleOf(history[j].senderType), history[j].content)
    {
      var role := if history[i].senderType == "user" then "user" else "assistant";
      messages := messages + [ChatMessage(role, history[i].content)];
    }
    messages := messages + [ChatMessage("user", userInput)];
    assert messages == prefix + HistoryMessages(history, userInput);
  }

  /** `chat_without_rag`. */
  method ChatWithoutRag(model: string, userInput: string, history: seq<ChatStore.Turn>,
                        backend: ChatRequest -> BackendReply) returns (answer: string)
    ensures answer == AnswerOf(backend(PlainRequest(model, history, userInput)))
  {
    var messages := BuildMessages([], history, userInput);
    assert messages == HistoryMessages(history, userInput);
    var data := ChatRequest(model, messages, false);
    match backend(data)
    case Replied(c) => answer := c;
    case Failed(e) => answer := "Error: " + e;
  }

  // ---------------------------------------------------------------------------
  // Retrieval

  /** A similarity search picks positions in the collection; positions past
      the end pick nothing. */
  function Retrieve(docs: seq<Ingestion.Document>, picks: seq<nat>): (r: seq<Ingestion.Document>)
    ensures |r| <= |picks|
    ensures forall i :: 0 <= i < |r| ==> r[i] in docs
  {
    if |picks| == 0 then []
    else if picks[0] < |docs| then [docs[picks[0]]] + Retrieve(docs, picks[1..])
    else Retrieve(docs, picks[1..])
  }

  /** Nothing can be retrieved from an empty collection. */
  lemma RetrieveFromEmpty(picks: seq<nat>)
    ensures Retrieve([], picks) == []
  {
  }

  /** The answer of `chat_with_rag` for the outcome `hits` of its search. The
      search is `None` when it raises (embedding the query, or, in the
      corrected version, opening the collection); it runs before the `try`
      (lines 99-103), so such a failure escapes `chat_with_rag` and there is
      no answer. */
  function RagAnswer(docs: seq<Ingestion.Document>, hits: Option<seq<nat>>, model: string,
                     history: seq<ChatStore.Turn>, userInput: string, backend: ChatRequest -> BackendReply): Option<string> {
    match hits
    case None => None
    case Some(picks) => Some(AnswerOf(backend(RagRequest(model, Retrieve(docs, picks), history, userInput))))
  }

  /** `chat_with_rag` as written: `load_vectordb` deletes the collection
      before the search (a delete that raises is swallowed and leaves it), a
      load that raises escapes the call, and so does a failing search. */
  method ChatWithRagAsWritten(db: Ingestion.VectorStore, load: Ingestion.LoadOutcome,
                              search: (seq<Ingestion.Document>, string) -> Option<seq<nat>>,
                              model: string, userInput: string, history: seq<ChatStore.Turn>,
                              backend: ChatRequest -> BackendReply) returns (answer: Option<string>)
    modifies db
    ensures load.dropped ==> db.documents == []
    ensures !load.dropped ==> db.documents == old(db.documents)
    ensures !load.loaded ==> answer.None?
    ensures load.loaded ==> answer == RagAnswer(db.documents, search(db.documents, userInput), model, history, userInput, backend)
    ensures load.loaded && load.dropped && search([], userInput).None? ==> answer.None?
    ensures load.loaded && load.dropped && search([], userInput).Some? ==>
      answer == Some(AnswerOf(backend(RagRequestAsWritten(search([], userInput).value, model, history, userInput))))
  {
    var loaded := db.LoadVectorDb(load);
    if !loaded {
      answer := None;
      return;
    }
    match search(db.documents, userInput) {
      case None =>
        answer := None;
      case Some(picks) =>
        var retrieved := Retrieve(db.documents, picks);
        var messages := BuildMessages([SystemMessage(retrieved)], history, userInput);
        var data := ChatRequest(model, messages, false);
        answer := Some(AnswerOf(backend(data)));
    }
  }

  /** The request `chat_with_rag` sends as written, whatever was uploaded. */
  function RagRequestAsWritten(picks: seq<nat>, model: string, history: seq<ChatStore.Turn>, userInput: string): ChatRequest {
    RagRequest(model, Retrieve([], picks), history, userInput)
  }

  /** As written, the context is always empty: the system message is the bare
      prefix, so the uploaded PDFs never reach the model. */
  lemma AsWrittenContextAlwaysEmpty(picks: seq<nat>, model: string, history: seq<ChatStore.Turn>, userInput: string)
    ensures RagRequestAsWritten(picks, model, history, userInput).messages[0] == ChatMessage("system", SystemPrefix)
  {
    RetrieveFromEmpty(picks);
    assert SystemPrefix + "" == SystemPrefix;
  }

  /** `chat_with_rag` as intended: the collection the uploads filled is loaded
      without being dropped, searched, and the hits become the context. A
      failing search still raises out of the call. */
  method ChatWithRag(db: Ingestion.VectorStore, search: (seq<Ingestion.Document>, string) -> Option<seq<nat>>,
                     model: string, userInput: string, history: seq<ChatStore.Turn>,
                     backend: ChatRequest -> BackendReply) returns (answer: Option<string>)
    ensures search(db.documents, userInput).None? ==> answer.None?
    ensures search(db.documents, userInput).Some? ==>
      answer == Some(AnswerOf(backend(RagRequest(model, Retrieve(db.documents, search(db.documents, userInput).value), history, userInput))))
  {
    match search(db.documents, userInput) {
      case None =>
        answer := None;
      case Some(picks) =>
        var retrieved := Retrieve(db.documents, picks);
        var messages := BuildMessages([SystemMessage(retrieved)], history, userInput);
        var data := ChatRequest(model, messages, false);
        answer := Some(AnswerOf(backend(data)));
    }
  }

  /** Every in-range pick is among the retrieved documents. */
  lemma {:induction false} RetrieveKeepsPick(docs: seq<Ingestion.Document>, picks: seq<nat>, k: nat)
    requires k < |picks| && picks[k] < |docs|
    ensures docs[picks[k]] in Retrieve(docs, picks)
  {
    if k > 0 {
      RetrieveKeepsPick(docs, picks[1..], k - 1);
    }
  }

  /** Whatever the pages hold, retrieved page `i` occurs in the system message
      right after the prefix, the earlier pages and their newlines. */
  lemma RetrievedPageAt(retrieved: seq<Ingestion.Document>, i: nat)
    requires i < |retrieved|
    ensures Strings.OccursAt(SystemMessage(retrieved).content, retrieved[i].pageContent,
                             |SystemPrefix| + Strings.JoinOffset(PageContents(retrieved), "\n", i))
  {
    Strings.JoinPartAt(PageContents(retrieved), "\n", i);
    Strings.OccursShift(SystemPrefix, Context(retrieved), retrieved[i].pageContent,
                        Strings.JoinOffset(PageContents(retrieved), "\n", i));
  }

  /** With the collection kept, every stored document the search picks is
      retrieved and its text appears in the system message. */
  lemma RetrievedDocumentReachesModel(docs: seq<Ingestion.Document>, picks: seq<nat>, k: nat)
    requires k < |picks| && picks[k] < |docs|
    ensures docs[picks[k]] in Retrieve(docs, picks)
    ensures picks[0] < |docs| ==> Retrieve(docs, picks)[0] == docs[picks[0]]
    ensures Strings.Contains(SystemMessage(Retrieve(docs, picks)).content, docs[picks[k]].pageContent)
  {
    var r := Retrieve(docs, picks);
    RetrieveKeepsPick(docs, picks, k);
    var i :| 0 <= i < |r| && r[i] == docs[picks[k]];
    RetrievedPageAt(r, i);
  }

  // ---------------------------------------------------------------------------
  // Streamlit's session state

  class SessionState {
    var sessionKey: string
    var newSessionKey: Option<string>
    var sessionIndexTracker: string
    var pdfUploaderKey: int
    var pdfChat: bool
    var modelOptions: seq<string>
    var modelToUse: string

    function Keys(): KeyState
      reads this
    {
      KeyState(sessionKey, newSessionKey, sessionIndexTracker)
    }

    /** The first run of `main` (lines 167-175). */
    constructor (tags: Utils.TagsResponse)
      ensures Keys() == KeyState(NewSession, None, NewSession)
      ensures pdfUploaderKey == 0 && !pdfChat
      ensures modelOptions == Utils.ListOllamaModels(tags)
      ensures modelToUse == DefaultModel(modelOptions)
    {
      sessionKey := NewSession;
      newSessionKey := None;
      sessionIndexTracker := NewSession;
      pdfUploaderKey := 0;
      pdfChat := false;
      var options := Utils.ListOllamaModels(tags);
      modelOptions := options;
      modelToUse := if |options| > 0 then options[0] else FallbackChatModel;
    }

    /** `get_session_key`, with `uuid` the uuid4 it would draw. */
    method GetSessionKey(uuid: string) returns (key: string)
      modifies this
      ensures (key, Keys()) == GetKey(old(Keys()), uuid)
      ensures pdfUploaderKey == old(pdfUploaderKey) && pdfChat == old(pdfChat)
      ensures modelOptions == old(modelOptions) && modelToUse == old(modelToUse)
    {
      if sessionKey == NewSession {
        if newSessionKey.None? {
          newSessionKey := Some(uuid);
        }
        key := newSessionKey.value;
        return;
      }
      key := sessionKey;
    }

    /** `delete_chat_session_history`: delete the current chat, then return to
        the "new_session" state with no pending key. */
    method DeleteChatSessionHistory(store: ChatStore.Store, uuid: string, writeOk: bool)
      requires store.Valid()
      modifies this, store
      ensures store.Valid()
      ensures store.Snapshot() == ChatStore.Delete(old(store.Snapshot()), GetKey(old(Keys()), uuid).0, UserId, writeOk).tables
      ensures Keys() == KeyState(NewSession, None, old(sessionIndexTracker))
      ensures pdfUploaderKey == old(pdfUploaderKey) && pdfChat == old(pdfChat)
      ensures modelOptions == old(modelOptions) && modelToUse == old(modelToUse)
    {
      var key := GetSessionKey(uuid);
      var _ := store.DeleteChatHistory(key, UserId, writeOk);
      sessionKey := NewSession;
      newSessionKey := None;
    }

    /** `toggle_pdf_chat` (the cache clearing is not modelled). */
    method TogglePdfChat()
      modifies this
      ensures pdfChat
      ensures Keys() == old(Keys()) && pdfUploaderKey == old(pdfUploaderKey)
      ensures modelOptions == old(modelOptions) && modelToUse == old(modelToUse)
    {
      pdfChat := true;
    }

    /** `detoggle_pdf_chat`. */
    method DetogglePdfChat()
      modifies this
      ensures !pdfChat
      ensures Keys() == old(Keys()) && pdfUploaderKey == old(pdfUploaderKey)
      ensures modelOptions == old(modelOptions) && modelToUse == old(modelToUse)
    {
      pdfChat := false;
    }

    /** `update_model_options`. */
    method UpdateModelOptions(tags: Utils.TagsResponse)
      modifies this
      ensures modelOptions == Utils.ListOllamaModels(tags)
      ensures Keys() == old(Keys()) && pdfUploaderKey == old(pdfUploaderKey)
      ensures pdfChat == old(pdfChat) && modelToUse == old(modelToUse)
    {
      modelOptions := Utils.ListOllamaModels(tags);
    }

    /** Lines 178-180 of `main`. */
    method UpdateTracker()
      modifies this
      ensures Keys() == TrackerStep(old(Keys()))
      ensures pdfUploaderKey == old(pdfUploaderKey) && pdfChat == old(pdfChat)
      ensures modelOptions == old(modelOptions) && modelToUse == old(modelToUse)
    {
      if sessionKey == NewSession && newSessionKey.Some? {
        sessionIndexTracker := newSessionKey.value;
        newSessionKey := None;
      }
    }

    /** Lines 186-196 of `main`: list the sessions, find the tracked one, and
        let the selectbox write `session_key`. `pick` is the entry the user
        chose, if any; otherwise the box shows the entry at the index. */
    method SelectSession(store: ChatStore.Store, readOk: bool, pick: Option<nat>) returns (index: nat)
      modifies this
      ensures var sessions := ChatSessions(if readOk then ChatStore.SessionKeys(store.Snapshot(), UserId) else []);
        var si := SessionIndex(old(sessionIndexTracker), if readOk then ChatStore.SessionKeys(store.Snapshot(), UserId) else []);
        index == si.1 && sessionIndexTracker == si.0
        && sessionKey == (if pick.Some? && pick.value < |sessions| then sessions[pick.value] else sessions[index])
        && newSessionKey == old(newSessionKey)
      ensures pdfUploaderKey == old(pdfUploaderKey) && pdfChat == old(pdfChat)
      ensures modelOptions == old(modelOptions) && modelToUse == old(modelToUse)
    {
      var ids := store.GetAllChatHistoryIds(UserId, readOk);
      var sessions := ChatSessions(ids);
      ghost var si := SessionIndex(sessionIndexTracker, ids);
      match IndexOf(sessions, sessionIndexTracker) {
        case Some(i) =>
          index := i;
        case None =>
          sessionIndexTracker := NewSession;
          index := 0;
      }
      if pick.Some? && pick.value < |sessions| {
        sessionKey := sessions[pick.value];
      } else {
        sessionKey := sessions[index];
      }
      assert index == si.1 && sessionIndexTracker == si.0;
    }

    /** Lines 217-220 of `main`: a non-empty upload is ingested and the
        uploader is given a new widget key. */
    method ProcessUploads(db: Ingestion.VectorStore, decode: Ingestion.Bytes -> Ingestion.Decoded,
                          split: string -> seq<string>, uploads: seq<Ingestion.Bytes>, outcome: Ingestion.AddOutcome)
      modifies this, db
      ensures |uploads| == 0 ==> db.documents == old(db.documents) && pdfUploaderKey == old(pdfUploaderKey)
      ensures |uploads| > 0 ==> pdfUploaderKey == old(pdfUploaderKey) + 2
      ensures |uploads| > 0 && outcome.load.dropped ==>
        db.documents == Ingestion.BatchCollection(decode, split, uploads, Ingestion.Stores(outcome))
      ensures |uploads| > 0 && !outcome.load.dropped ==>
        db.documents == old(db.documents) + Ingestion.BatchCollection(decode, split, uploads, Ingestion.Stores(outcome))
      ensures Keys() == old(Keys()) && pdfChat == old(pdfChat)
      ensures modelOptions == old(modelOptions) && modelToUse == old(modelToUse)
    {
      if |uploads| > 0 {
        Ingestion.ReadUploads(uploads);
        Ingestion.AddDocumentsToDb(db, decode, split, Ingestion.Uploads(uploads), outcome);
        pdfUploaderKey := pdfUploaderKey + 2;
      }
    }
  }

  /** The answer a turn produces for the history it loaded; `None` when the
      RAG search raises, which ends `main` before anything is saved. */
  function TurnAnswer(pdfChat: bool, docs: seq<Ingestion.Document>, search: (seq<Ingestion.Document>, string) -> Option<seq<nat>>,
                      model: string, history: seq<ChatStore.Turn>, userInput: string,
                      backend: ChatRequest -> BackendReply): Option<string> {
    if pdfChat then RagAnswer(docs, search(docs, userInput), model, history, userInput, backend)
    else Some(AnswerOf(backend(PlainRequest(model, history, userInput))))
  }

  /** What the turn writes: the user's message, then the answer, both under
      one key. */
  function TurnTables(t: ChatStore.Tables, key: string, userInput: string, answer: string,
                      userSessionOk: bool, userMessageOk: bool, botSessionOk: bool, botMessageOk: bool): ChatStore.Tables {
    var o1 := ChatStore.SaveText(t, key, "user", userInput, UserId, userSessionOk, userMessageOk);
    ChatStore.SaveText(o1.tables, key, "assistant", answer, UserId, botSessionOk, botMessageOk).tables
  }

  /** A turn creates at most one session, and when both writes succeed it adds
      exactly the user's message and then the answer, to one session. */
  lemma TurnSavesUserThenAssistant(t: ChatStore.Tables, key: string, userInput: string, answer: string,
                                   userSessionOk: bool, botSessionOk: bool)
    requires ChatStore.TablesValid(t)
    ensures var r := TurnTables(t, key, userInput, answer, userSessionOk, true, botSessionOk, true);
      |r.sessions| <= |t.sessions| + 1
      && (userSessionOk || ChatStore.FindSession(t.sessions, Strings.Strip(key), UserId).Some? ==>
            var sid := ChatStore.FindSession(r.sessions, Strings.Strip(key), UserId);
            sid.Some?
            && r.messages == t.messages
               + [ChatStore.Message(t.nextMessageId, sid.value, "user", ChatStore.TextType, Some(userInput), None),
                  ChatStore.Message(t.nextMessageId + 1, sid.value, "assistant", ChatStore.TextType, Some(answer), None)])
  {
    ChatStore.SaveTwiceOneSession(t, key, key, UserId, "user", userInput, userSessionOk, true,
                                  "assistant", answer, botSessionOk, true);
    var o1 := ChatStore.SaveText(t, key, "user", userInput, UserId, userSessionOk, true);
    ChatStore.SaveEffect(t, key, "user", userInput, UserId, userSessionOk, true);
    ChatStore.SaveTextValid(t, key, "user", userInput, UserId, userSessionOk, true);
    ChatStore.SaveEffect(o1.tables, key, "assistant", answer, UserId, botSessionOk, true);
  }

  /** A first "Hello" in plain mode on an empty database: the request holds
      just that message, and the store ends with the user's message and the
      reply, ids 1 and 2, in session 1. */
  lemma FirstTurnScenario(model: string, key: string)
    requires Strings.Strip(key) == key
    ensures ChatStore.RecentTurns(ChatStore.Empty, key, 3, UserId) == []
    ensures PlainRequest(model, [], "Hello") == ChatRequest(model, [ChatMessage("user", "Hello")], false)
    ensures TurnTables(ChatStore.Empty, key, "Hello", "Hi there", true, true, true, true).messages
         == [ChatStore.Message(1, 1, "user", ChatStore.TextType, Some("Hello"), None),
             ChatStore.Message(2, 1, "assistant", ChatStore.TextType, Some("Hi there"), None)]
  {
    var t1 := ChatStore.SaveText(ChatStore.Empty, key, "user", "Hello", UserId, true, true).tables;
    assert t1.sessions == [ChatStore.Session(1, key, UserId)];
    assert ChatStore.FindSession(t1.sessions, key, UserId) == Some(1);
  }

  /** Lines 229-243 of `main`: an empty input does nothing; otherwise the key
      is drawn, the last turns of the current chat are loaded and the model is
      asked. When the answer comes back, the user's message and the answer are
      saved under the current key; when the RAG search raises, the exception
      leaves `main` and nothing is saved. */
  method ProcessInput(state: SessionState, store: ChatStore.Store, db: Ingestion.VectorStore,
                      search: (seq<Ingestion.Document>, string) -> Option<seq<nat>>, backend: ChatRequest -> BackendReply,
                      userInput: string, uuid: string, memoryLength: int, readOk: bool,
                      userSessionOk: bool, userMessageOk: bool, botSessionOk: bool, botMessageOk: bool)
      returns (answer: Option<string>)
    requires store.Valid()
    modifies state, store
    ensures store.Valid()
    ensures userInput == "" ==> store.Snapshot() == old(store.Snapshot()) && state.Keys() == old(state.Keys())
    ensures userInput != "" ==>
      var key := GetKey(old(state.Keys()), uuid).0;
      var history := if readOk then ChatStore.RecentTurns(old(store.Snapshot()), key, memoryLength, UserId) else [];
      state.Keys() == GetKey(old(state.Keys()), uuid).1
      && answer == TurnAnswer(state.pdfChat, db.documents, search, state.modelToUse, history, userInput, backend)
      && store.Snapshot() == (if answer.None? then old(store.Snapshot())
                              else TurnTables(old(store.Snapshot()), key, userInput, answer.value,
                                              userSessionOk, userMessageOk, botSessionOk, botMessageOk))
    ensures !state.pdfChat && userInput != "" ==> answer.Some?
    ensures state.pdfChat == old(state.pdfChat) && state.modelToUse == old(state.modelToUse)
    ensures state.pdfUploaderKey == old(state.pdfUploaderKey) && state.modelOptions == old(state.modelOptions)
  {
    answer := None;
    if userInput == "" {
      return;
    }
    var key := state.GetSessionKey(uuid);
    var history := store.LoadLastKTextMessages(key, memoryLength, UserId, readOk);
    if state.pdfChat {
      answer := ChatWithRag(db, search, state.modelToUse, userInput, history, backend);
      if answer.None? {
        return;
      }
    } else {
      var reply := ChatWithoutRag(state.modelToUse, userInput, history, backend);
      answer := Some(reply);
    }
    GetKeyStable(old(state.Keys()), uuid, uuid);
    SaveTurn(state, store, uuid, userInput, answer.value, userSessionOk, userMessageOk, botSessionOk, botMessageOk);
  }

  /** Lines 242-243 of `main`: the user's message, then the answer, each saved
      under the key `get_session_key` returns. */
  method SaveTurn(state: SessionState, store: ChatStore.Store, uuid: string, userInput: string, answer: string,
                  userSessionOk: bool, userMessageOk: bool, botSessionOk: bool, botMessageOk: bool)
    requires store.Valid()
    modifies state, store
    ensures store.Valid()
    ensures state.Keys() == GetKey(old(state.Keys()), uuid).1
    ensures store.Snapshot() == TurnTables(old(store.Snapshot()), GetKey(old(state.Keys()), uuid).0, userInput, answer,
                                           userSessionOk, userMessageOk, botSessionOk, botMessageOk)
    ensures state.pdfChat == old(state.pdfChat) && state.modelToUse == old(state.modelToUse)
    ensures state.pdfUploaderKey == old(state.pdfUploaderKey) && state.modelOptions == old(state.modelOptions)
  {
    var key1 := state.GetSessionKey(uuid);
    var _ := store.SaveTextMessage(key1, "user", userInput, UserId, userSessionOk, userMessageOk);
    GetKeyStable(old(state.Keys()), uuid, uuid);
    var key2 := state.GetSessionKey(uuid);
    var _ := store.SaveTextMessage(key2, "assistant", answer, UserId, botSessionOk, botMessageOk);
  }
}

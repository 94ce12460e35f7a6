/** The chat-history store: the `chat_sessions` and `messages` tables of the
    SQLite file and the five operations the application performs on them.

    The tables are sequences of rows in rowid order; each table's AUTOINCREMENT
    counter is a field. Every storage step that can fail (a write, a commit, a
    read) is a boolean parameter: `true` means the database accepted it. */
module ChatStore {
  import opened Wrappers
  import Strings
  import Base64

  /** The `message_type` that the application writes and filters on. */
  const TextType: string := "text"

  /** A row of `chat_sessions`. */
  datatype Session = Session(sessionId: nat, sessionKey: string, userId: int)

  /** A row of `messages`; `textContent` and `blobContent` are nullable columns. */
  datatype Message = Message(
    messageId: nat,
    chatHistoryId: nat,
    senderType: string,
    messageType: string,
    textContent: Option<string>,
    blobContent: Option<seq<Base64.Byte>>)

  /** Both tables and the next value of each AUTOINCREMENT counter. */
  datatype Tables = Tables(sessions: seq<Session>, messages: seq<Message>, nextSessionId: nat, nextMessageId: nat)

  /** The state of a freshly initialised database: no rows, counters at 1. */
  const Empty: Tables := Tables([], [], 1, 1)

  /** The result of a write operation: the new tables and the returned flag. */
  datatype Outcome = Outcome(tables: Tables, ok: bool)

  /** An entry of `load_messages`: `content` is the text column for text rows
      and the blob column otherwise; `Null` stands for SQL NULL. */
  datatype Content = Null | Text(text: string) | Blob(bytes: seq<Base64.Byte>)
  datatype LoadedMessage = LoadedMessage(messageId: nat, senderType: string, messageType: string, content: Content)

  /** An entry of `load_last_k_text_messages_ollama`. */
  datatype Turn = Turn(senderType: string, content: string)

  // ---------------------------------------------------------------------------
  // Schema invariants

  predicate KeyedBy(s: Session, key: string, userId: int) {
    s.sessionKey == key && s.userId == userId
  }

  function SessionIdOf(s: Session): int { s.sessionId }
  function MessageIdOf(m: Message): int { m.messageId }

  /** `UNIQUE(session_key, user_id)`. */
  ghost predicate KeysUnique(ss: seq<Session>) {
    forall i, j :: 0 <= i < j < |ss| ==> !KeyedBy(ss[j], ss[i].sessionKey, ss[i].userId)
  }

  /** `session_id INTEGER PRIMARY KEY AUTOINCREMENT`: rows in ascending id
      order, every id positive and below the counter, plus the unique pair. */
  ghost predicate SessionsValid(ss: seq<Session>, next: nat) {
    0 < next
    && (forall i, j :: 0 <= i < j < |ss| ==> SessionIdOf(ss[i]) < SessionIdOf(ss[j]))
    && (forall i :: 0 <= i < |ss| ==> 0 < ss[i].sessionId < next)
    && KeysUnique(ss)
  }

  predicate HasSession(ss: seq<Session>, sessionId: nat) {
    exists i :: 0 <= i < |ss| && ss[i].sessionId == sessionId
  }

  /** `message_id INTEGER PRIMARY KEY AUTOINCREMENT`, the foreign key to
      `chat_sessions`, and a text row always carries its text. */
  ghost predicate MessagesValid(ms: seq<Message>, next: nat, ss: seq<Session>) {
    0 < next
    && (forall i, j :: 0 <= i < j < |ms| ==> MessageIdOf(ms[i]) < MessageIdOf(ms[j]))
    && (forall i :: 0 <= i < |ms| ==> 0 < ms[i].messageId < next)
    && (forall i :: 0 <= i < |ms| ==> HasSession(ss, ms[i].chatHistoryId))
    && (forall i :: 0 <= i < |ms| && ms[i].messageType == TextType ==> ms[i].textContent.Some?)
  }

  ghost predicate TablesValid(t: Tables) {
    SessionsValid(t.sessions, t.nextSessionId) && MessagesValid(t.messages, t.nextMessageId, t.sessions)
  }

  // ---------------------------------------------------------------------------
  // Queries

  /** `SELECT session_id FROM chat_sessions WHERE session_key = ? AND user_id = ?`. */
  function FindSession(ss: seq<Session>, key: string, userId: int): (r: Option<nat>)
    ensures r.None? <==> forall i :: 0 <= i < |ss| ==> !KeyedBy(ss[i], key, userId)
    ensures r.Some? ==> exists i :: 0 <= i < |ss| && KeyedBy(ss[i], key, userId) && ss[i].sessionId == r.value
  {
    if |ss| == 0 then None
    else if KeyedBy(ss[0], key, userId) then Some(ss[0].sessionId)
    else FindSession(ss[1..], key, userId)
  }

  function InSession(sessionId: nat): Message -> bool {
    (m: Message) => m.chatHistoryId == sessionId
  }

  function TextInSession(sessionId: nat): Message -> bool {
    (m: Message) => m.chatHistoryId == sessionId && m.messageType == TextType
  }

  function NotInSession(sessionId: nat): Message -> bool {
    (m: Message) => m.chatHistoryId != sessionId
  }

  function OtherSession(sessionId: nat): Session -> bool {
    (s: Session) => s.sessionId != sessionId
  }

  function OwnedBy(userId: int): Session -> bool {
    (s: Session) => s.userId == userId
  }

  /** What `load_messages` makes of one row. */
  function Load(m: Message): LoadedMessage {
    var content :=
      if m.messageType == TextType then (if m.textContent.Some? then Text(m.textContent.value) else Null)
      else (if m.blobContent.Some? then Blob(m.blobContent.value) else Null);
    LoadedMessage(m.messageId, m.senderType, m.messageType, content)
  }

  function LoadAll(rows: seq<Message>): (r: seq<LoadedMessage>)
    ensures |r| == |rows| && forall i :: 0 <= i < |rows| ==> r[i] == Load(rows[i])
  {
    seq(|rows|, i requires 0 <= i < |rows| => Load(rows[i]))
  }

  /** The rows of one session in rowid order: `load_messages` has no ORDER BY,
      and this is the order in which SQLite scans the table. */
  function SessionRows(t: Tables, sessionId: nat): seq<Message> {
    Filter(t.messages, InSession(sessionId))
  }

  /** The value `load_messages(key, user)` returns when the read succeeds. */
  function History(t: Tables, key: string, userId: int): seq<LoadedMessage> {
    match FindSession(t.sessions, key, userId)
    case None => []
    case Some(sid) => LoadAll(SessionRows(t, sid))
  }

  /** SQLite's `LIMIT k`: a negative limit means no limit. */
  function LimitCount(k: int, n: nat): (c: nat)
    ensures c <= n
  {
    if k < 0 || k >= n then n else k
  }

  /** The text rows of one session, oldest first. */
  function TextRows(t: Tables, sessionId: nat): seq<Message> {
    Filter(t.messages, TextInSession(sessionId))
  }

  /** What the query of `load_last_k_text_messages_ollama` returns:
      `ORDER BY message_id DESC LIMIT k`, i.e. newest first. */
  function NewestTextRows(t: Tables, sessionId: nat, k: int): seq<Message> {
    var desc := Reverse(TextRows(t, sessionId));
    desc[..LimitCount(k, |desc|)]
  }

  /** The last `k` text rows in chronological order. */
  function RecentTextRows(t: Tables, sessionId: nat, k: int): seq<Message> {
    var rows := TextRows(t, sessionId);
    rows[|rows| - LimitCount(k, |rows|)..]
  }

  function TurnOf(m: Message): Turn
    requires m.textContent.Some?
  {
    Turn(m.senderType, m.textContent.value)
  }

  function TurnsOf(rows: seq<Message>): (r: seq<Turn>)
    requires forall i :: 0 <= i < |rows| ==> rows[i].textContent.Some?
    ensures |r| == |rows| && forall i :: 0 <= i < |rows| ==> r[i] == TurnOf(rows[i])
  {
    seq(|rows|, i requires 0 <= i < |rows| => TurnOf(rows[i]))
  }

  /** The value `load_last_k_text_messages_ollama(key, k, user)` returns when
      the read succeeds. */
  function RecentTurns(t: Tables, key: string, k: int, userId: int): seq<Turn>
    requires TablesValid(t)
  {
    match FindSession(t.sessions, key, userId)
    case None => []
    case Some(sid) =>
      TextRowsHaveText(t, sid, k);
      TurnsOf(RecentTextRows(t, sid, k))
  }

  /** The user's sessions in rowid order. */
  function UserSessions(t: Tables, userId: int): seq<Session> {
    Filter(t.sessions, OwnedBy(userId))
  }

  function KeysOf(ss: seq<Session>): (r: seq<string>)
    ensures |r| == |ss| && forall i :: 0 <= i < |ss| ==> r[i] == ss[i].sessionKey
  {
    seq(|ss|, i requires 0 <= i < |ss| => ss[i].sessionKey)
  }

  /** `get_all_chat_history_ids`: `ORDER BY session_id DESC`, newest first. */
  function SessionKeys(t: Tables, userId: int): seq<string> {
    KeysOf(Reverse(UserSessions(t, userId)))
  }

  // ---------------------------------------------------------------------------
  // Writes

  /** The message INSERT and its commit, into session `sessionId`. */
  function AppendText(t: Tables, sessionId: nat, senderType: string, textContent: string, messageWriteOk: bool): Outcome {
    if !messageWriteOk then Outcome(t, false)
    else
      var m := Message(t.nextMessageId, sessionId, senderType, TextType, Some(textContent), None);
      Outcome(t.(messages := t.messages + [m], nextMessageId := t.nextMessageId + 1), true)
  }

  /** `save_text_message`: the key is stripped, the session is looked up and, if
      missing, inserted and committed on its own; then the message is inserted.
      A failure rolls back only what is not yet committed. */
  function SaveText(t: Tables, sessionKey: string, senderType: string, textContent: string, userId: int,
                    sessionWriteOk: bool, messageWriteOk: bool): Outcome {
    var key := Strings.Strip(sessionKey);
    match FindSession(t.sessions, key, userId)
    case Some(sid) => AppendText(t, sid, senderType, textContent, messageWriteOk)
    case None =>
      if !sessionWriteOk then Outcome(t, false)
      else
        var sid := t.nextSessionId;
        var t1 := t.(sessions := t.sessions + [Session(sid, key, userId)], nextSessionId := sid + 1);
        AppendText(t1, sid, senderType, textContent, messageWriteOk)
  }

  /** `delete_chat_history`: messages of the session, then the session, in one
      transaction. The key is not stripped. */
  function Delete(t: Tables, key: string, userId: int, writeOk: bool): Outcome {
    match FindSession(t.sessions, key, userId)
    case None => Outcome(t, false)
    case Some(sid) =>
      if !writeOk then Outcome(t, false)
      else Outcome(t.(messages := Filter(t.messages, NotInSession(sid)),
                      sessions := Filter(t.sessions, OtherSession(sid))), true)
  }

  // ---------------------------------------------------------------------------
  // Lemmas the operations rely on

  lemma TextRowsHaveText(t: Tables, sessionId: nat, k: int)
    requires TablesValid(t)
    ensures forall i :: 0 <= i < |TextRows(t, sessionId)| ==> TextRows(t, sessionId)[i].textContent.Some?
    ensures forall i :: 0 <= i < |RecentTextRows(t, sessionId, k)| ==> RecentTextRows(t, sessionId, k)[i].textContent.Some?
  {
    var rows := TextRows(t, sessionId);
    forall i | 0 <= i < |rows| ensures rows[i].textContent.Some? {
      assert rows[i] in t.messages && TextInSession(sessionId)(rows[i]);
    }
  }

  /** Reading the newest-first page backwards gives the most recent rows in
      chronological order. */
  lemma NewestReversedIsRecent(t: Tables, sessionId: nat, k: int)
    ensures |NewestTextRows(t, sessionId, k)| == |RecentTextRows(t, sessionId, k)|
    ensures forall j :: 0 <= j < |RecentTextRows(t, sessionId, k)| ==>
      NewestTextRows(t, sessionId, k)[|RecentTextRows(t, sessionId, k)| - 1 - j] == RecentTextRows(t, sessionId, k)[j]
  {
    var rows := TextRows(t, sessionId);
    var c := LimitCount(k, |rows|);
    var recent := RecentTextRows(t, sessionId, k);
    forall j | 0 <= j < c ensures NewestTextRows(t, sessionId, k)[c - 1 - j] == recent[j] {
      ReverseAt(rows, c - 1 - j);
    }
  }

  /** `ORDER BY message_id DESC`: the page is strictly descending by message id. */
  lemma NewestRowsDescending(t: Tables, sessionId: nat, k: int, i: int, j: int)
    requires TablesValid(t) && 0 <= i < j < |NewestTextRows(t, sessionId, k)|
    ensures NewestTextRows(t, sessionId, k)[i].messageId > NewestTextRows(t, sessionId, k)[j].messageId
  {
    var rows := TextRows(t, sessionId);
    FilterIncreasing(t.messages, MessageIdOf, TextInSession(sessionId));
    ReverseAt(rows, i);
    ReverseAt(rows, j);
    assert MessageIdOf(rows[|rows| - 1 - j]) < MessageIdOf(rows[|rows| - 1 - i]);
  }

  /** Filtering keeps key uniqueness. */
  lemma {:induction false} FilterKeysUnique(ss: seq<Session>, p: Session -> bool)
    requires KeysUnique(ss)
    ensures KeysUnique(Filter(ss, p))
  {
    if |ss| > 0 {
      FilterKeysUnique(ss[1..], p);
      var rest := Filter(ss[1..], p);
      forall j | 0 <= j < |rest| ensures !KeyedBy(rest[j], ss[0].sessionKey, ss[0].userId) {
        var b :| 0 <= b < |ss[1..]| && ss[1..][b] == rest[j];
        assert ss[b + 1] == rest[j];
      }
    }
  }

  lemma {:induction false} FilterSessionsValid(ss: seq<Session>, next: nat, p: Session -> bool)
    requires SessionsValid(ss, next)
    ensures SessionsValid(Filter(ss, p), next)
  {
    FilterKeysUnique(ss, p);
    FilterIncreasing(ss, SessionIdOf, p);
    var r := Filter(ss, p);
    forall i | 0 <= i < |r| ensures 0 < r[i].sessionId < next {
      assert r[i] in ss;
    }
  }

  lemma SaveTextValid(t: Tables, sessionKey: string, senderType: string, textContent: string, userId: int,
                      sessionWriteOk: bool, messageWriteOk: bool)
    requires TablesValid(t)
    ensures TablesValid(SaveText(t, sessionKey, senderType, textContent, userId, sessionWriteOk, messageWriteOk).tables)
  {
    var key := Strings.Strip(sessionKey);
    match FindSession(t.sessions, key, userId)
    case Some(sid) =>
      assert HasSession(t.sessions, sid);
      AppendTextValid(t, sid, senderType, textContent, messageWriteOk);
    case None =>
      if sessionWriteOk {
        var t1 := t.(sessions := t.sessions + [Session(t.nextSessionId, key, userId)], nextSessionId := t.nextSessionId + 1);
        NewSessionValid(t, key, userId);
        assert HasSession(t1.sessions, t.nextSessionId) by { assert t1.sessions[|t.sessions|].sessionId == t.nextSessionId; }
        AppendTextValid(t1, t.nextSessionId, senderType, textContent, messageWriteOk);
      }
  }

  /** Inserting a session row for a pair that has none keeps the invariant. */
  lemma NewSessionValid(t: Tables, key: string, userId: int)
    requires TablesValid(t) && FindSession(t.sessions, key, userId).None?
    ensures TablesValid(t.(sessions := t.sessions + [Session(t.nextSessionId, key, userId)], nextSessionId := t.nextSessionId + 1))
  {
    var sid := t.nextSessionId;
    var ss := t.sessions + [Session(sid, key, userId)];
    assert SessionsValid(ss, sid + 1);
    forall i | 0 <= i < |t.messages| ensures HasSession(ss, t.messages[i].chatHistoryId) {
      var b :| 0 <= b < |t.sessions| && t.sessions[b].sessionId == t.messages[i].chatHistoryId;
      assert ss[b] == t.sessions[b];
    }
  }

  /** Appending a text message to an existing session keeps the invariant. */
  lemma AppendTextValid(t: Tables, sid: nat, senderType: string, textContent: string, messageWriteOk: bool)
    requires TablesValid(t) && HasSession(t.sessions, sid)
    ensures TablesValid(AppendText(t, sid, senderType, textContent, messageWriteOk).tables)
  {
  }

  /** The messages that survive a delete still belong to surviving sessions. */
  lemma DeleteKeepsForeignKeys(t: Tables, sid: nat)
    requires TablesValid(t)
    ensures forall i :: 0 <= i < |Filter(t.messages, NotInSession(sid))| ==>
      HasSession(Filter(t.sessions, OtherSession(sid)), Filter(t.messages, NotInSession(sid))[i].chatHistoryId)
  {
    var ss := Filter(t.sessions, OtherSession(sid));
    var ms := Filter(t.messages, NotInSession(sid));
    forall i | 0 <= i < |ms| ensures HasSession(ss, ms[i].chatHistoryId) {
      var a :| 0 <= a < |t.messages| && t.messages[a] == ms[i];
      var b :| 0 <= b < |t.sessions| && t.sessions[b].sessionId == ms[i].chatHistoryId;
      assert OtherSession(sid)(t.sessions[b]);
      var c :| 0 <= c < |ss| && ss[c] == t.sessions[b];
    }
  }

  lemma DeleteKeepsMessageRows(t: Tables, sid: nat)
    requires TablesValid(t)
    ensures forall i :: 0 <= i < |Filter(t.messages, NotInSession(sid))| ==>
      var m := Filter(t.messages, NotInSession(sid))[i];
      0 < m.messageId < t.nextMessageId && (m.messageType == TextType ==> m.textContent.Some?)
  {
    var ms := Filter(t.messages, NotInSession(sid));
    forall i | 0 <= i < |ms| ensures 0 < ms[i].messageId < t.nextMessageId && (ms[i].messageType == TextType ==> ms[i].textContent.Some?) {
      var a :| 0 <= a < |t.messages| && t.messages[a] == ms[i];
    }
  }

  lemma DeleteValid(t: Tables, key: string, userId: int, writeOk: bool)
    requires TablesValid(t)
    ensures TablesValid(Delete(t, key, userId, writeOk).tables)
  {
    match FindSession(t.sessions, key, userId)
    case None =>
    case Some(sid) =>
      if writeOk {
        FilterSessionsValid(t.sessions, t.nextSessionId, OtherSession(sid));
        FilterIncreasing(t.messages, MessageIdOf, NotInSession(sid));
        DeleteKeepsForeignKeys(t, sid);
        DeleteKeepsMessageRows(t, sid);
      }
  }

  // ---------------------------------------------------------------------------
  // Lookup facts

  /** Appending a row finds the old match if there is one, else the new row if
      it matches. */
  lemma {:induction false} FindSessionAppend(ss: seq<Session>, s: Session, key: string, userId: int)
    ensures FindSession(ss + [s], key, userId) ==
      if FindSession(ss, key, userId).Some? then FindSession(ss, key, userId)
      else if KeyedBy(s, key, userId) then Some(s.sessionId) else None
  {
    if |ss| > 0 {
      assert (ss + [s])[1..] == ss[1..] + [s];
      FindSessionAppend(ss[1..], s, key, userId);
    }
  }

  /** With unique keys, the lookup finds the row that carries the pair. */
  lemma FindSessionOfRow(ss: seq<Session>, next: nat, i: nat)
    requires SessionsValid(ss, next) && i < |ss|
    ensures FindSession(ss, ss[i].sessionKey, ss[i].userId) == Some(ss[i].sessionId)
  {
    var r := FindSession(ss, ss[i].sessionKey, ss[i].userId);
    var j :| 0 <= j < |ss| && KeyedBy(ss[j], ss[i].sessionKey, ss[i].userId) && ss[j].sessionId == r.value;
    assert i == j;
  }

  /** Two different (key, user) pairs never resolve to the same session id. */
  lemma FindSessionDistinct(ss: seq<Session>, next: nat, k1: string, u1: int, k2: string, u2: int)
    requires SessionsValid(ss, next)
    requires FindSession(ss, k1, u1).Some? && FindSession(ss, k2, u2).Some?
    requires k1 != k2 || u1 != u2
    ensures FindSession(ss, k1, u1).value != FindSession(ss, k2, u2).value
  {
    var i :| 0 <= i < |ss| && KeyedBy(ss[i], k1, u1) && ss[i].sessionId == FindSession(ss, k1, u1).value;
    var j :| 0 <= j < |ss| && KeyedBy(ss[j], k2, u2) && ss[j].sessionId == FindSession(ss, k2, u2).value;
    assert i != j;
    if i < j {
      assert SessionIdOf(ss[i]) < SessionIdOf(ss[j]);
    } else {
      assert SessionIdOf(ss[j]) < SessionIdOf(ss[i]);
    }
  }

  /** No message refers to the id the next session will get. */
  lemma NoRowsForNextSession(t: Tables)
    requires TablesValid(t)
    ensures SessionRows(t, t.nextSessionId) == []
    ensures TextRows(t, t.nextSessionId) == []
  {
    forall i | 0 <= i < |t.messages| ensures t.messages[i].chatHistoryId != t.nextSessionId {
      var b :| 0 <= b < |t.sessions| && t.sessions[b].sessionId == t.messages[i].chatHistoryId;
    }
    FilterNone(t.messages, InSession(t.nextSessionId));
    FilterNone(t.messages, TextInSession(t.nextSessionId));
  }

  lemma LoadAllAppend(rows: seq<Message>, m: Message)
    ensures LoadAll(rows + [m]) == LoadAll(rows) + [Load(m)]
  {
  }

  // ---------------------------------------------------------------------------
  // save_text_message

  /** The key is stripped before lookup and insert: a key with trailing white
      space, such as `"abc "`, saves exactly as `"abc"` does. */
  lemma SaveIgnoresTrailingSpace(t: Tables, sessionKey: string, c: char, senderType: string, textContent: string,
                                 userId: int, sessionWriteOk: bool, messageWriteOk: bool)
    requires Strings.IsSpace(c)
    ensures SaveText(t, sessionKey + [c], senderType, textContent, userId, sessionWriteOk, messageWriteOk)
         == SaveText(t, sessionKey, senderType, textContent, userId, sessionWriteOk, messageWriteOk)
  {
    Strings.StripTrailingSpace(sessionKey, c);
  }

  /** A successful save appends exactly one text row, with the given sender and
      content and the next message id, to the session the stripped key resolves
      to; a failed save leaves the messages table alone. The sessions table only
      ever gains the one new row for that key. */
  lemma SaveEffect(t: Tables, sessionKey: string, senderType: string, textContent: string, userId: int,
                   sessionWriteOk: bool, messageWriteOk: bool)
    requires TablesValid(t)
    ensures var o := SaveText(t, sessionKey, senderType, textContent, userId, sessionWriteOk, messageWriteOk);
      var key := Strings.Strip(sessionKey);
      var found := FindSession(o.tables.sessions, key, userId);
      (o.ok <==> (found.Some? && messageWriteOk))
      && (found.Some? || o.tables == t)
      && (o.ok ==> o.tables.messages == t.messages + [Message(t.nextMessageId, found.value, senderType, TextType, Some(textContent), None)]
                   && o.tables.nextMessageId == t.nextMessageId + 1)
      && (!o.ok ==> o.tables.messages == t.messages && o.tables.nextMessageId == t.nextMessageId)
      && (o.tables.sessions == t.sessions
          || (FindSession(t.sessions, key, userId).None? && sessionWriteOk
              && o.tables.sessions == t.sessions + [Session(t.nextSessionId, key, userId)]))
  {
    var key := Strings.Strip(sessionKey);
    if FindSession(t.sessions, key, userId).None? && sessionWriteOk {
      FindSessionAppend(t.sessions, Session(t.nextSessionId, key, userId), key, userId);
    }
  }

  /** If the session is created but the message insert then fails, the save
      reports failure and the committed session row stays. */
  lemma SaveFailureKeepsNewSession(t: Tables, sessionKey: string, senderType: string, textContent: string, userId: int)
    requires FindSession(t.sessions, Strings.Strip(sessionKey), userId).None?
    ensures var o := SaveText(t, sessionKey, senderType, textContent, userId, true, false);
      !o.ok && o.tables.messages == t.messages
      && o.tables.sessions == t.sessions + [Session(t.nextSessionId, Strings.Strip(sessionKey), userId)]
  {
  }

  /** Two saves under the same stripped key and user create at most one session
      row; when both succeed, the two messages are consecutive rows of one
      session, in call order. */
  lemma SaveTwiceOneSession(t: Tables, key1: string, key2: string, userId: int,
                            sender1: string, text1: string, sw1: bool, mw1: bool,
                            sender2: string, text2: string, sw2: bool, mw2: bool)
    requires TablesValid(t)
    requires Strings.Strip(key1) == Strings.Strip(key2)
    ensures var o1 := SaveText(t, key1, sender1, text1, userId, sw1, mw1);
      var o2 := SaveText(o1.tables, key2, sender2, text2, userId, sw2, mw2);
      var sid := FindSession(o2.tables.sessions, Strings.Strip(key1), userId);
      |o2.tables.sessions| <= |t.sessions| + 1
      && (o1.ok ==> o2.tables.sessions == o1.tables.sessions)
      && (o1.ok && o2.ok ==>
            sid.Some?
            && o2.tables.messages == t.messages
               + [Message(t.nextMessageId, sid.value, sender1, TextType, Some(text1), None),
                  Message(t.nextMessageId + 1, sid.value, sender2, TextType, Some(text2), None)])
  {
    var key := Strings.Strip(key1);
    var o1 := SaveText(t, key1, sender1, text1, userId, sw1, mw1);
    var o2 := SaveText(o1.tables, key2, sender2, text2, userId, sw2, mw2);
    SaveEffect(t, key1, sender1, text1, userId, sw1, mw1);
    SaveTextValid(t, key1, sender1, text1, userId, sw1, mw1);
    SaveEffect(o1.tables, key2, sender2, text2, userId, sw2, mw2);
    if FindSession(o1.tables.sessions, key, userId).Some? {
      assert o2.tables.sessions == o1.tables.sessions;
      assert FindSession(o2.tables.sessions, key, userId) == FindSession(o1.tables.sessions, key, userId);
    } else {
      assert o1.tables == t;
    }
  }

  /** After a successful save, the history of that session is the old history
      followed by the new message. */
  lemma SaveAppendsToHistory(t: Tables, sessionKey: string, senderType: string, textContent: string, userId: int,
                             sessionWriteOk: bool, messageWriteOk: bool)
    requires TablesValid(t)
    ensures var o := SaveText(t, sessionKey, senderType, textContent, userId, sessionWriteOk, messageWriteOk);
      o.ok ==> History(o.tables, Strings.Strip(sessionKey), userId)
               == History(t, Strings.Strip(sessionKey), userId) + [LoadedMessage(t.nextMessageId, senderType, TextType, Text(textContent))]
  {
    var o := SaveText(t, sessionKey, senderType, textContent, userId, sessionWriteOk, messageWriteOk);
    var key := Strings.Strip(sessionKey);
    SaveEffect(t, sessionKey, senderType, textContent, userId, sessionWriteOk, messageWriteOk);
    if o.ok {
      var sid := FindSession(o.tables.sessions, key, userId).value;
      var m := Message(t.nextMessageId, sid, senderType, TextType, Some(textContent), None);
      FilterAppend(t.messages, [m], InSession(sid));
      LoadAllAppend(SessionRows(t, sid), m);
      if FindSession(t.sessions, key, userId).None? {
        FindSessionAppend(t.sessions, Session(t.nextSessionId, key, userId), key, userId);
        NoRowsForNextSession(t);
      }
    }
  }

  /** A save changes no other session's history. */
  lemma SaveLeavesOtherHistories(t: Tables, sessionKey: string, senderType: string, textContent: string, userId: int,
                                 sessionWriteOk: bool, messageWriteOk: bool, otherKey: string, otherUser: int)
    requires TablesValid(t)
    requires otherKey != Strings.Strip(sessionKey) || otherUser != userId
    ensures History(SaveText(t, sessionKey, senderType, textContent, userId, sessionWriteOk, messageWriteOk).tables, otherKey, otherUser)
         == History(t, otherKey, otherUser)
  {
    var o := SaveText(t, sessionKey, senderType, textContent, userId, sessionWriteOk, messageWriteOk);
    var key := Strings.Strip(sessionKey);
    SaveEffect(t, sessionKey, senderType, textContent, userId, sessionWriteOk, messageWriteOk);
    SaveTextValid(t, sessionKey, senderType, textContent, userId, sessionWriteOk, messageWriteOk);
    if o.tables.sessions != t.sessions {
      FindSessionAppend(t.sessions, Session(t.nextSessionId, key, userId), otherKey, otherUser);
    }
    assert FindSession(o.tables.sessions, otherKey, otherUser) == FindSession(t.sessions, otherKey, otherUser);
    if o.ok && FindSession(t.sessions, otherKey, otherUser).Some? {
      var sid := FindSession(o.tables.sessions, key, userId).value;
      var other := FindSession(t.sessions, otherKey, otherUser).value;
      FindSessionDistinct(o.tables.sessions, o.tables.nextSessionId, key, userId, otherKey, otherUser);
      var m := Message(t.nextMessageId, sid, senderType, TextType, Some(textContent), None);
      FilterAppend(t.messages, [m], InSession(other));
    }
  }

  // ---------------------------------------------------------------------------
  // load_messages

  /** An unknown session loads nothing. Otherwise there is one entry per row of
      the session, in ascending id (rowid) order, carrying the row's id, sender
      and type, and the text for text rows. */
  lemma HistoryShape(t: Tables, key: string, userId: int)
    requires TablesValid(t)
    ensures FindSession(t.sessions, key, userId).None? ==> History(t, key, userId) == []
    ensures FindSession(t.sessions, key, userId).Some? ==>
      var rows := SessionRows(t, FindSession(t.sessions, key, userId).value);
      |History(t, key, userId)| == |rows|
      && (forall i :: 0 <= i < |rows| ==>
            History(t, key, userId)[i].messageId == rows[i].messageId
            && History(t, key, userId)[i].senderType == rows[i].senderType
            && History(t, key, userId)[i].messageType == rows[i].messageType
            && (rows[i].messageType == TextType ==> History(t, key, userId)[i].content == Text(rows[i].textContent.value)))
      && (forall i, j :: 0 <= i < j < |rows| ==> History(t, key, userId)[i].messageId < History(t, key, userId)[j].messageId)
      && (forall i :: 0 <= i < |t.messages| && t.messages[i].chatHistoryId == FindSession(t.sessions, key, userId).value ==>
            t.messages[i] in rows)
  {
    if FindSession(t.sessions, key, userId).Some? {
      var sid := FindSession(t.sessions, key, userId).value;
      var rows := SessionRows(t, sid);
      FilterIncreasing(t.messages, MessageIdOf, InSession(sid));
      forall i | 0 <= i < |rows| && rows[i].messageType == TextType ensures rows[i].textContent.Some? {
        assert rows[i] in t.messages;
      }
      forall i | 0 <= i < |t.messages| && t.messages[i].chatHistoryId == sid ensures t.messages[i] in rows {
        assert InSession(sid)(t.messages[i]);
      }
    }
  }

  // ---------------------------------------------------------------------------
  // delete_chat_history

  /** Removing a session other than the one a pair resolves to leaves that
      pair's lookup unchanged. */
  lemma {:induction false} FindSessionAfterRemoval(ss: seq<Session>, sid: nat, key: string, userId: int)
    requires FindSession(ss, key, userId) != Some(sid)
    ensures FindSession(Filter(ss, OtherSession(sid)), key, userId) == FindSession(ss, key, userId)
  {
    if |ss| > 0 {
      if KeyedBy(ss[0], key, userId) {
        assert Filter(ss, OtherSession(sid)) == [ss[0]] + Filter(ss[1..], OtherSession(sid));
      } else {
        FindSessionAfterRemoval(ss[1..], sid, key, userId);
        if OtherSession(sid)(ss[0]) {
          var f := Filter(ss, OtherSession(sid));
          assert f == [ss[0]] + Filter(ss[1..], OtherSession(sid));
          assert f[1..] == Filter(ss[1..], OtherSession(sid));
        }
      }
    }
  }

  /** Removing the session a pair resolves to makes the pair unknown. */
  lemma FindSessionRemoved(ss: seq<Session>, next: nat, key: string, userId: int)
    requires SessionsValid(ss, next) && FindSession(ss, key, userId).Some?
    ensures FindSession(Filter(ss, OtherSession(FindSession(ss, key, userId).value)), key, userId).None?
  {
    var sid := FindSession(ss, key, userId).value;
    var f := Filter(ss, OtherSession(sid));
    forall i | 0 <= i < |f| ensures !KeyedBy(f[i], key, userId) {
      var b :| 0 <= b < |ss| && ss[b] == f[i];
      FindSessionOfRow(ss, next, b);
    }
  }

  /** Deleting an unknown session, or a delete whose transaction fails, returns
      False and changes nothing. A successful delete empties the session's
      history, removes its key from the user's list, and leaves the counters. */
  lemma DeleteEffect(t: Tables, key: string, userId: int, writeOk: bool)
    requires TablesValid(t)
    ensures var o := Delete(t, key, userId, writeOk);
      (o.ok <==> FindSession(t.sessions, key, userId).Some? && writeOk)
      && (!o.ok ==> o.tables == t)
      && (o.ok ==> History(o.tables, key, userId) == [] && key !in SessionKeys(o.tables, userId)
                   && o.tables.nextSessionId == t.nextSessionId && o.tables.nextMessageId == t.nextMessageId)
  {
    var o := Delete(t, key, userId, writeOk);
    if o.ok {
      FindSessionRemoved(t.sessions, t.nextSessionId, key, userId);
      DeleteValid(t, key, userId, writeOk);
      SessionKeysExact(o.tables, userId);
    }
  }

  /** A delete changes no other session's history and no other key's presence
      in the session list. */
  lemma DeleteLeavesOthers(t: Tables, key: string, userId: int, writeOk: bool, otherKey: string, otherUser: int)
    requires TablesValid(t)
    requires otherKey != key || otherUser != userId
    ensures var o := Delete(t, key, userId, writeOk);
      History(o.tables, otherKey, otherUser) == History(t, otherKey, otherUser)
      && (otherKey in SessionKeys(o.tables, otherUser) <==> otherKey in SessionKeys(t, otherUser))
  {
    var o := Delete(t, key, userId, writeOk);
    if o.ok {
      var sid := FindSession(t.sessions, key, userId).value;
      if FindSession(t.sessions, otherKey, otherUser).Some? {
        FindSessionDistinct(t.sessions, t.nextSessionId, key, userId, otherKey, otherUser);
        var other := FindSession(t.sessions, otherKey, otherUser).value;
        FilterFilter(t.messages, NotInSession(sid), InSession(other));
      }
      FindSessionAfterRemoval(t.sessions, sid, otherKey, otherUser);
      DeleteValid(t, key, userId, writeOk);
      SessionKeysExact(o.tables, otherUser);
      SessionKeysExact(t, otherUser);
    }
  }

  // ---------------------------------------------------------------------------
  // get_all_chat_history_ids

  /** A listed key names one of the user's sessions: the one at the matching
      position of the user's sessions in rowid order. */
  lemma ListedKeyIsKnown(t: Tables, userId: int, i: nat)
    requires TablesValid(t) && i < |SessionKeys(t, userId)|
    ensures |SessionKeys(t, userId)| == |UserSessions(t, userId)|
    ensures FindSession(t.sessions, SessionKeys(t, userId)[i], userId)
         == Some(UserSessions(t, userId)[|UserSessions(t, userId)| - 1 - i].sessionId)
  {
    var us := UserSessions(t, userId);
    ListedKeyAt(t, userId, i);
    FindSessionOfMember(t.sessions, t.nextSessionId, us[|us| - 1 - i]);
  }

  lemma ListedKeyAt(t: Tables, userId: int, i: nat)
    requires i < |SessionKeys(t, userId)|
    ensures |SessionKeys(t, userId)| == |UserSessions(t, userId)|
    ensures var us := UserSessions(t, userId);
      var s := us[|us| - 1 - i];
      s in t.sessions && s.userId == userId && SessionKeys(t, userId)[i] == s.sessionKey
  {
    var us := UserSessions(t, userId);
    ReverseAt(us, i);
    assert OwnedBy(userId)(us[|us| - 1 - i]);
  }

  lemma FindSessionOfMember(ss: seq<Session>, next: nat, s: Session)
    requires SessionsValid(ss, next) && s in ss
    ensures FindSession(ss, s.sessionKey, s.userId) == Some(s.sessionId)
  {
    var b :| 0 <= b < |ss| && ss[b] == s;
    FindSessionOfRow(ss, next, b);
  }

  /** Every key the user has a session under is listed. */
  lemma KnownKeyIsListed(t: Tables, userId: int, key: string)
    requires FindSession(t.sessions, key, userId).Some?
    ensures key in SessionKeys(t, userId)
  {
    var us := UserSessions(t, userId);
    var b :| 0 <= b < |t.sessions| && KeyedBy(t.sessions[b], key, userId);
    assert OwnedBy(userId)(t.sessions[b]);
    var m :| 0 <= m < |us| && us[m] == t.sessions[b];
    KeyAtReversed(us, m);
    assert SessionKeys(t, userId) == KeysOf(Reverse(us));
  }

  lemma KeyAtReversed(ss: seq<Session>, m: nat)
    requires m < |ss|
    ensures |KeysOf(Reverse(ss))| == |ss| && KeysOf(Reverse(ss))[|ss| - 1 - m] == ss[m].sessionKey
  {
    ReverseAt(ss, |ss| - 1 - m);
  }

  /** The list holds exactly the keys of the user's sessions. */
  lemma SessionKeysExact(t: Tables, userId: int)
    requires TablesValid(t)
    ensures forall key :: key in SessionKeys(t, userId) <==> FindSession(t.sessions, key, userId).Some?
  {
    var keys := SessionKeys(t, userId);
    forall key ensures key in keys <==> FindSession(t.sessions, key, userId).Some? {
      if key in keys {
        var i :| 0 <= i < |keys| && keys[i] == key;
        ListedKeyIsKnown(t, userId, i);
      }
      if FindSession(t.sessions, key, userId).Some? {
        KnownKeyIsListed(t, userId, key);
      }
    }
  }

  /** The list is ordered by session id, newest session first: of two listed
      keys, the earlier one names the younger session. */
  lemma ListedPairNewestFirst(t: Tables, userId: int, i: int, j: int)
    requires TablesValid(t) && 0 <= i < j < |SessionKeys(t, userId)|
    ensures FindSession(t.sessions, SessionKeys(t, userId)[i], userId).Some?
      && FindSession(t.sessions, SessionKeys(t, userId)[j], userId).Some?
      && FindSession(t.sessions, SessionKeys(t, userId)[i], userId).value
         > FindSession(t.sessions, SessionKeys(t, userId)[j], userId).value
  {
    var us := UserSessions(t, userId);
    FilterIncreasing(t.sessions, SessionIdOf, OwnedBy(userId));
    ListedKeyIsKnown(t, userId, i);
    ListedKeyIsKnown(t, userId, j);
    assert SessionIdOf(us[|us| - 1 - j]) < SessionIdOf(us[|us| - 1 - i]);
  }

  // ---------------------------------------------------------------------------
  // load_last_k_text_messages_ollama

  /** The recent rows are the `min(k, n)` text rows of the session with the
      highest ids (all of them for a negative `k`), oldest first. */
  lemma RecentRowsAreNewest(t: Tables, sessionId: nat, k: int)
    requires TablesValid(t)
    ensures |RecentTextRows(t, sessionId, k)| == LimitCount(k, |TextRows(t, sessionId)|)
    ensures forall i :: 0 <= i < |RecentTextRows(t, sessionId, k)| ==>
      RecentTextRows(t, sessionId, k)[i] in t.messages
      && RecentTextRows(t, sessionId, k)[i].chatHistoryId == sessionId
      && RecentTextRows(t, sessionId, k)[i].messageType == TextType
    ensures forall i, j :: 0 <= i < j < |RecentTextRows(t, sessionId, k)| ==>
      RecentTextRows(t, sessionId, k)[i].messageId < RecentTextRows(t, sessionId, k)[j].messageId
    ensures forall i, j :: 0 <= i < |TextRows(t, sessionId)| - |RecentTextRows(t, sessionId, k)| && 0 <= j < |RecentTextRows(t, sessionId, k)| ==>
      TextRows(t, sessionId)[i].messageId < RecentTextRows(t, sessionId, k)[j].messageId
  {
    RecentRowsOfSession(t, sessionId, k);
    FilterIncreasing(t.messages, MessageIdOf, TextInSession(sessionId));
    var rows := TextRows(t, sessionId);
    RecentRowsAscending(rows, |rows| - LimitCount(k, |rows|), RecentTextRows(t, sessionId, k));
  }

  /** The recent rows are text rows of the session. */
  lemma RecentRowsOfSession(t: Tables, sessionId: nat, k: int)
    ensures forall i :: 0 <= i < |RecentTextRows(t, sessionId, k)| ==>
      RecentTextRows(t, sessionId, k)[i] in t.messages
      && RecentTextRows(t, sessionId, k)[i].chatHistoryId == sessionId
      && RecentTextRows(t, sessionId, k)[i].messageType == TextType
  {
    var rows := TextRows(t, sessionId);
    var recent := RecentTextRows(t, sessionId, k);
    var d := |rows| - |recent|;
    forall i | 0 <= i < |recent| ensures recent[i] in t.messages && TextInSession(sessionId)(recent[i]) {
      assert recent[i] == rows[d + i];
    }
  }

  /** A suffix of rows with ascending ids is ascending, and every row before
      it has a smaller id than every row in it. */
  lemma RecentRowsAscending(rows: seq<Message>, d: nat, recent: seq<Message>)
    requires d <= |rows| && recent == rows[d..]
    requires forall i, j :: 0 <= i < j < |rows| ==> MessageIdOf(rows[i]) < MessageIdOf(rows[j])
    ensures forall i, j :: 0 <= i < j < |recent| ==> recent[i].messageId < recent[j].messageId
    ensures forall i, j :: 0 <= i < d && 0 <= j < |recent| ==> rows[i].messageId < recent[j].messageId
  {
    var c := |recent|;
    forall i, j | 0 <= i < j < c ensures recent[i].messageId < recent[j].messageId {
      assert MessageIdOf(rows[d + i]) < MessageIdOf(rows[d + j]);
    }
    forall i, j | 0 <= i < d && 0 <= j < c ensures rows[i].messageId < recent[j].messageId {
      assert MessageIdOf(rows[i]) < MessageIdOf(rows[d + j]);
    }
  }

  /** One session "s" of user 1 holding three text messages, ids 1 to 3. */
  function ThreeMessages(): Tables {
    Tables([Session(1, "s", 1)],
      [Message(1, 1, "user", TextType, Some("q"), None), Message(2, 1, "assistant", TextType, Some("a"), None),
       Message(3, 1, "user", TextType, Some("r"), None)],
      2, 4)
  }

  lemma ThreeMessagesValid()
    ensures TablesValid(ThreeMessages())
  {
    var t := ThreeMessages();
    assert HasSession(t.sessions, 1) by { assert t.sessions[0].sessionId == 1; }
  }

  lemma LastTwoRows()
    ensures FindSession(ThreeMessages().sessions, "s", 1) == Some(1)
    ensures RecentTextRows(ThreeMessages(), 1, 2) == ThreeMessages().messages[1..]
  {
    FilterAll(ThreeMessages().messages, TextInSession(1));
  }

  /** With k = 2 the last two messages come back in chronological order. */
  lemma LastTwoOfThree()
    ensures TablesValid(ThreeMessages())
    ensures RecentTurns(ThreeMessages(), "s", 2, 1) == [Turn("assistant", "a"), Turn("user", "r")]
  {
    ThreeMessagesValid();
    LastTwoRows();
    LastTwoTurns();
  }

  lemma LastTwoTurns()
    ensures TurnsOf(ThreeMessages().messages[1..]) == [Turn("assistant", "a"), Turn("user", "r")]
  {
    var rows := ThreeMessages().messages[1..];
    var r := TurnsOf(rows);
    assert r[0] == TurnOf(rows[0]);
    assert r[1] == TurnOf(rows[1]);
  }

  // ---------------------------------------------------------------------------
  // Keys are stored stripped, and only save strips

  /** Every stored key is already stripped. */
  ghost predicate KeysStripped(ss: seq<Session>) {
    forall i :: 0 <= i < |ss| ==> Strings.Strip(ss[i].sessionKey) == ss[i].sessionKey
  }

  lemma SaveKeepsKeysStripped(t: Tables, sessionKey: string, senderType: string, textContent: string, userId: int,
                              sessionWriteOk: bool, messageWriteOk: bool)
    requires KeysStripped(t.sessions)
    ensures KeysStripped(SaveText(t, sessionKey, senderType, textContent, userId, sessionWriteOk, messageWriteOk).tables.sessions)
  {
    Strings.StripIdempotent(sessionKey);
  }

  lemma DeleteKeepsKeysStripped(t: Tables, key: string, userId: int, writeOk: bool)
    requires KeysStripped(t.sessions)
    ensures KeysStripped(Delete(t, key, userId, writeOk).tables.sessions)
  {
    var o := Delete(t, key, userId, writeOk);
    forall i | 0 <= i < |o.tables.sessions| ensures Strings.Strip(o.tables.sessions[i].sessionKey) == o.tables.sessions[i].sessionKey {
      assert o.tables.sessions[i] in t.sessions;
    }
  }

  /** `load_messages`, `load_last_k_text_messages_ollama` and
      `delete_chat_history` do not strip: a key with surrounding white space
      finds no session even when its stripped form has one. */
  lemma UnstrippedKeyFindsNothing(t: Tables, key: string, userId: int, k: int, writeOk: bool)
    requires TablesValid(t) && KeysStripped(t.sessions)
    requires Strings.Strip(key) != key
    ensures History(t, key, userId) == []
    ensures RecentTurns(t, key, k, userId) == []
    ensures Delete(t, key, userId, writeOk) == Outcome(t, false)
  {
    forall i | 0 <= i < |t.sessions| ensures !KeyedBy(t.sessions[i], key, userId) {
      assert Strings.Strip(t.sessions[i].sessionKey) == t.sessions[i].sessionKey;
    }
  }

  /** The loop of `load_messages` that turns each fetched row into an entry. */
  method LoadRows(rows: seq<Message>) returns (history: seq<LoadedMessage>)
    ensures history == LoadAll(rows)
  {
    history := [];
    for i := 0 to |rows|
      invariant |history| == i
      invariant forall j :: 0 <= j < i ==> history[j] == Load(rows[j])
    {
      history := history + [Load(rows[i])];
    }
  }

  /** The loop of `load_last_k_text_messages_ollama` that walks the
      newest-first page backwards, turning each row into a turn. */
  method ReadOldestFirst(newest: seq<Message>, ghost recent: seq<Message>) returns (history: seq<Turn>)
    requires |newest| == |recent|
    requires forall j :: 0 <= j < |recent| ==> newest[|recent| - 1 - j] == recent[j]
    requires forall j :: 0 <= j < |recent| ==> recent[j].textContent.Some?
    ensures history == TurnsOf(recent)
  {
    history := [];
    var i := |newest|;
    while i > 0
      invariant 0 <= i <= |newest|
      invariant |history| == |newest| - i
      invariant forall j :: 0 <= j < |history| ==> history[j] == TurnOf(recent[j])
    {
      i := i - 1;
      assert newest[i] == recent[|newest| - 1 - i];
      history := history + [TurnOf(newest[i])];
    }
  }

  // ---------------------------------------------------------------------------
  // The database as mutable state

  class Store {
    var sessions: seq<Session>
    var messages: seq<Message>
    var nextSessionId: nat
    var nextMessageId: nat

    function Snapshot(): Tables
      reads this
    {
      Tables(sessions, messages, nextSessionId, nextMessageId)
    }

    ghost predicate Valid()
      reads this
    {
      TablesValid(Snapshot())
    }

    /** `init_db` on a new database file. */
    constructor ()
      ensures Valid() && Snapshot() == Empty
    {
      sessions, messages := [], [];
      nextSessionId, nextMessageId := 1, 1;
    }

    method SaveTextMessage(sessionKey: string, senderType: string, textContent: string, userId: int,
                           sessionWriteOk: bool, messageWriteOk: bool) returns (ok: bool)
      requires Valid()
      modifies this
      ensures Valid()
      ensures Outcome(Snapshot(), ok) == SaveText(old(Snapshot()), sessionKey, senderType, textContent, userId, sessionWriteOk, messageWriteOk)
    {
      ghost var t0 := Snapshot();
      ghost var o := SaveText(t0, sessionKey, senderType, textContent, userId, sessionWriteOk, messageWriteOk);
      SaveTextValid(t0, sessionKey, senderType, textContent, userId, sessionWriteOk, messageWriteOk);
      var key := Strings.Strip(sessionKey);
      var found := FindSession(sessions, key, userId);
      var sid: nat;
      if found.None? {
        if !sessionWriteOk {
          return false;
        }
        sid := nextSessionId;
        sessions := sessions + [Session(sid, key, userId)];
        nextSessionId := nextSessionId + 1;
      } else {
        sid := found.value;
      }
      ghost var t1 := Snapshot();
      assert o == AppendText(t1, sid, senderType, textContent, messageWriteOk);
      if !messageWriteOk {
        return false;
      }
      var m := Message(nextMessageId, sid, senderType, TextType, Some(textContent), None);
      messages := messages + [m];
      nextMessageId := nextMessageId + 1;
      ok := true;
      assert sessions == o.tables.sessions && nextSessionId == o.tables.nextSessionId;
      assert messages == o.tables.messages && nextMessageId == o.tables.nextMessageId;
    }

    method LoadMessages(chatHistoryId: string, userId: int, readOk: bool) returns (history: seq<LoadedMessage>)
      requires Valid()
      ensures history == if readOk then History(Snapshot(), chatHistoryId, userId) else []
    {
      if !readOk {
        return [];
      }
      var found := FindSession(sessions, chatHistoryId, userId);
      if found.None? {
        return [];
      }
      history := LoadRows(SessionRows(Snapshot(), found.value));
    }

    method LoadLastKTextMessages(chatHistoryId: string, k: int, userId: int, readOk: bool) returns (history: seq<Turn>)
      requires Valid()
      ensures history == if readOk then RecentTurns(Snapshot(), chatHistoryId, k, userId) else []
    {
      if !readOk {
        return [];
      }
      var found := FindSession(sessions, chatHistoryId, userId);
      if found.None? {
        return [];
      }
      var sid := found.value;
      var newest := NewestTextRows(Snapshot(), sid, k);
      NewestReversedIsRecent(Snapshot(), sid, k);
      TextRowsHaveText(Snapshot(), sid, k);
      history := ReadOldestFirst(newest, RecentTextRows(Snapshot(), sid, k));
    }

    method GetAllChatHistoryIds(userId: int, readOk: bool) returns (keys: seq<string>)
      ensures keys == if readOk then SessionKeys(Snapshot(), userId) else []
    {
      if !readOk {
        return [];
      }
      keys := SessionKeys(Snapshot(), userId);
    }

    method DeleteChatHistory(chatHistoryId: string, userId: int, writeOk: bool) returns (ok: bool)
      requires Valid()
      modifies this
      ensures Valid()
      ensures Outcome(Snapshot(), ok) == Delete(old(Snapshot()), chatHistoryId, userId, writeOk)
    {
      ghost var o := Delete(Snapshot(), chatHistoryId, userId, writeOk);
      DeleteValid(Snapshot(), chatHistoryId, userId, writeOk);
      var found := FindSession(sessions, chatHistoryId, userId);
      if found.None? || !writeOk {
        assert Snapshot() == o.tables;
        return false;
      }
      messages := Filter(messages, NotInSession(found.value));
      sessions := Filter(sessions, OtherSession(found.value));
      ok := true;
      assert Snapshot() == o.tables;
    }
  }
}

/**
 * The client's shared state and the actions on it: the session store
 * (create, switch, delete, load, retitle), the daily request quota, the
 * history edits of send, regenerate, edit and delete, and the two halves of
 * streamResponse around its awaits. localStorage is a separate object whose
 * ghost fields hold the last value written under each key.
 */
module Chat {
  import opened Opt
  import opened History
  import Sse
  import Delta

  const NewChatTitle: string := "New Chat"
  const TitleLength: nat := 30
  const Ellipsis: string := "..."
  const ErrorText: string := "Error processing request."

  /** The quota a fresh client starts with. */
  const DailyLimit: int := 50

  /** String.prototype.trimEnd, the second half of the trim sendMessage applies to its input. */
  function TrimEnd(s: string): (r: string)
    ensures |r| <= |s| && r == s[..|r|]
    ensures forall i :: |r| <= i < |s| ==> Sse.IsJsWhitespace(s[i])
    ensures r != [] ==> !Sse.IsJsWhitespace(r[|r| - 1])
  {
    if s != [] && Sse.IsJsWhitespace(s[|s| - 1]) then TrimEnd(s[..|s| - 1]) else s
  }

  /** String.prototype.trim: empty exactly when the input is all whitespace. */
  function Trim(s: string): (r: string)
    ensures r == [] <==> forall i :: 0 <= i < |s| ==> Sse.IsJsWhitespace(s[i])
    ensures r != [] ==> !Sse.IsJsWhitespace(r[0]) && !Sse.IsJsWhitespace(r[|r| - 1])
  {
    var t := Sse.TrimStart(s);
    assert forall i :: |s| - |t| <= i < |s| ==> s[i] == t[i - (|s| - |t|)];
    TrimEnd(t)
  }

  /** updateSessionTitle's title: the first 30 characters, and "..." exactly when something was cut. */
  function Title(message: string): (t: string)
    ensures |t| <= TitleLength + |Ellipsis|
    ensures |message| <= TitleLength ==> t == message
    ensures |message| > TitleLength ==> |t| == TitleLength + |Ellipsis| && t[..TitleLength] == message[..TitleLength] && t[TitleLength..] == Ellipsis
  {
    if |message| > TitleLength then message[..TitleLength] + Ellipsis else message
  }

  /**
   * The quota gate shared by send, regenerate and edit: refused at zero or
   * below, otherwise one request is reserved.
   */
  function Reserve(requestsLeft: int): (r: Option<int>)
    ensures r.None? <==> requestsLeft <= 0
    ensures r.Some? ==> r.value == requestsLeft - 1 && r.value >= 0
  {
    if requestsLeft <= 0 then None else Some(requestsLeft - 1)
  }

  /** How many of `attempts` request-issuing actions in a row get past the gate. */
  function Granted(requestsLeft: int, attempts: nat): nat {
    if attempts == 0 then 0
    else match Reserve(requestsLeft)
      case None => 0
      case Some(left) => 1 + Granted(left, attempts - 1)
  }

  /** From a count of n, every run of actions issues min(attempts, n) requests and never more than n. */
  lemma {:induction false} GrantedBound(requestsLeft: int, attempts: nat)
    ensures Granted(requestsLeft, attempts) == if requestsLeft <= 0 then 0
                                               else if attempts <= requestsLeft then attempts
                                               else requestsLeft
  {
    if attempts > 0 && requestsLeft > 0 {
      GrantedBound(requestsLeft - 1, attempts - 1);
    }
  }

  /** A session as JSON.stringify writes it to localStorage. */
  datatype SessionRecord = SessionRecord(id: string, title: string, history: seq<Message>)

  /** A chat session; its title and history are changed in place. */
  class Session {
    const id: string
    var title: string
    var history: seq<Message>

    constructor (id: string, title: string, history: seq<Message>)
      ensures this.id == id && this.title == title && this.history == history
    {
      this.id := id;
      this.title := title;
      this.history := history;
    }

    function Record(): SessionRecord
      reads this
    {
      SessionRecord(id, title, history)
    }
  }

  /** The serialized session list. */
  function Records(ss: seq<Session>): (r: seq<SessionRecord>)
    reads set s | s in ss
    ensures |r| == |ss|
    ensures forall i | 0 <= i < |ss| :: r[i] == ss[i].Record()
  {
    seq(|ss|, i requires 0 <= i < |ss| reads ss => ss[i].Record())
  }

  /**
   * `chatSessions.find((s) => s.id === id)`, as a position: the first session
   * with that id, or -1 when there is none (an absent id matches nothing).
   */
  function IndexOfId(ss: seq<Session>, id: Option<string>): (k: int)
    ensures -1 <= k < |ss|
    ensures k == -1 <==> forall i | 0 <= i < |ss| :: Some(ss[i].id) != id
    ensures k >= 0 ==> Some(ss[k].id) == id && forall i | 0 <= i < k :: Some(ss[i].id) != id
  {
    if ss == [] then -1
    else if Some(ss[0].id) == id then 0
    else
      var k := IndexOfId(ss[1..], id);
      if k == -1 then -1 else k + 1
  }

  function Lookup(ss: seq<Session>, id: Option<string>): Option<Session> {
    var k := IndexOfId(ss, id);
    if k == -1 then None else Some(ss[k])
  }

  /** `chatSessions.filter((s) => s.id !== id)`. */
  function WithoutId(ss: seq<Session>, id: string): (r: seq<Session>)
    ensures |r| <= |ss|
    ensures forall i | 0 <= i < |r| :: r[i].id != id && r[i] in ss
    ensures forall i | 0 <= i < |ss| && ss[i].id != id :: ss[i] in r
    ensures (forall i | 0 <= i < |ss| :: ss[i].id != id) ==> r == ss
  {
    if ss == [] then []
    else if ss[0].id == id then WithoutId(ss[1..], id)
    else [ss[0]] + WithoutId(ss[1..], id)
  }

  /** One session is kept exactly when its id differs. */
  lemma WithoutIdSingle(s: Session, id: string)
    ensures WithoutId([s], id) == if s.id == id then [] else [s]
  {
    assert [s][1..] == [];
  }

  /** Filtering a concatenation filters each part and keeps their order. */
  lemma {:induction false} WithoutIdAppend(a: seq<Session>, b: seq<Session>, id: string)
    ensures WithoutId(a + b, id) == WithoutId(a, id) + WithoutId(b, id)
  {
    if a == [] {
      assert a + b == b;
    } else {
      assert (a + b)[0] == a[0];
      assert (a + b)[1..] == a[1..] + b;
      WithoutIdAppend(a[1..], b, id);
    }
  }

  /** No two sessions share an id. */
  predicate UniqueIds(ss: seq<Session>) {
    forall i, j | 0 <= i < j < |ss| :: ss[i].id != ss[j].id
  }

  /** No two positions hold the same session object. */
  predicate Distinct(ss: seq<Session>) {
    forall i, j | 0 <= i < j < |ss| :: ss[i] != ss[j]
  }

  /** Filtering keeps the relative order, so it keeps ids unique. */
  lemma {:induction false} WithoutIdKeepsIds(ss: seq<Session>, id: string)
    ensures UniqueIds(ss) ==> UniqueIds(WithoutId(ss, id))
  {
    if ss != [] && UniqueIds(ss) {
      WithoutIdKeepsIds(ss[1..], id);
      var rest := WithoutId(ss[1..], id);
      if ss[0].id != id {
        assert forall x | x in ss[1..] :: x.id != ss[0].id;
        var r := [ss[0]] + rest;
        assert forall i | 1 <= i < |r| :: r[i] == rest[i - 1] && rest[i - 1] in ss[1..];
      }
    }
  }

  /** Filtering keeps every session object at one position at most. */
  lemma {:induction false} WithoutIdKeepsDistinct(ss: seq<Session>, id: string)
    ensures Distinct(ss) ==> Distinct(WithoutId(ss, id))
  {
    if ss != [] && Distinct(ss) {
      WithoutIdKeepsDistinct(ss[1..], id);
      var rest := WithoutId(ss[1..], id);
      if ss[0].id != id {
        assert ss[0] !in ss[1..];
        var r := [ss[0]] + rest;
        assert forall i | 1 <= i < |r| :: r[i] == rest[i - 1] && rest[i - 1] in ss[1..];
      }
    }
  }

  /** How JavaScript writes `currentSessionId` to storage: `null` becomes the text "null". */
  function StoredId(id: Option<string>): string {
    match id
    case None => "null"
    case Some(s) => s
  }

  /** What JavaScript treats as a missing saved id: `null` or the empty string. */
  predicate MissingId(id: Option<string>) {
    id == None || id == Some("")
  }

  /** The three localStorage keys the client writes. */
  class Storage {
    ghost var chatSessions: seq<SessionRecord>
    ghost var currentSessionId: string
    ghost var requestsLeft: int

    constructor ()
    {
    }
  }

  /** What the network gives streamResponse: a failure (a rejected fetch or read, !ok, no body) or the decoded chunks. */
  datatype Reply = Failed | Delivered(chunks: seq<string>)

  /** A request on its way: the session streamResponse holds, the placeholder's index and the messages sent. */
  datatype InFlight = InFlight(session: Session, assistantIndex: nat, messages: seq<Message>)

  /** The text the placeholder ends with, when it is still there to be written. */
  function FinalText(reply: Reply, decode: Delta.Decoder): string {
    match reply
    case Failed => ErrorText
    case Delivered(chunks) => Delta.StreamText(chunks, decode)
  }

  /** When only session k's record differs from an earlier serialization, only entry k does. */
  lemma RecordsUpdated(ss: seq<Session>, k: nat, before: seq<SessionRecord>)
    requires k < |ss| && |before| == |ss|
    requires forall i | 0 <= i < |ss| && i != k :: before[i] == ss[i].Record()
    ensures Records(ss) == before[k := ss[k].Record()]
  {
  }

  /** A saved list entry naming how the session list in localStorage parsed. */
  datatype SavedList = Missing | Unparsable | Parsed(list: seq<Session>)

  class ChatApp {
    var sessions: seq<Session>
    var currentSessionId: Option<string>
    var isProcessing: bool
    var requestsLeft: int
    const store: Storage

    constructor ()
      ensures sessions == [] && currentSessionId == None
      ensures !isProcessing && requestsLeft == DailyLimit
      ensures fresh(store)
    {
      sessions := [];
      currentSessionId := None;
      isProcessing := false;
      requestsLeft := DailyLimit;
      store := new Storage();
    }

    /** Every session appears once in the list. */
    predicate Valid()
      reads this
    {
      Distinct(sessions)
    }

    function Current(): Option<Session>
      reads this
    {
      Lookup(sessions, currentSessionId)
    }

    /** The session an action on the given id may change, as a frame. */
    function Named(id: Option<string>): set<Session>
      reads this
    {
      var found := Lookup(sessions, id);
      if found.Some? then {found.value} else {}
    }

    /** Memory and localStorage agree on the session list and the active id. */
    ghost predicate Persisted()
      reads this, store, set s | s in sessions
    {
      store.chatSessions == Records(sessions) && store.currentSessionId == StoredId(currentSessionId)
    }

    /** saveSessions: writes the session list and the active id. */
    method SaveSessions()
      modifies store
      ensures Persisted()
      ensures store.requestsLeft == old(store.requestsLeft)
    {
      store.chatSessions := Records(sessions);
      store.currentSessionId := StoredId(currentSessionId);
    }

    /** updateRequestCount: writes the quota. */
    method UpdateRequestCount()
      modifies store
      ensures store.requestsLeft == requestsLeft
      ensures store.chatSessions == old(store.chatSessions) && store.currentSessionId == old(store.currentSessionId)
    {
      store.requestsLeft := requestsLeft;
    }

    /** `requestsLeft--; updateRequestCount();`, where a gate has passed. */
    method SpendRequest()
      requires requestsLeft > 0
      modifies this, store
      ensures requestsLeft == old(requestsLeft) - 1 && requestsLeft >= 0 && store.requestsLeft == requestsLeft
      ensures sessions == old(sessions) && currentSessionId == old(currentSessionId) && isProcessing == old(isProcessing)
      ensures store.chatSessions == old(store.chatSessions) && store.currentSessionId == old(store.currentSessionId)
    {
      requestsLeft := requestsLeft - 1;
      UpdateRequestCount();
    }

    /** loadRequestCount: a saved count (already parsed) replaces the default. */
    method LoadRequestCount(saved: Option<int>)
      modifies this, store
      ensures requestsLeft == if saved.Some? then saved.value else old(requestsLeft)
      ensures store.requestsLeft == requestsLeft
      ensures sessions == old(sessions) && currentSessionId == old(currentSessionId) && isProcessing == old(isProcessing)
      ensures store.chatSessions == old(store.chatSessions) && store.currentSessionId == old(store.currentSessionId)
    {
      if saved.Some? {
        requestsLeft := saved.value;
      }
      UpdateRequestCount();
    }

    /**
     * createNewSession: a session with the given fresh id, the title
     * "New Chat" and the greeting goes in front of the others, and the list
     * is saved.
     */
    method CreateNewSession(freshId: string) returns (sessionId: string)
      requires Valid()
      requires forall i | 0 <= i < |sessions| :: sessions[i].id != freshId
      modifies this, store
      ensures Valid()
      ensures sessionId == freshId
      ensures |sessions| == |old(sessions)| + 1 && sessions[1..] == old(sessions) && fresh(sessions[0])
      ensures sessions[0].Record() == SessionRecord(freshId, NewChatTitle, [Greeting])
      ensures UniqueIds(old(sessions)) ==> UniqueIds(sessions)
      ensures currentSessionId == old(currentSessionId) && isProcessing == old(isProcessing) && requestsLeft == old(requestsLeft)
      ensures Persisted() && store.requestsLeft == old(store.requestsLeft)
    {
      var session := new Session(freshId, NewChatTitle, [Greeting]);
      sessions := [session] + sessions;
      assert sessions[1..] == old(sessions);
      SaveSessions();
      sessionId := freshId;
    }

    /**
     * switchToSession: the id becomes active before it is looked up, so an
     * unknown id is made active too (only rendering is skipped then).
     */
    method SwitchToSession(sessionId: string)
      modifies this
      ensures currentSessionId == Some(sessionId)
      ensures sessions == old(sessions) && isProcessing == old(isProcessing) && requestsLeft == old(requestsLeft)
    {
      currentSessionId := Some(sessionId);
    }

    /**
     * The "New Chat" button: create a session and make it the active one.
     * The list is saved before the switch, so the stored active id is still
     * the previous one.
     */
    method NewChat(freshId: string)
      requires Valid()
      requires forall i | 0 <= i < |sessions| :: sessions[i].id != freshId
      modifies this, store
      ensures Valid()
      ensures |sessions| == |old(sessions)| + 1 && sessions[1..] == old(sessions) && fresh(sessions[0])
      ensures sessions[0].Record() == SessionRecord(freshId, NewChatTitle, [Greeting])
      ensures Current() == Some(sessions[0])
      ensures isProcessing == old(isProcessing) && requestsLeft == old(requestsLeft)
      ensures store.chatSessions == Records(sessions) && store.currentSessionId == StoredId(old(currentSessionId))
      ensures store.requestsLeft == old(store.requestsLeft)
    {
      var sessionId := CreateNewSession(freshId);
      SwitchToSession(sessionId);
    }

    /**
     * deleteSession, once the deletion is confirmed: every session with the
     * id goes and the list is saved; an emptied list gets a new session,
     * which becomes active, and a deleted active session hands over to the
     * first one left. Both saves happen before the switch, so the stored
     * active id is still the one from before.
     */
    method DeleteSession(sessionId: string, confirmed: bool, freshId: string)
      requires Valid()
      requires freshId != sessionId
      modifies this, store
      ensures Valid()
      ensures !confirmed ==> sessions == old(sessions) && currentSessionId == old(currentSessionId)
      ensures !confirmed ==> unchanged(store)
      ensures confirmed ==> sessions != [] && forall i | 0 <= i < |sessions| :: sessions[i].id != sessionId
      ensures confirmed && WithoutId(old(sessions), sessionId) != [] ==>
                sessions == WithoutId(old(sessions), sessionId) &&
                currentSessionId == if old(currentSessionId) == Some(sessionId) then Some(sessions[0].id) else old(currentSessionId)
      ensures confirmed && WithoutId(old(sessions), sessionId) == [] ==>
                |sessions| == 1 && fresh(sessions[0]) && sessions[0].Record() == SessionRecord(freshId, NewChatTitle, [Greeting]) &&
                currentSessionId == Some(freshId)
      ensures confirmed ==> store.chatSessions == Records(sessions) && store.currentSessionId == StoredId(old(currentSessionId))
      ensures UniqueIds(old(sessions)) ==> UniqueIds(sessions)
      ensures isProcessing == old(isProcessing) && requestsLeft == old(requestsLeft) && store.requestsLeft == old(store.requestsLeft)
    {
      if !confirmed {
        return;
      }
      WithoutIdKeepsIds(sessions, sessionId);
      WithoutIdKeepsDistinct(sessions, sessionId);
      sessions := WithoutId(sessions, sessionId);
      SaveSessions();
      if sessions == [] {
        var newId := CreateNewSession(freshId);
        SwitchToSession(newId);
      } else if currentSessionId == Some(sessionId) {
        SwitchToSession(sessions[0].id);
      }
    }

    /**
     * loadSessions: a parsed list replaces the sessions and the saved id is
     * kept when it is truthy and found; otherwise the first session's id, when
     * truthy, or a new session takes over. A missing or unparsable list gets a
     * new session. Either way some listed session is active afterwards.
     */
    method LoadSessions(saved: SavedList, savedCurrentId: Option<string>, freshId: string)
      requires Valid()
      requires saved.Parsed? ==> Distinct(saved.list)
      requires forall i | 0 <= i < |sessions| :: sessions[i].id != freshId
      requires saved.Parsed? ==> forall i | 0 <= i < |saved.list| :: saved.list[i].id != freshId
      modifies this, store
      ensures Valid()
      ensures sessions != [] && Current().Some?
      ensures saved.Parsed? && !MissingId(savedCurrentId) && IndexOfId(saved.list, savedCurrentId) >= 0 ==>
                sessions == saved.list && currentSessionId == savedCurrentId && unchanged(store)
      ensures saved.Parsed? && (MissingId(savedCurrentId) || IndexOfId(saved.list, savedCurrentId) == -1) &&
              saved.list != [] && saved.list[0].id != "" ==>
                sessions == saved.list && currentSessionId == Some(saved.list[0].id) && unchanged(store)
      ensures saved.Parsed? && (MissingId(savedCurrentId) || IndexOfId(saved.list, savedCurrentId) == -1) &&
              (saved.list == [] || saved.list[0].id == "") ==>
                sessions[1..] == saved.list && currentSessionId == Some(freshId) && fresh(sessions[0]) &&
                sessions[0].Record() == SessionRecord(freshId, NewChatTitle, [Greeting]) &&
                store.chatSessions == Records(sessions) && store.currentSessionId == StoredId(savedCurrentId)
      ensures !saved.Parsed? ==>
                sessions[1..] == old(sessions) && currentSessionId == Some(freshId) && fresh(sessions[0]) &&
                sessions[0].Record() == SessionRecord(freshId, NewChatTitle, [Greeting]) &&
                store.chatSessions == Records(sessions) && store.currentSessionId == StoredId(old(currentSessionId))
      ensures isProcessing == old(isProcessing) && requestsLeft == old(requestsLeft)
      ensures store.requestsLeft == old(store.requestsLeft)
    {
      match saved
      case Parsed(list) =>
        sessions := list;
        currentSessionId := savedCurrentId;
        if MissingId(currentSessionId) || IndexOfId(sessions, currentSessionId) == -1 {
          if sessions != [] && sessions[0].id != "" {
            SwitchToSession(sessions[0].id);
          } else {
            // `createNewSession()` followed by the switch, as the "New Chat" button does
            NewChat(freshId);
          }
        } else {
          SwitchToSession(currentSessionId.value);
        }
      case _ =>
        NewChat(freshId);
    }

    /**
     * updateSessionTitle: a found session whose history has at most two
     * messages gets the title of the message, and the list is saved; longer
     * histories and unknown ids change nothing.
     */
    method UpdateSessionTitle(sessionId: Option<string>, userMessage: string)
      modifies store, Named(sessionId)
      ensures var found := Lookup(sessions, sessionId);
              (found.Some? && |old(found.value.history)| <= 2 ==>
                found.value.title == Title(userMessage) && Persisted()) &&
              (found.None? || |old(found.value.history)| > 2 ==>
                unchanged(store) && (found.Some? ==> unchanged(found.value))) &&
              (found.Some? ==> found.value.history == old(found.value.history))
      ensures store.requestsLeft == old(store.requestsLeft)
    {
      var found := Lookup(sessions, sessionId);
      if found.Some? && |found.value.history| <= 2 {
        found.value.title := Title(userMessage);
        SaveSessions();
      }
    }

    /**
     * The synchronous start of streamResponse: the flag is set, the empty
     * assistant placeholder is pushed, and the request carries every message
     * before it (the greeting included).
     */
    method BeginStream(session: Session) returns (flight: InFlight)
      modifies this, session
      ensures isProcessing
      ensures session.history == old(session.history) + [Placeholder] && session.title == old(session.title)
      ensures flight == InFlight(session, |old(session.history)|, old(session.history))
      ensures sessions == old(sessions) && currentSessionId == old(currentSessionId) && requestsLeft == old(requestsLeft)
    {
      ghost var original := session.history;
      isProcessing := true;
      session.history := session.history + [Placeholder];
      var assistantIndex := |session.history| - 1;
      RequestAfterPush(original);
      flight := InFlight(session, assistantIndex, Request(session.history));
    }

    /**
     * The end of streamResponse, after its awaits: the placeholder's index
     * gets the streamed text (and the list is saved) or the error text (not
     * saved). When the index is no longer in the history the write throws in
     * both branches and nothing but the flag changes. The flag is cleared
     * either way.
     */
    method FinishStream(flight: InFlight, reply: Reply, decode: Delta.Decoder)
      modifies this, store, flight.session
      ensures !isProcessing
      ensures sessions == old(sessions) && currentSessionId == old(currentSessionId) && requestsLeft == old(requestsLeft)
      ensures flight.session.title == old(flight.session.title)
      ensures var h := old(flight.session.history);
              flight.assistantIndex < |h| ==>
                flight.session.history == WithContent(h, flight.assistantIndex, FinalText(reply, decode))
      ensures var h := old(flight.session.history);
              flight.assistantIndex >= |h| ==> flight.session.history == h
      ensures flight.assistantIndex < |old(flight.session.history)| && reply.Delivered? ==> Persisted()
      ensures !(flight.assistantIndex < |old(flight.session.history)| && reply.Delivered?) ==> unchanged(store)
      ensures store.requestsLeft == old(store.requestsLeft)
    {
      var session := flight.session;
      match reply {
        case Delivered(chunks) =>
          var fullResponseText := Delta.ReadStream(chunks, decode);
          if flight.assistantIndex < |session.history| {
            session.history := WithContent(session.history, flight.assistantIndex, fullResponseText);
            SaveSessions();
          }
        case Failed =>
          if flight.assistantIndex < |session.history| {
            session.history := WithContent(session.history, flight.assistantIndex, ErrorText);
          }
      }
      isProcessing := false;
    }

    /** What sendMessage needs before it does anything: a message, no stream running, quota, an active session. */
    predicate CanSend(message: string)
      reads this
    {
      message != "" && !isProcessing && requestsLeft > 0 && Current().Some?
    }

    /**
     * sendMessage: past the gate one request is spent, the trimmed message is
     * pushed, the title is updated (which saves the list when the history is
     * still short) and the stream begins.
     */
    method SendMessage(input: string) returns (flight: Option<InFlight>)
      requires Valid()
      modifies this, store, Named(currentSessionId)
      ensures Valid() && sessions == old(sessions) && currentSessionId == old(currentSessionId)
      ensures !old(CanSend(Trim(input))) ==>
                flight == None && isProcessing == old(isProcessing) && requestsLeft == old(requestsLeft) &&
                unchanged(store) && (old(Current()).Some? ==> unchanged(old(Current()).value))
      ensures old(CanSend(Trim(input))) ==>
                var s := old(Current()).value;
                var h := old(s.history);
                var sent := h + [Message(User, Trim(input))];
                var k := old(IndexOfId(sessions, currentSessionId));
                flight == Some(InFlight(s, |sent|, sent)) &&
                s.history == sent + [Placeholder] &&
                isProcessing && Some(requestsLeft) == old(Reserve(requestsLeft)) && store.requestsLeft == requestsLeft &&
                (|sent| <= 2 ==>
                  s.title == Title(Trim(input)) &&
                  store.chatSessions == old(Records(sessions))[k := SessionRecord(s.id, s.title, sent)] &&
                  store.currentSessionId == StoredId(currentSessionId)) &&
                (|sent| > 2 ==>
                  s.title == old(s.title) &&
                  store.chatSessions == old(store.chatSessions) && store.currentSessionId == old(store.currentSessionId))
    {
      var message := Trim(input);
      if message == "" || isProcessing {
        return None;
      }
      if requestsLeft <= 0 {
        return None;
      }
      var found := Current();
      if found.None? {
        return None;
      }
      assert Reserve(requestsLeft) == Some(requestsLeft - 1);
      flight := Submit(found.value, message);
    }

    /** sendMessage past its gate: spend, push, retitle, begin. */
    method Submit(session: Session, message: string) returns (flight: Option<InFlight>)
      requires Valid() && requestsLeft > 0 && Current() == Some(session)
      modifies this, store, session
      ensures Valid() && sessions == old(sessions) && currentSessionId == old(currentSessionId)
      ensures var h := old(session.history);
              var sent := h + [Message(User, message)];
              var k := old(IndexOfId(sessions, currentSessionId));
              flight == Some(InFlight(session, |sent|, sent)) &&
              session.history == sent + [Placeholder] &&
              isProcessing && requestsLeft == old(requestsLeft) - 1 && store.requestsLeft == requestsLeft &&
              (|sent| <= 2 ==>
                session.title == Title(message) &&
                store.chatSessions == old(Records(sessions))[k := SessionRecord(session.id, session.title, sent)] &&
                store.currentSessionId == StoredId(currentSessionId)) &&
              (|sent| > 2 ==>
                session.title == old(session.title) &&
                store.chatSessions == old(store.chatSessions) && store.currentSessionId == old(store.currentSessionId))
    {
      ghost var k := IndexOfId(sessions, currentSessionId);
      ghost var records := Records(sessions);
      assert forall i | 0 <= i < |sessions| && i != k :: sessions[i] != session;
      SpendRequest();
      session.history := session.history + [Message(User, message)];
      ghost var sent := session.history;
      assert Lookup(sessions, currentSessionId) == Some(session);
      UpdateSessionTitle(currentSessionId, message);
      assert session.history == sent;
      RecordsUpdated(sessions, k, records);
      var started := BeginStream(session);
      flight := Some(started);
    }

    /**
     * regenerateMessage: with an active session, no stream running and quota
     * left, one request is spent, the message at the index is removed, the
     * list is saved and the stream begins.
     */
    method RegenerateMessage(index: nat) returns (flight: Option<InFlight>)
      requires Valid()
      modifies this, store, Named(currentSessionId)
      ensures Valid() && sessions == old(sessions) && currentSessionId == old(currentSessionId)
      ensures old(Current().None? || isProcessing || requestsLeft <= 0) ==>
                flight == None && isProcessing == old(isProcessing) && requestsLeft == old(requestsLeft) &&
                unchanged(store) && (old(Current()).Some? ==> unchanged(old(Current()).value))
      ensures old(Current().Some? && !isProcessing && requestsLeft > 0) ==>
                var s := old(Current()).value;
                var kept := RemoveAt(old(s.history), index);
                var k := old(IndexOfId(sessions, currentSessionId));
                flight == Some(InFlight(s, |kept|, kept)) &&
                s.history == kept + [Placeholder] && s.title == old(s.title) &&
                isProcessing && Some(requestsLeft) == old(Reserve(requestsLeft)) && store.requestsLeft == requestsLeft &&
                store.chatSessions == old(Records(sessions))[k := SessionRecord(s.id, s.title, kept)] &&
                store.currentSessionId == StoredId(currentSessionId)
    {
      var found := Current();
      if found.None? || isProcessing {
        return None;
      }
      if requestsLeft <= 0 {
        return None;
      }
      var session := found.value;
      ghost var k := IndexOfId(sessions, currentSessionId);
      ghost var records := Records(sessions);
      ghost var left := requestsLeft;
      assert forall i | 0 <= i < |sessions| && i != k :: sessions[i] != session;
      SpendRequest();
      assert Some(requestsLeft) == Reserve(left);
      session.history := RemoveAt(session.history, index);
      SaveSessions();
      RecordsUpdated(sessions, k, records);
      var started := BeginStream(session);
      flight := Some(started);
    }

    /**
     * saveEdit: with an active session and quota left (a running stream does
     * not stop it), one request is spent; the message at the index gets the
     * new content, everything after it is removed, the list is saved and the
     * stream begins. An index past the end throws once the request is spent.
     */
    method SaveEdit(index: nat, newContent: string) returns (flight: Option<InFlight>)
      requires Valid()
      modifies this, store, Named(currentSessionId)
      ensures Valid() && sessions == old(sessions) && currentSessionId == old(currentSessionId)
      ensures old(Current().None? || requestsLeft <= 0) ==>
                flight == None && isProcessing == old(isProcessing) && requestsLeft == old(requestsLeft) &&
                unchanged(store) && (old(Current()).Some? ==> unchanged(old(Current()).value))
      ensures old(Current().Some? && requestsLeft > 0) ==>
                Some(requestsLeft) == old(Reserve(requestsLeft)) && store.requestsLeft == requestsLeft
      ensures var found := old(Current());
              found.Some? && old(requestsLeft) > 0 && index >= |old(found.value.history)| ==>
                flight == None && isProcessing == old(isProcessing) && unchanged(found.value) &&
                store.chatSessions == old(store.chatSessions) && store.currentSessionId == old(store.currentSessionId)
      ensures var found := old(Current());
              found.Some? && old(requestsLeft) > 0 && index < |old(found.value.history)| ==>
                var s := found.value;
                var kept := Edited(old(s.history), index, newContent);
                var k := old(IndexOfId(sessions, currentSessionId));
                flight == Some(InFlight(s, index + 1, kept)) &&
                s.history == kept + [Placeholder] && s.title == old(s.title) && isProcessing &&
                store.chatSessions == old(Records(sessions))[k := SessionRecord(s.id, s.title, kept)] &&
                store.currentSessionId == StoredId(currentSessionId)
    {
      var found := Current();
      if found.None? {
        return None;
      }
      if requestsLeft <= 0 {
        return None;
      }
      var session := found.value;
      assert Reserve(requestsLeft) == Some(requestsLeft - 1);
      SpendRequest();
      if index >= |session.history| {
        return None;
      }
      flight := Resubmit(session, index, newContent);
    }

    /** saveEdit once the request is spent and the index is known to be in the history. */
    method Resubmit(session: Session, index: nat, newContent: string) returns (flight: Option<InFlight>)
      requires Valid() && Current() == Some(session) && index < |session.history|
      modifies this, store, session
      ensures Valid() && sessions == old(sessions) && currentSessionId == old(currentSessionId)
      ensures requestsLeft == old(requestsLeft) && store.requestsLeft == old(store.requestsLeft)
      ensures var kept := Edited(old(session.history), index, newContent);
              var k := old(IndexOfId(sessions, currentSessionId));
              flight == Some(InFlight(session, index + 1, kept)) &&
              session.history == kept + [Placeholder] && session.title == old(session.title) && isProcessing &&
              store.chatSessions == old(Records(sessions))[k := SessionRecord(session.id, session.title, kept)] &&
              store.currentSessionId == StoredId(currentSessionId)
    {
      ghost var k := IndexOfId(sessions, currentSessionId);
      ghost var records := Records(sessions);
      assert forall i | 0 <= i < |sessions| && i != k :: sessions[i] != session;
      ghost var original := session.history;
      session.history := WithContent(session.history, index, newContent);
      var elementsToRemove := |session.history| - 1 - index;
      if elementsToRemove > 0 {
        session.history := session.history[..index + 1];
      }
      assert session.history == Edited(original, index, newContent);
      SaveSessions();
      RecordsUpdated(sessions, k, records);
      var started := BeginStream(session);
      flight := Some(started);
    }

    /**
     * deleteMessage: once confirmed, the message at the index of the active
     * session is removed (nothing, past the end) and the list is saved.
     */
    method DeleteMessage(index: nat, confirmed: bool)
      modifies store, Named(currentSessionId)
      ensures old(Current()).None? || !confirmed ==> unchanged(store) && (old(Current()).Some? ==> unchanged(old(Current()).value))
      ensures old(Current()).Some? && confirmed ==>
                var s := old(Current()).value;
                s.history == RemoveAt(old(s.history), index) && s.title == old(s.title) && Persisted()
      ensures store.requestsLeft == old(store.requestsLeft)
    {
      var found := Current();
      if found.None? {
        return;
      }
      if confirmed {
        var session := found.value;
        session.history := RemoveAt(session.history, index);
        SaveSessions();
      }
    }

    /**
     * A message sent and answered with nothing in between: the history grows
     * by the user's message and the assistant's final text, one request is
     * spent, the flag ends cleared, and a delivered answer is saved.
     */
    method SendAndAwait(input: string, reply: Reply, decode: Delta.Decoder) returns (sent: bool)
      requires Valid()
      modifies this, store, Named(currentSessionId)
      ensures Valid() && sessions == old(sessions) && currentSessionId == old(currentSessionId)
      ensures sent <==> old(CanSend(Trim(input)))
      ensures !sent ==>
                requestsLeft == old(requestsLeft) && isProcessing == old(isProcessing) && unchanged(store) &&
                (old(Current()).Some? ==> unchanged(old(Current()).value))
      ensures sent ==>
                var s := old(Current()).value;
                s.history == old(s.history) + [Message(User, Trim(input))] + [Message(Assistant, FinalText(reply, decode))] &&
                !isProcessing && Some(requestsLeft) == old(Reserve(requestsLeft)) && store.requestsLeft == requestsLeft &&
                (|old(s.history)| < 2 ==> s.title == Title(Trim(input))) &&
                (|old(s.history)| >= 2 ==> s.title == old(s.title)) &&
                (reply.Delivered? ==> Persisted())
    {
      ghost var message := Trim(input);
      ghost var found := Current();
      ghost var before := if found.Some? then found.value.history else [];
      var flight := SendMessage(input);
      sent := flight.Some?;
      if sent {
        var started := flight.value;
        ghost var asked := before + [Message(User, message)];
        assert started.session == found.value && started.assistantIndex == |asked|;
        FinishStream(started, reply, decode);
        FillPlaceholder(asked, FinalText(reply, decode));
      }
    }
  }
}

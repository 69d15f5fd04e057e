/** Login, logout and one-to-one chat as the logic thread executes them: one callback at a time over the user
    table and the sessions' send queues. */
module Chat {
  import opened Frames
  import opened Options
  import opened Outbox
  import S = Session
  import Kinds

  const CODE_LOGIN_SUCCESS := 1003
  const CODE_LOGIN_FAILED := 1004
  const CODE_ONE_CHAT_SUCCESS := 1013
  const CODE_ONE_CHAT_FAILED := 1014

  datatype User = User(id: int, name: string, password: string, state: string, uuid: string)

  const NO_USER := User(-1, "", "", "offline", "")

  type Table = map<int, User>

  /** What a query gives: the row, or the empty user if there is none or the query fails. */
  function LookUp(rows: Table, id: int, works: bool): User {
    if works && id in rows then rows[id] else NO_USER
  }

  function WithState(rows: Table, id: int, state: string, uuid: string, works: bool): Table {
    if works && id in rows then rows[id := rows[id].(state := state, uuid := uuid)] else rows
  }

  datatype Entry = LoggedIn(id: int, uuid: string) | LoggedOut(id: int)

  /** `boxes` are the send queues of all sessions, `mapped` the sessions the server can find,
      `log` the history of successful logins and of logouts. */
  datatype State = State(rows: Table, boxes: map<string, Outbox>, mapped: set<string>, log: seq<Entry>)

  /** How a reply code is rendered as a message body; replies fit into a frame. */
  type Render = f: int -> seq<Byte> | forall code :: |f(code)| <= MAX_BODY witness (code: int) => []

  /** Whether the database can be reached for the query and for the update of a request. */
  datatype Db = Db(query: bool, update: bool)

  datatype Request =
    | Accept(uuid: string)
    | Clear(uuid: string)
    | Login(session: string, id: int, name: string, password: string, db: Db)
    | Logout(id: int, db: Db)
    | OneChat(session: string, toid: int, payload: seq<Byte>, db: Db)

  const MSG_LOGIN: Short := Kinds.MSG_LOGIN
  const MSG_ONE_CHAT: Short := Kinds.MSG_ONE_CHAT

  function SendTo(boxes: map<string, Outbox>, uuid: string, m: Message): map<string, Outbox> {
    if uuid in boxes then boxes[uuid := Push(boxes[uuid], m)] else boxes
  }

  function LoginReply(ok: bool, render: Render): Message {
    Message(MSG_LOGIN, render(if ok then CODE_LOGIN_SUCCESS else CODE_LOGIN_FAILED))
  }

  predicate MayLogin(rows: Table, id: int, name: string, password: string, works: bool) {
    var u := LookUp(rows, id, works);
    u.id != NO_USER.id && u.name == name && u.password == password && u.state != "online"
  }

  /** One request as the logic thread handles it.  Nobody looks whether an update worked. */
  function Handle(s: State, r: Request, render: Render): State {
    match r
    case Accept(uuid) =>
      if uuid in s.boxes then s else s.(boxes := s.boxes[uuid := EMPTY], mapped := s.mapped + {uuid})
    case Clear(uuid) => s.(mapped := s.mapped - {uuid})
    case Login(session, id, name, password, db) =>
      var ok := MayLogin(s.rows, id, name, password, db.query);
      s.(rows := if ok then WithState(s.rows, id, "online", session, db.update) else s.rows,
         log := if ok then s.log + [LoggedIn(id, session)] else s.log,
         boxes := SendTo(s.boxes, session, LoginReply(ok, render)))
    case Logout(id, db) =>
      s.(rows := WithState(s.rows, id, "offline", "", db.update), log := s.log + [LoggedOut(id)])
    case OneChat(session, toid, payload, db) =>
      s.(boxes := ChatSent(s.boxes, s.mapped, session, LookUp(s.rows, toid, db.query), payload, render))
  }

  /** The queues after a chat message of `session` to the user found. */
  function ChatSent(boxes: map<string, Outbox>, mapped: set<string>, session: string, u: User,
                    payload: seq<Byte>, render: Render): map<string, Outbox>
  {
    if u.id == NO_USER.id || u.state != "online" then
      SendTo(boxes, session, Message(MSG_ONE_CHAT, render(CODE_ONE_CHAT_FAILED)))
    else
      var sent := if u.uuid in mapped then SendTo(boxes, u.uuid, Message(MSG_ONE_CHAT, payload)) else boxes;
      SendTo(sent, session, Message(MSG_ONE_CHAT, render(CODE_ONE_CHAT_SUCCESS)))
  }

  /** A login that succeeds here leaves its mark in the table. */
  predicate Recorded(s: State, r: Request) {
    r.Login? && MayLogin(s.rows, r.id, r.name, r.password, r.db.query) ==> r.db.update
  }

  predicate Updates(r: Request) {
    (r.Login? || r.Logout?) ==> r.db.update
  }

  predicate AllUpdate(requests: seq<Request>) {
    forall i :: 0 <= i < |requests| ==> Updates(requests[i])
  }

  // ---------- who is online ----------

  /** The session of the last login of `id`, unless a logout came after it. */
  function Current(log: seq<Entry>, id: int): Option<string> {
    if log == [] then None
    else
      match log[|log| - 1]
      case LoggedIn(i, uuid) => if i == id then Some(uuid) else Current(log[..|log| - 1], id)
      case LoggedOut(i) => if i == id then None else Current(log[..|log| - 1], id)
  }

  ghost predicate KeyedInv(s: State) {
    forall id :: id in s.rows ==> s.rows[id].id == id
  }

  /** Whoever is logged in is online in the table, with the session of the last login. */
  ghost predicate LoggedInv(s: State) {
    forall id :: Current(s.log, id).Some? ==>
      && id in s.rows && id != NO_USER.id
      && s.rows[id].state == "online" && Current(s.log, id) == Some(s.rows[id].uuid)
  }

  /** Nobody else is online. */
  ghost predicate OnlineInv(s: State) {
    forall id :: id in s.rows && s.rows[id].state == "online" ==> Current(s.log, id).Some?
  }

  ghost predicate Separated(log: seq<Entry>) {
    forall i, j :: 0 <= i < j < |log| && log[i].LoggedIn? && log[j].LoggedIn? && log[i].id == log[j].id ==>
      exists k :: i < k < j && log[k] == LoggedOut(log[i].id)
  }

  ghost predicate Inv(s: State) {
    KeyedInv(s) && LoggedInv(s) && Separated(s.log) && s.mapped <= s.boxes.Keys
  }

  lemma CurrentAppend(log: seq<Entry>, e: Entry, id: int)
    ensures Current(log + [e], id) ==
            if e.id != id then Current(log, id) else if e.LoggedIn? then Some(e.uuid) else None
  {
    assert (log + [e])[..|log|] == log;
  }

  /** After a login that is no longer current there is a logout. */
  lemma {:induction false} LogoutBetween(log: seq<Entry>, i: nat) returns (k: nat)
    requires i < |log| && log[i].LoggedIn? && Current(log, log[i].id) == None
    ensures i < k < |log| && log[k] == LoggedOut(log[i].id)
  {
    var last := |log| - 1;
    if log[last] == LoggedOut(log[i].id) {
      k := last;
    } else {
      assert log[..last][i] == log[i];
      k := LogoutBetween(log[..last], i);
    }
  }

  lemma SeparatedAppend(log: seq<Entry>, e: Entry)
    requires Separated(log) && (e.LoggedIn? ==> Current(log, e.id) == None)
    ensures Separated(log + [e])
  {
    var all := log + [e];
    forall i, j | 0 <= i < j < |all| && all[i].LoggedIn? && all[j].LoggedIn? && all[i].id == all[j].id
      ensures exists k :: i < k < j && all[k] == LoggedOut(all[i].id)
    {
      var k;
      if j == |log| {
        k := LogoutBetween(log, i);
      } else {
        k :| i < k < j && log[k] == LoggedOut(log[i].id);
      }
      assert all[k] == log[k];
    }
  }

  lemma LogStep(s: State, r: Request, render: Render) returns (e: Entry)
    requires Handle(s, r, render).log != s.log
    ensures var t := Handle(s, r, render);
            && t.log == s.log + [e]
            && forall id :: Current(t.log, id) ==
                 if e.id != id then Current(s.log, id) else if e.LoggedIn? then Some(e.uuid) else None
  {
    var t := Handle(s, r, render);
    e := t.log[|s.log|];
    assert t.log == s.log + [e];
    forall id: int
      ensures Current(t.log, id) ==
              if e.id != id then Current(s.log, id) else if e.LoggedIn? then Some(e.uuid) else None
    {
      CurrentAppend(s.log, e, id);
    }
  }

  lemma StepKeepsInv(s: State, r: Request, render: Render)
    requires Inv(s) && Recorded(s, r)
    ensures Inv(Handle(s, r, render))
  {
    if Handle(s, r, render).log != s.log {
      var e := LogStep(s, r, render);
      SeparatedAppend(s.log, e);
    }
  }

  lemma StepKeepsOnline(s: State, r: Request, render: Render)
    requires Inv(s) && OnlineInv(s) && Updates(r)
    ensures OnlineInv(Handle(s, r, render))
  {
    if Handle(s, r, render).log != s.log {
      var e := LogStep(s, r, render);
    }
  }

  // ---------- every run ----------

  function Run(s: State, requests: seq<Request>, render: Render): State
    decreases |requests|
  {
    if requests == [] then s else Run(Handle(s, requests[0], render), requests[1..], render)
  }

  /** Every login that succeeds in the run leaves its mark in the table. */
  predicate AllRecorded(s: State, requests: seq<Request>, render: Render)
    decreases |requests|
  {
    requests == [] || (Recorded(s, requests[0]) && AllRecorded(Handle(s, requests[0], render), requests[1..], render))
  }

  lemma {:induction false} RunKeepsInv(s: State, requests: seq<Request>, render: Render)
    requires Inv(s) && AllRecorded(s, requests, render)
    ensures Inv(Run(s, requests, render))
    decreases |requests|
  {
    if requests != [] {
      StepKeepsInv(s, requests[0], render);
      RunKeepsInv(Handle(s, requests[0], render), requests[1..], render);
    }
  }

  lemma {:induction false} RunKeepsOnline(s: State, requests: seq<Request>, render: Render)
    requires Inv(s) && OnlineInv(s) && AllUpdate(requests)
    ensures Inv(Run(s, requests, render)) && OnlineInv(Run(s, requests, render))
    ensures AllRecorded(s, requests, render)
    decreases |requests|
  {
    if requests != [] {
      assert Updates(requests[0]);
      StepKeepsInv(s, requests[0], render);
      StepKeepsOnline(s, requests[0], render);
      RunKeepsOnline(Handle(s, requests[0], render), requests[1..], render);
    }
  }

  /** A table in which everybody is offline, and no connection yet. */
  predicate Fresh(s: State) {
    && s.boxes == map[] && s.mapped == {} && s.log == []
    && forall id :: id in s.rows ==> s.rows[id].id == id && s.rows[id].state != "online"
  }

  /** What no request changes: who is registered, under which name and with which password. */
  predicate SameUsers(a: Table, b: Table) {
    && a.Keys == b.Keys
    && forall id :: id in a ==> a[id].id == b[id].id && a[id].name == b[id].name && a[id].password == b[id].password
  }

  lemma {:induction false} RunKeepsUsers(s: State, requests: seq<Request>, render: Render)
    requires forall id :: id in s.rows ==> s.rows[id].id == id
    ensures SameUsers(s.rows, Run(s, requests, render).rows)
    decreases |requests|
  {
    if requests != [] {
      var t := Handle(s, requests[0], render);
      assert SameUsers(s.rows, t.rows);
      RunKeepsUsers(t, requests[1..], render);
    }
  }

  /** After any run with working updates a login succeeds exactly if the query works, for a registered id with
      its own name and password that is not logged in already, and the session is told which. */
  lemma LoginDecided(s: State, requests: seq<Request>, render: Render,
                     session: string, id: int, name: string, password: string, db: Db)
    requires Fresh(s) && AllUpdate(requests)
    ensures var t := Run(s, requests, render);
            var after := Handle(t, Login(session, id, name, password, db), render);
            var ok := && db.query && id in s.rows && id != -1
                      && s.rows[id].name == name && s.rows[id].password == password
                      && Current(t.log, id) == None;
            var reply := Message(1003, render(if ok then 1003 else 1004));
            && after.log == t.log + (if ok then [LoggedIn(id, session)] else [])
            && (session in t.boxes ==> after.boxes == t.boxes[session := Push(t.boxes[session], reply)])
  {
    RunKeepsOnline(s, requests, render);
    RunKeepsUsers(s, requests, render);
  }

  /** Between two successful logins of one id there is a logout of it, if each login that succeeds is recorded.
      Whether the updates of logouts work does not matter. */
  lemma NoSecondLogin(s: State, requests: seq<Request>, render: Render, i: nat, j: nat)
    requires Fresh(s) && AllRecorded(s, requests, render)
    requires var log := Run(s, requests, render).log;
             i < j < |log| && log[i].LoggedIn? && log[j].LoggedIn? && log[i].id == log[j].id
    ensures var log := Run(s, requests, render).log;
            exists k :: i < k < j && log[k] == LoggedOut(log[i].id)
  {
    RunKeepsInv(s, requests, render);
  }

  /** Somebody is logged in whom the table does not know to be online. */
  predicate Open(s: State, id: int) {
    id in s.rows && id != NO_USER.id && Current(s.log, id).Some? && s.rows[id].state != "online"
  }

  ghost predicate LetsInTwice(s: State, r: Request, render: Render) {
    r.Login? && Current(s.log, r.id).Some? && Handle(s, r, render).log != s.log
  }

  /** In a given state exactly such a user can be let in a second time. */
  lemma SecondLoginExactly(s: State, render: Render)
    requires KeyedInv(s)
    ensures (exists r :: LetsInTwice(s, r, render)) <==> exists id :: Open(s, id)
  {
    if r :| LetsInTwice(s, r, render) {
      assert Open(s, r.id);
    }
    if id :| Open(s, id) {
      var r := Login("", id, s.rows[id].name, s.rows[id].password, Db(true, true));
      assert LetsInTwice(s, r, render);
    }
  }

  /** At no point of the run can anybody be let in a second time. */
  ghost predicate NeverOpen(s: State, requests: seq<Request>, render: Render)
    decreases |requests|
  {
    && (forall r :: !LetsInTwice(s, r, render))
    && (requests != [] ==> NeverOpen(Handle(s, requests[0], render), requests[1..], render))
  }

  /** That is so exactly if each login that succeeds in the run is recorded, the last one included. */
  lemma {:induction false} NeverOpenExactly(s: State, requests: seq<Request>, render: Render)
    requires Inv(s)
    ensures NeverOpen(s, requests, render) <==> AllRecorded(s, requests, render)
    decreases |requests|
  {
    SecondLoginExactly(s, render);
    if requests != [] {
      var r := requests[0];
      if Recorded(s, r) {
        StepKeepsInv(s, r, render);
        NeverOpenExactly(Handle(s, r, render), requests[1..], render);
      } else {
        UnrecordedOpens(s, r, render);
        SecondLoginExactly(Handle(s, r, render), render);
      }
    }
  }

  lemma UnrecordedOpens(s: State, r: Request, render: Render)
    requires KeyedInv(s) && !Recorded(s, r)
    ensures KeyedInv(Handle(s, r, render)) && Open(Handle(s, r, render), r.id)
  {
    CurrentAppend(s.log, LoggedIn(r.id, r.session), r.id);
  }

  /** From any state in which a registered user is not online: the update of a login fails, its session is told
      of a success the table knows nothing about, and a second login succeeds beside it. */
  lemma SecondLoginAfterFailedUpdate(s: State, render: Render, id: int, a: string, b: string)
    requires KeyedInv(s) && id in s.rows && id != NO_USER.id && s.rows[id].state != "online"
    ensures var u := s.rows[id];
            var requests := [Login(a, id, u.name, u.password, Db(true, false)),
                             Login(b, id, u.name, u.password, Db(true, true))];
            var log := Run(s, requests, render).log;
            log == s.log + [LoggedIn(id, a), LoggedIn(id, b)] && !Separated(log)
  {
    var u := s.rows[id];
    var first := Login(a, id, u.name, u.password, Db(true, false));
    var second := Login(b, id, u.name, u.password, Db(true, true));
    var none: seq<Request> := [];
    var t := Handle(s, first, render);
    assert [first, second][1..] == [second] && [second][1..] == none;
    assert Run(s, [first, second], render) == Run(t, [second], render) == Run(Handle(t, second, render), none, render);
    var log := s.log + [LoggedIn(id, a), LoggedIn(id, b)];
    assert s.log + [LoggedIn(id, a)] + [LoggedIn(id, b)] == log;
    assert log[|s.log|] == LoggedIn(id, a) && log[|s.log| + 1] == LoggedIn(id, b);
  }

  /** The table knows exactly who is logged in, and from which session. */
  lemma OnlineMeansLoggedIn(s: State, requests: seq<Request>, render: Render, id: int)
    requires Fresh(s) && AllUpdate(requests) && id in Run(s, requests, render).rows
    ensures var t := Run(s, requests, render);
            && (t.rows[id].state == "online" <==> Current(t.log, id).Some?)
            && (t.rows[id].state == "online" ==> Current(t.log, id) == Some(t.rows[id].uuid))
  {
    RunKeepsOnline(s, requests, render);
  }

  /** What the history makes of a row: the last login of its user sets state and session, the last logout resets
      both, whichever came later. */
  function RowOf(first: User, log: seq<Entry>): User {
    if log == [] then first
    else
      var u := RowOf(first, log[..|log| - 1]);
      match log[|log| - 1]
      case LoggedIn(id, uuid) => if id == first.id then u.(state := "online", uuid := uuid) else u
      case LoggedOut(id) => if id == first.id then u.(state := "offline", uuid := "") else u
  }

  ghost predicate Follows(first: Table, s: State) {
    && s.rows.Keys == first.Keys
    && forall id :: id in first ==> first[id].id == id && s.rows[id] == RowOf(first[id], s.log)
  }

  /** The rows a request changes, whether updates work or not: that of its own user, and only if its update works. */
  lemma RowAfter(s: State, r: Request, render: Render, id: int)
    requires KeyedInv(s) && id in s.rows
    ensures var u := s.rows[id];
            var t := Handle(s, r, render).rows;
            && t.Keys == s.rows.Keys
            && t[id] == if r.Logout? && r.id == id && r.db.update then u.(state := "offline", uuid := "")
                        else if && r.Login? && r.id == id && r.db == Db(true, true) && id != -1
                                && u.name == r.name && u.password == r.password && u.state != "online"
                             then u.(state := "online", uuid := r.session)
                        else u
  {
  }

  lemma {:induction false} RowOfKeepsId(first: User, log: seq<Entry>)
    ensures RowOf(first, log).id == first.id
  {
    if log != [] {
      RowOfKeepsId(first, log[..|log| - 1]);
    }
  }

  lemma RowOfAppend(first: User, log: seq<Entry>, e: Entry)
    ensures var u := RowOf(first, log);
            RowOf(first, log + [e]) ==
            if e.id != first.id then u
            else if e.LoggedIn? then u.(state := "online", uuid := e.uuid) else u.(state := "offline", uuid := "")
  {
    assert (log + [e])[..|log|] == log;
  }

  lemma StepFollows(first: Table, s: State, r: Request, render: Render)
    requires Follows(first, s) && Updates(r)
    ensures Follows(first, Handle(s, r, render))
  {
    forall id | id in first
      ensures s.rows[id].id == id
    {
      RowOfKeepsId(first[id], s.log);
    }
    forall id | id in first
      ensures Handle(s, r, render).rows[id] == RowOf(first[id], Handle(s, r, render).log)
    {
      RowAfter(s, r, render, id);
      RowFollows(s, r, render, first[id], Handle(s, r, render).rows[id]);
    }
  }

  /** `v` is the row after the request. */
  lemma RowFollows(s: State, r: Request, render: Render, first: User, v: User)
    requires KeyedInv(s) && Updates(r) && first.id in s.rows && s.rows[first.id] == RowOf(first, s.log)
    requires v == Handle(s, r, render).rows[first.id]
    ensures v == RowOf(first, Handle(s, r, render).log)
  {
    match r
    case Login(session, id, name, password, db) =>
      if MayLogin(s.rows, id, name, password, db.query) {
        RowOfAppend(first, s.log, LoggedIn(id, session));
      }
    case Logout(id, _) => RowOfAppend(first, s.log, LoggedOut(id));
    case _ =>
  }

  /** If every update works the whole table is what the history of logins and logouts makes of the first one. */
  lemma {:induction false} TableFollowsHistory(first: Table, s: State, requests: seq<Request>, render: Render)
    requires Follows(first, s) && AllUpdate(requests)
    ensures Follows(first, Run(s, requests, render))
    decreases |requests|
  {
    if requests != [] {
      assert Updates(requests[0]);
      StepFollows(first, s, requests[0], render);
      TableFollowsHistory(first, Handle(s, requests[0], render), requests[1..], render);
    }
  }

  function PushAll(o: Outbox, ms: seq<Message>): Outbox
    decreases |ms|
  {
    if ms == [] then o else PushAll(Push(o, ms[0]), ms[1..])
  }

  /** A chat message goes, unchanged, to the session from which its addressee logged in last, and to no other;
      the sender gets the reply behind it.  With the addressee not logged in, or its session gone, only the
      reply is sent; in the second case it still says success. */
  lemma ChatGoesToCurrentSession(s: State, requests: seq<Request>, render: Render,
                                 session: string, toid: int, payload: seq<Byte>, db: Db, other: string)
    requires Fresh(s) && AllUpdate(requests) && other in Run(s, requests, render).boxes
    ensures var t := Run(s, requests, render);
            var after := Handle(t, OneChat(session, toid, payload, db), render).boxes;
            var online := if db.query then Current(t.log, toid) else None;
            var chat := if online == Some(other) && other in t.mapped then [Message(1008, payload)] else [];
            var code := if online.Some? then 1013 else 1014;
            var reply := if other == session then [Message(1008, render(code))] else [];
            after.Keys == t.boxes.Keys && after[other] == PushAll(t.boxes[other], chat + reply)
  {
    RunKeepsOnline(s, requests, render);
    var box := Run(s, requests, render).boxes[other];
    PushTwo(box, Message(MSG_ONE_CHAT, payload), Message(MSG_ONE_CHAT, render(CODE_ONE_CHAT_SUCCESS)));
  }

  lemma PushTwo(o: Outbox, a: Message, b: Message)
    ensures PushAll(o, [a] + [b]) == Push(Push(o, a), b)
  {
    var both, none: seq<Message> := [a] + [b], [];
    assert both[1..] == [b] && [b][1..] == none;
    assert PushAll(Push(o, a), [b]) == PushAll(Push(Push(o, a), b), none);
  }

  // ---------- the callbacks ----------

  /** The user table; its key is the id. */
  class UserModel {
    var rows: Table

    ghost predicate Keyed()
      reads this
    {
      forall id :: id in rows ==> rows[id].id == id
    }

    /** `works` stands for the connection, the statement and its execution. */
    method Query(id: int, works: bool) returns (user: User)
      ensures user == LookUp(rows, id, works)
    {
      user := NO_USER;
      if works {
        if id in rows {
          user := rows[id];
        }
      }
    }

    method UpdateState(user: User, works: bool) returns (ok: bool)
      modifies this
      ensures ok == works && rows == WithState(old(rows), user.id, user.state, user.uuid, works)
      ensures old(Keyed()) ==> Keyed()
    {
      if !works {
        return false;
      }
      if user.id in rows {
        rows := rows[user.id := rows[user.id].(state := user.state, uuid := user.uuid)];
      }
      ok := true;
    }
  }

  /** The callbacks of the logic thread, with what they can reach: the table, the server, and through it the
      sessions.  `all` are the sessions there have been, found by the server or not. */
  class Callbacks {
    const userModel: UserModel
    const server: S.CServer
    const render: Render
    ghost var all: map<string, S.CSession>
    ghost var log: seq<Entry>

    constructor (userModel: UserModel, server: S.CServer, render: Render)
      requires userModel.Keyed() && server.sessions == map[]
      ensures this.userModel == userModel && this.server == server && this.render == render
      ensures Valid() && Abs() == State(userModel.rows, map[], {}, [])
    {
      this.userModel, this.server, this.render := userModel, server, render;
      all, log := map[], [];
    }

    /** A connection is accepted; ids are random and never used twice. */
    method Accept(newSession: S.CSession, nextUuid: string)
      requires Valid() && newSession.uuid !in all && newSession.server == server
      requires newSession.Ready() && newSession.status == Reading && !newSession.readArmed
      requires newSession.outbox == EMPTY && server !in newSession.shared && this !in newSession.Own()
      modifies this`all, server, newSession`readArmed, newSession.data
      ensures Valid() && Knows(newSession) && newSession.Ready() && newSession.readArmed
      ensures all == old(all)[newSession.uuid := newSession] && newSession.Own() == old(newSession.Own())
      ensures Abs() == Handle(old(Abs()), Request.Accept(newSession.uuid), render)
    {
      Register(newSession);
      Connect(newSession, nextUuid);
    }

    method Connect(newSession: S.CSession, nextUuid: string)
      requires Valid() && Knows(newSession) && newSession.uuid !in server.sessions && newSession.server == server
      requires newSession.Ready() && newSession.status == Reading && !newSession.readArmed
      modifies server, newSession`readArmed, newSession.data
      ensures Valid() && newSession.Ready() && newSession.readArmed && Boxes() == old(Boxes())
      ensures server.sessions == old(server.sessions)[newSession.uuid := newSession]
      ensures newSession.Own() == old(newSession.Own())
    {
      server.HandleAccept(newSession, false, nextUuid);
    }

    ghost method Register(session: S.CSession)
      requires Valid() && session.uuid !in all && session.Ready() && this !in session.Own()
      modifies this`all
      ensures Valid() && Knows(session) && session.Ready()
      ensures all == old(all)[session.uuid := session] && session.Own() == old(session.Own())
      ensures Boxes() == old(Boxes())[session.uuid := session.outbox]
    {
      all := all[session.uuid := session];
      session.Untouched();
    }

    /** A session is forgotten by the server. */
    method Clear(uuid: string)
      requires Valid()
      modifies server
      ensures Valid() && Abs() == Handle(old(Abs()), Request.Clear(uuid), render)
    {
      server.ClearSession(uuid);
    }

    /** What the server finds is one of the sessions, under its own id. */
    ghost predicate Valid()
      reads `all, userModel, server
    {
      && userModel.Keyed() && server.Keyed()
      && (forall uuid :: uuid in all ==> all[uuid].uuid == uuid)
      && (forall uuid :: uuid in server.sessions ==> uuid in all && server.sessions[uuid] == all[uuid])
    }

    ghost predicate Knows(session: S.CSession)
      reads `all
    {
      session.uuid in all && all[session.uuid] == session
    }

    /** The session the server finds under that id, if any. */
    ghost function Found(uuid: string): set<S.CSession>
      reads server
    {
      if uuid in server.sessions then {server.sessions[uuid]} else {}
    }

    ghost function Boxes(): map<string, Outbox>
      reads `all, all.Values`outbox
    {
      map uuid | uuid in all :: all[uuid].outbox
    }

    ghost function Abs(): State
      reads this, userModel, server, all.Values
    {
      State(userModel.rows, Boxes(), server.sessions.Keys, log)
    }

    method Send(session: S.CSession, msg: seq<Byte>, msgId: Short)
      requires Valid() && Knows(session) && session.Ready() && |msg| <= MAX_BODY
      modifies session`sendQue, session`outbox, session`shared
      ensures Valid() && session.Ready() && fresh(session.Own() - old(session.Own()))
      ensures userModel.rows == old(userModel.rows) && server.sessions == old(server.sessions)
      ensures Boxes() == SendTo(old(Boxes()), session.uuid, Message(msgId, msg))
    {
      var _ := session.Send(msg, msgId);
    }

    /** `id` is what is made of the text in the payload; if it is no number an exception ends the callback. */
    method LoginCallBack(session: S.CSession, id: Option<int>, username: string, password: string, db: Db)
      returns (thrown: bool)
      requires Valid() && Knows(session) && session.Ready() && userModel !in session.Own() && this !in session.Own()
      modifies this`log, userModel, session`sendQue, session`outbox, session`shared
      ensures Valid() && session.Ready() && thrown == id.None?
      ensures Abs() == if thrown then old(Abs())
                       else Handle(old(Abs()), Login(session.uuid, id.value, username, password, db), render)
    {
      if id.None? {
        return true;
      }
      LogIn(session, id.value, username, password, db);
      thrown := false;
    }

    method LogIn(session: S.CSession, id: int, username: string, password: string, db: Db)
      requires Valid() && Knows(session) && session.Ready() && userModel !in session.Own() && this !in session.Own()
      modifies this`log, userModel, session`sendQue, session`outbox, session`shared
      ensures Valid() && session.Ready()
      ensures Abs() == Handle(old(Abs()), Login(session.uuid, id, username, password, db), render)
    {
      var isLoginSuccess, user := MayEnter(id, username, password, db.query);
      var code := CODE_LOGIN_FAILED;
      if isLoginSuccess {
        user := user.(state := "online", uuid := session.uuid);
        Admit(session, user, db.update);
        code := CODE_LOGIN_SUCCESS;
      }
      Send(session, render(code), MSG_LOGIN);
    }

    method MayEnter(id: int, username: string, password: string, works: bool) returns (ok: bool, user: User)
      requires userModel.Keyed()
      ensures ok == MayLogin(userModel.rows, id, username, password, works) && user == LookUp(userModel.rows, id, works)
      ensures ok ==> user.id == id
    {
      ok := true;
      user := userModel.Query(id, works);
      if user.id == -1 {
        ok := false;
      } else if user.name != username || user.password != password {
        ok := false;
      } else if user.state == "online" {
        ok := false;
      }
    }

    method Admit(session: S.CSession, user: User, works: bool)
      requires Valid() && session.Ready() && userModel !in session.Own() && this !in session.Own()
      modifies this`log, userModel
      ensures Valid() && session.Ready() && log == old(log) + [LoggedIn(user.id, session.uuid)]
      ensures Boxes() == old(Boxes())
      ensures userModel.rows == WithState(old(userModel.rows), user.id, user.state, user.uuid, works)
    {
      var _ := userModel.UpdateState(user, works);
      log := log + [LoggedIn(user.id, session.uuid)];
      session.Untouched();
    }

    /** No reply, and no question asked about who sends it. */
    method LogoutCallBack(id: Option<int>, db: Db) returns (thrown: bool)
      requires Valid()
      modifies this`log, userModel
      ensures Valid() && thrown == id.None?
      ensures Abs() == if thrown then old(Abs()) else Handle(old(Abs()), Logout(id.value, db), render)
    {
      if id.None? {
        return true;
      }
      var user := User(id.value, "", "", "offline", "");
      var _ := userModel.UpdateState(user, db.update);
      log := log + [LoggedOut(id.value)];
      thrown := false;
    }

    /** The session under which the server finds whoever the query gives. */
    ghost function Addressee(toid: Option<int>, db: Db): set<S.CSession>
      reads userModel, server
    {
      if toid.None? then {} else Found(LookUp(userModel.rows, toid.value, db.query).uuid)
    }

    /** That session is the sender's own or has nothing to do with it. */
    method OneChatCallBack(session: S.CSession, toid: Option<int>, msgData: seq<Byte>, db: Db) returns (thrown: bool)
      requires Valid() && Knows(session) && session.Ready() && |msgData| <= MAX_LENGTH
      requires forall t :: t in Addressee(toid, db) ==> t.Beside(session)
      modifies Addressee(toid, db)`sendQue, Addressee(toid, db)`outbox, Addressee(toid, db)`shared
      modifies session`sendQue, session`outbox, session`shared
      ensures Valid() && session.Ready() && thrown == toid.None?
      ensures Abs() == if thrown then old(Abs())
                       else Handle(old(Abs()), OneChat(session.uuid, toid.value, msgData, db), render)
    {
      if toid.None? {
        return true;
      }
      Chat(session, toid.value, msgData, db);
      thrown := false;
    }

    method Chat(session: S.CSession, toid: int, msgData: seq<Byte>, db: Db)
      requires Valid() && Knows(session) && session.Ready() && |msgData| <= MAX_LENGTH
      requires forall t :: t in Addressee(Some(toid), db) ==> t.Beside(session)
      modifies Addressee(Some(toid), db)`sendQue, Addressee(Some(toid), db)`outbox, Addressee(Some(toid), db)`shared
      modifies session`sendQue, session`outbox, session`shared
      ensures Valid() && session.Ready() && userModel.rows == old(userModel.rows)
      ensures server.sessions == old(server.sessions) && log == old(log)
      ensures var user := LookUp(userModel.rows, toid, db.query);
              Boxes() == ChatSent(old(Boxes()), server.sessions.Keys, session.uuid, user, msgData, render)
    {
      var user := userModel.Query(toid, db.query);
      Dispatch(session, user, msgData);
    }

    /** The part of the callback behind the query. */
    method Dispatch(session: S.CSession, user: User, msgData: seq<Byte>)
      requires Valid() && Knows(session) && session.Ready() && |msgData| <= MAX_LENGTH
      requires forall t :: t in Found(user.uuid) ==> t.Beside(session)
      modifies Found(user.uuid)`sendQue, Found(user.uuid)`outbox, Found(user.uuid)`shared
      modifies session`sendQue, session`outbox, session`shared
      ensures Valid() && session.Ready() && userModel.rows == old(userModel.rows)
      ensures server.sessions == old(server.sessions) && log == old(log)
      ensures Boxes() == ChatSent(old(Boxes()), server.sessions.Keys, session.uuid, user, msgData, render)
    {
      if user.id == -1 {
        Send(session, render(CODE_ONE_CHAT_FAILED), MSG_ONE_CHAT);
        return;
      }
      if user.state == "online" {
        Forward(session, user.uuid, msgData);
        Send(session, render(CODE_ONE_CHAT_SUCCESS), MSG_ONE_CHAT);
      } else {
        Send(session, render(CODE_ONE_CHAT_FAILED), MSG_ONE_CHAT);
      }
    }

    /** Hand the message to the session of that id, if the server still has it. */
    method Forward(session: S.CSession, uuid: string, msgData: seq<Byte>)
      requires Valid() && session.Ready() && |msgData| <= MAX_LENGTH
      requires forall t :: t in Found(uuid) ==> t.Beside(session)
      modifies Found(uuid)`sendQue, Found(uuid)`outbox, Found(uuid)`shared
      ensures session.Ready()
      ensures Boxes() == if uuid in server.sessions then SendTo(old(Boxes()), uuid, Message(MSG_ONE_CHAT, msgData))
                         else old(Boxes())
    {
      var toSession := server.GetSession(uuid);
      if toSession != null {
        SendBeside(session, toSession, msgData, MSG_ONE_CHAT);
      }
    }

    /** Send on one session without disturbing the other. */
    method SendBeside(session: S.CSession, toSession: S.CSession, msg: seq<Byte>, msgId: Short)
      requires Valid() && session.Ready() && Knows(toSession) && toSession.Beside(session) && |msg| <= MAX_BODY
      modifies toSession`sendQue, toSession`outbox, toSession`shared
      ensures session.Ready() && toSession.Ready()
      ensures Boxes() == SendTo(old(Boxes()), toSession.uuid, Message(msgId, msg))
    {
      if toSession == session {
        Send(session, msg, msgId);
      } else {
        var _ := toSession.SendBeside(msg, msgId, session);
      }
    }
  }
}

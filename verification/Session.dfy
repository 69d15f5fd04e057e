/** The session object: resumable frame reader over shared buffers, and the queue of outgoing frames. */
module Session {
  import opened Frames
  import opened Outbox

  method CopyBytes(dst: array<Byte>, at: nat, src: array<Byte>, from: nat, n: nat)
    requires dst != src
    requires at + n <= dst.Length && from + n <= src.Length
    modifies dst
    ensures dst[..] == old(dst[..at]) + src[from..from + n] + old(dst[at + n..])
  {
    forall i | 0 <= i < n {
      dst[at + i] := src[from + i];
    }
  }

  method ZeroBytes(a: array<Byte>, n: nat)
    requires n <= a.Length
    modifies a
    ensures a[..] == seq(n, _ => 0) + old(a[n..])
  {
    forall i | 0 <= i < n {
      a[i] := 0;
    }
  }

  /** A head, the `x` bytes of its body already held and the bytes at hand: is there a frame, and which? */
  lemma BodyParts(s: seq<Byte>, head: seq<Byte>, x: seq<Byte>, more: seq<Byte>, lacks: nat)
    requires |head| == HEAD_TOTAL_LEN && Verdict(head) == Reading && |x| + lacks == HeadLen(head)
    requires s == head + (x + more) || s == (head + x) + more
    ensures Verdict(s) == Reading && s == head + (x + more)
    ensures HasFrame(s) <==> lacks <= |more|
    ensures lacks <= |more| ==>
              FirstFrame(s) == Message(HeadId(head), x + more[..lacks]) && AfterFrame(s) == more[lacks..]
  {
    assert (head + x) + more == head + (x + more);
    assert forall i :: 0 <= i < HEAD_TOTAL_LEN ==> s[i] == head[i];
    if lacks <= |more| {
      assert s[HEAD_TOTAL_LEN..HEAD_TOTAL_LEN + HeadLen(s)] == x + more[..lacks];
      assert s[HEAD_TOTAL_LEN + HeadLen(s)..] == more[lacks..];
    }
  }

  /** What was added to two sequences, and more behind it. */
  ghost function Longer<T>(s: seq<T>, t: seq<T>, added: seq<T>, more: seq<T>): (all: seq<T>)
    ensures s + all == s + added + more && t + all == t + added + more
  {
    added + more
  }

  /** A message buffer; the three constructors are the plain node of a head, a received body and a frame to send. */
  class MsgNode {
    const msgId: Short
    const totalLen: nat
    const data: array<Byte>
    var curLen: nat

    ghost predicate Valid()
      reads this
    {
      data.Length == totalLen + 1 && curLen <= totalLen
    }

    constructor (maxLen: nat)
      ensures Valid() && fresh(data)
      ensures totalLen == maxLen && curLen == 0
    {
      msgId, totalLen, curLen := 0, maxLen, 0;
      data := new Byte[maxLen + 1];
      new;
      data[maxLen] := 0;
    }

    constructor Recv(maxLen: nat, id: Short)
      ensures Valid() && fresh(data)
      ensures totalLen == maxLen && msgId == id && curLen == 0
    {
      msgId, totalLen, curLen := id, maxLen, 0;
      data := new Byte[maxLen + 1];
      new;
      data[maxLen] := 0;
    }

    /** The frame of a message: id and length in network order, then the bytes.  The length is cast to a
        short first, so that of a very long message only the beginning is taken. */
    constructor Send(msg: seq<Byte>, id: Short)
      requires 0 <= CastShort(|msg|) <= MAX_BODY
      ensures Valid() && fresh(data)
      ensures data[..totalLen] == Encode(Message(id, Carried(msg)))
    {
      var maxLen := CastShort(|msg|);
      var total := maxLen + HEAD_TOTAL_LEN;
      var idBytes, lenBytes := NetworkShort(id), NetworkShort(maxLen);
      msgId, totalLen, curLen := id, total, 0;
      data := new Byte[total + 1];
      new;
      data[total] := 0;
      data[0], data[1] := idBytes[0], idBytes[1];
      data[2], data[3] := lenBytes[0], lenBytes[1];
      forall i | 0 <= i < maxLen {
        data[HEAD_TOTAL_LEN + i] := msg[i];
      }
      assert data[..2] == idBytes && data[2..4] == lenBytes && data[4..totalLen] == msg[..maxLen];
      assert data[..totalLen] == data[..2] + data[2..4] + data[4..totalLen];
    }

    /** Copy `n` bytes of `src` behind the bytes already held. */
    method Append(src: array<Byte>, from: nat, n: nat)
      requires Valid() && src != data
      requires from + n <= src.Length && curLen + n <= totalLen
      modifies this`curLen, data
      ensures Valid() && curLen == old(curLen) + n
      ensures data[..curLen] == old(data[..curLen]) + src[from..from + n]
    {
      CopyBytes(data, curLen, src, from, n);
      curLen := curLen + n;
    }

    /** Copy the bytes still missing; the count of bytes held is left as it was. */
    method Fill(src: array<Byte>, from: nat) returns (n: nat)
      requires Valid() && src != data && from + (totalLen - curLen) <= src.Length
      modifies data
      ensures n == totalLen - curLen
      ensures data[..totalLen] == old(data[..curLen]) + src[from..from + n]
    {
      n := totalLen - curLen;
      CopyBytes(data, curLen, src, from, n);
    }

    method Clear()
      requires Valid()
      modifies this`curLen, data
      ensures Valid() && curLen == 0
      ensures forall i :: 0 <= i < totalLen ==> data[i] == 0
    {
      ZeroBytes(data, totalLen);
      curLen := 0;
    }
  }

  datatype LogicNode = LogicNode(session: CSession, node: MsgNode)

  /** The queue of the logic thread, as the sessions see it: a place to post to. */
  class LogicSystem {
    var msgQue: seq<LogicNode>

    method PostMsgToQue(msg: LogicNode)
      modifies this
      ensures msgQue == old(msgQue) + [msg]
    {
      msgQue := msgQue + [msg];
    }
  }

  class CServer {
    var sessions: map<string, CSession>
    /** The session that waits for the next connection. */
    var accepting: CSession?

    /** Every session is found under its own id and no other. */
    ghost predicate Keyed()
      reads this
    {
      forall uuid :: uuid in sessions ==> sessions[uuid].uuid == uuid
    }

    /** The session starts reading before it can be found; then the next one is made ready. */
    method HandleAccept(newSession: CSession, error: bool, nextUuid: string)
      requires Keyed() && newSession.server == this
      requires newSession.Ready() && newSession.status == Reading && !newSession.readArmed
      modifies this, newSession`readArmed, newSession.data
      ensures sessions == if error || newSession.uuid in old(sessions) then old(sessions)
                          else old(sessions)[newSession.uuid := newSession]
      ensures newSession.Ready() && newSession.State() == old(newSession.State())
      ensures Keyed() && newSession.readArmed == !error
      ensures Waiting(nextUuid, newSession.logic) && fresh(accepting)
    {
      if !error {
        newSession.Start();
        Insert(newSession);
      }
      StartAccept(nextUuid, newSession.logic);
    }

    method Insert(session: CSession)
      requires Keyed()
      modifies this`sessions
      ensures sessions == if session.uuid in old(sessions) then old(sessions)
                          else old(sessions)[session.uuid := session]
      ensures Keyed()
    {
      if session.uuid !in sessions {
        sessions := sessions[session.uuid := session];
      }
    }

    /** A new session, not yet reading, waits for a connection. */
    ghost predicate Waiting(uuid: string, logic: LogicSystem)
      reads this, accepting
      reads if accepting != null then accepting.Own() else {}
    {
      && accepting != null && accepting.ReadValid() && !accepting.readArmed
      && accepting.uuid == uuid && accepting.server == this && accepting.logic == logic
      && accepting.posted == [] && accepting.status == Reading
      && accepting.SendValid() && accepting.outbox == EMPTY
    }

    method StartAccept(uuid: string, logic: LogicSystem)
      modifies this`accepting
      ensures Waiting(uuid, logic) && fresh(accepting)
    {
      accepting := new CSession(uuid, this, logic);
    }

    method ClearSession(uuid: string)
      modifies this`sessions
      ensures sessions == old(sessions) - {uuid}
      ensures old(Keyed()) ==> Keyed()
    {
      sessions := sessions - {uuid};
    }

    /** The session with that id, if the server has one. */
    method GetSession(uuid: string) returns (s: CSession?)
      requires Keyed()
      ensures s == null <==> uuid !in sessions
      ensures s != null ==> s.uuid == uuid && s in sessions.Values
    {
      s := if uuid in sessions then sessions[uuid] else null;
    }
  }

  class CSession {
    const uuid: string
    const server: CServer
    const logic: LogicSystem
    const data: array<Byte>
    const head: MsgNode
    var body: MsgNode?
    var headParse: bool
    var closed: bool
    var readArmed: bool
    var sendQue: seq<MsgNode>

    ghost var outbox: Outbox
    /** What was handed to the logic queue, oldest first, and the messages the nodes held when posted. */
    ghost var postedNodes: seq<LogicNode>
    ghost var posted: seq<Message>
    ghost var status: Status
    /** Everything this session has given away: no buffer in here is ever written again. */
    ghost var shared: set<object>

    /** Since then this session has given away nothing but new objects and the body it was filling. */
    twostate predicate GaveOnlyOwn()
      reads this
    {
      && old(shared) <= shared
      && forall o :: o in shared && o !in old(shared) && !fresh(o) ==>
           old(headParse && body != null) && (o == old(body) || o == old(body).data)
    }

    /** All objects only this session uses, and those it has given away. */
    ghost function Own(): set<object>
      reads this
    {
      {this, data, head, head.data} + (if headParse && body != null then {body, body.data} else {}) + shared
    }

    /** Bytes received but not yet part of a posted message. */
    ghost function Pending(): seq<Byte>
      requires ReadValid()
      reads this, head, head.data, shared, if headParse && body != null then {body, body.data} else {}
    {
      if status != Reading then head.data[..HEAD_TOTAL_LEN]
      else if headParse then head.data[..HEAD_TOTAL_LEN] + body.data[..body.curLen]
      else head.data[..head.curLen]
    }

    ghost function State(): Decoded
      requires ReadValid()
      reads this, head, head.data, shared, if headParse && body != null then {body, body.data} else {}
    {
      Decoded(posted, Pending(), status)
    }

    /** Everything already posted is out of the reader's reach and holds what it held when posted. */
    ghost predicate Safe()
      reads this, head, shared
    {
      && data.Length == MAX_LENGTH
      && head.Valid() && head.totalLen == HEAD_TOTAL_LEN && head.curLen < HEAD_TOTAL_LEN
      && data != head.data
      && {data, head, head.data, this, server, logic} !! shared
      && Delivered(postedNodes, posted, shared)
    }

    /** The node under construction belongs to no one else. */
    ghost predicate Private(node: MsgNode)
      reads this, node
    {
      node.Valid() && node != head && node.data != data && node.data != head.data && {node, node.data} !! shared
    }

    /** Between reads: a body under construction is private and still lacks bytes. */
    ghost predicate ReadValid()
      reads this, head, head.data, shared, if headParse then {body} else {}
    {
      && Safe()
      && (headParse ==>
            && body != null && Private(body) && body.curLen < body.totalLen && Announced(body))
      && (readArmed ==> status == Reading)
    }

    ghost predicate Delivered(log: seq<LogicNode>, ms: seq<Message>, owned: set<object>)
      reads owned
    {
      && |log| == |ms|
      && forall i :: 0 <= i < |log| ==> GivenAway(log[i], ms[i], owned)
    }

    ghost predicate GivenAway(entry: LogicNode, m: Message, owned: set<object>)
      reads owned
    {
      && entry.session == this && entry.node in owned && entry.node.data in owned
      && entry.node.curLen <= entry.node.data.Length
      && m == Message(entry.node.msgId, entry.node.data[..entry.node.curLen])
    }

    constructor (uuid: string, server: CServer, logic: LogicSystem)
      ensures ReadValid() && State() == NOTHING && !readArmed && !closed
      ensures SendValid() && outbox == EMPTY
      ensures this.uuid == uuid && this.server == server && this.logic == logic
      ensures fresh(data) && fresh(head) && fresh(head.data) && shared == {} && postedNodes == []
    {
      this.uuid, this.server, this.logic := uuid, server, logic;
      data := new Byte[MAX_LENGTH];
      head := new MsgNode(HEAD_TOTAL_LEN);
      body, headParse, closed, readArmed := null, false, false, false;
      postedNodes, posted, status, shared := [], [], Reading, {};
      sendQue, outbox := [], EMPTY;
    }

    method Start()
      requires Ready() && status == Reading && !readArmed
      modifies this`readArmed, data
      ensures Ready() && readArmed && State() == old(State())
      ensures forall i :: 0 <= i < data.Length ==> data[i] == 0
    {
      ArmRead();
      SendingUntouched();
    }

    /** async_read_some on the whole, cleared buffer; at most one read is outstanding. */
    method ArmRead()
      requires ReadValid() && status == Reading && !readArmed
      modifies this`readArmed, data
      ensures ReadValid() && readArmed && State() == old(State())
      ensures forall i :: 0 <= i < data.Length ==> data[i] == 0
    {
      ZeroBytes(data, MAX_LENGTH);
      readArmed := true;
    }

    method Close()
      modifies this`closed
      ensures closed
    {
      closed := true;
    }

    method HandleReadError()
      requires ReadValid() && readArmed
      modifies this`closed, this`readArmed, server
      ensures ReadValid() && closed && !readArmed && State() == old(State())
      ensures server.sessions == old(server.sessions) - {uuid}
    {
      readArmed := false;
      Close();
      server.ClearSession(uuid);
    }

    /** Hand the complete body to the logic queue and go back to reading a head. */
    method PostBody()
      requires Safe() && status == Reading && !readArmed
      requires body != null && Private(body) && body.curLen == body.totalLen
      modifies this`headParse, this`postedNodes, this`posted, this`shared
      modifies body.data, head`curLen, head.data, logic
      ensures ReadValid() && !headParse
      ensures State() == Decoded(old(posted) + [Message(body.msgId, old(body.data[..body.totalLen]))], [], Reading)
      ensures body.data[body.totalLen] == 0
      ensures postedNodes == old(postedNodes) + [LogicNode(this, body)]
      ensures shared == old(shared) + {body, body.data}
      ensures logic.msgQue == old(logic.msgQue) + [LogicNode(this, body)]
    {
      ghost var bytes := body.data[..body.totalLen];
      body.data[body.totalLen] := 0;
      assert body.data[..body.totalLen] == bytes;
      GiveAway(Message(body.msgId, bytes));
      headParse := false;
      head.Clear();
    }

    method GiveAway(ghost m: Message)
      requires Safe() && body != null && Private(body)
      requires m == Message(body.msgId, body.data[..body.curLen])
      modifies this`postedNodes, this`posted, this`shared, logic
      ensures Safe() && posted == old(posted) + [m]
      ensures postedNodes == old(postedNodes) + [LogicNode(this, body)]
      ensures shared == old(shared) + {body, body.data}
      ensures logic.msgQue == old(logic.msgQue) + [LogicNode(this, body)]
    {
      logic.PostMsgToQue(LogicNode(this, body));
      postedNodes, posted := postedNodes + [LogicNode(this, body)], posted + [m];
      shared := shared + {body, body.data};
    }

    /** One round of the read loop while a head is wanted: `next` is the decoding after the round,
        `left` the bytes a further round has to look at. */
    method ReadHead(from: nat, n: nat)
      returns (consumed: nat, again: bool, ghost added: seq<LogicNode>, ghost next: Decoded, ghost left: seq<Byte>)
      requires ReadValid() && !headParse && !readArmed && status == Reading
      requires 0 < n && from + n <= MAX_LENGTH
      modifies this`body, this`headParse, this`readArmed, this`postedNodes, this`posted, this`status, this`shared
      modifies data, head`curLen, head.data, server, logic
      ensures (next, left) == Step(old(State()), old(data[from..from + n]))
      ensures ReadValid() && State() == next
      ensures again <==> left != []
      ensures again ==> 0 < consumed < n && !readArmed && !headParse && data[..] == old(data[..])
      ensures again ==> data[from + consumed..from + n] == left
      ensures !again ==> (readArmed <==> status == Reading)
      ensures postedNodes == old(postedNodes) + added && logic.msgQue == old(logic.msgQue) + added
      ensures server.sessions == if status == Rejected then old(server.sessions) - {uuid} else old(server.sessions)
      ensures headParse ==> fresh(body) && fresh(body.data)
      ensures GaveOnlyOwn()
    {
      ghost var s := State().rest + data[from..from + n];
      next, left := Step(State(), data[from..from + n]).0, Step(State(), data[from..from + n]).1;
      if n + head.curLen < HEAD_TOTAL_LEN {
        head.Append(data, from, n);
        ArmRead();
        return n, false, [], next, left;
      }
      var headRemain, ok, msgId, msgLen := TakeHead(from, n, s);
      if !ok {
        return headRemain, false, [], next, left;
      }
      consumed, again, added := StartBody(from + headRemain, n - headRemain, msgId, msgLen, s);
      consumed := headRemain + consumed;
    }

    /** Complete the head with the bytes it lacks and look at it. */
    method TakeHead(from: nat, n: nat, ghost s: seq<Byte>)
      returns (headRemain: nat, ok: bool, msgId: Short, msgLen: Short)
      requires ReadValid() && status == Reading && !readArmed && !headParse && from + n <= MAX_LENGTH
      requires s == head.data[..head.curLen] + data[from..from + n] && |s| >= HEAD_TOTAL_LEN
      modifies this`status, server, head.data
      ensures Safe() && 0 < headRemain <= n
      ensures s == head.data[..HEAD_TOTAL_LEN] + data[from + headRemain..from + n]
      ensures s[..HEAD_TOTAL_LEN] == head.data[..HEAD_TOTAL_LEN]
      ensures status == Verdict(s) && (ok <==> status == Reading)
      ensures ok ==> msgId == HeadId(s) && msgLen == HeadLen(s)
      ensures server.sessions == if status == Rejected then old(server.sessions) - {uuid} else old(server.sessions)
    {
      headRemain := head.Fill(data, from);
      assert data[from..from + n] == data[from..from + headRemain] + data[from + headRemain..from + n];
      assert s == head.data[..HEAD_TOTAL_LEN] + data[from + headRemain..from + n];
      ok, msgId, msgLen := ParseHead(s);
    }

    /** The four bytes of the head are there: read id and length from them and test both. */
    method ParseHead(ghost s: seq<Byte>) returns (ok: bool, msgId: Short, msgLen: Short)
      requires Safe() && status == Reading && !readArmed && !headParse
      requires |s| >= HEAD_TOTAL_LEN && head.data[..HEAD_TOTAL_LEN] == s[..HEAD_TOTAL_LEN]
      modifies this`status, server
      ensures status == Verdict(s) && (ok <==> status == Reading)
      ensures ok ==> msgId == HeadId(s) && msgLen == HeadLen(s)
      ensures server.sessions == if status == Rejected then old(server.sessions) - {uuid} else old(server.sessions)
    {
      assert forall i :: 0 <= i < HEAD_TOTAL_LEN ==> head.data[..HEAD_TOTAL_LEN][i] == s[..HEAD_TOTAL_LEN][i];
      ok, msgId, msgLen := false, HostShort(head.data[0], head.data[1]), 0;
      if msgId > MAX_LENGTH {
        status := Rejected;
        server.ClearSession(uuid);
        return;
      }
      msgLen := HostShort(head.data[2], head.data[3]);
      if msgLen > MAX_LENGTH {
        status := Rejected;
        server.ClearSession(uuid);
        return;
      }
      if msgLen < 0 {
        // No node of negative size can be allocated; the exception is swallowed and nothing is armed.
        status := Stalled;
        return;
      }
      ok := true;
    }

    /** The node under construction is the one the head asks for. */
    ghost predicate Announced(node: MsgNode)
      requires head.data.Length >= HEAD_TOTAL_LEN
      reads head.data
    {
      && Verdict(head.data[..HEAD_TOTAL_LEN]) == Reading
      && node.msgId == HeadId(head.data[..HEAD_TOTAL_LEN])
      && node.totalLen == HeadLen(head.data[..HEAD_TOTAL_LEN])
    }

    /** All bytes at hand go into the body, which still lacks some: keep it and read on. */
    method KeepBody(from: nat, n: nat)
      requires Safe() && !readArmed && status == Reading && from + n <= MAX_LENGTH
      requires body != null && Private(body) && Announced(body) && body.curLen + n < body.totalLen
      modifies this`headParse, this`readArmed, data, body`curLen, body.data
      ensures ReadValid() && headParse && readArmed
      ensures Pending() == head.data[..HEAD_TOTAL_LEN] + (old(body.data[..body.curLen]) + old(data[from..from + n]))
    {
      body.Append(data, from, n);
      headParse := true;
      ArmRead();
    }

    /** The bytes at hand complete the body with `k` of them: post it, and read on if none are left. */
    method CompleteBody(from: nat, n: nat, k: nat)
      requires Safe() && !readArmed && status == Reading && from + n <= MAX_LENGTH
      requires body != null && Private(body) && body.curLen + k == body.totalLen && k <= n
      modifies this`headParse, this`readArmed, this`postedNodes, this`posted, this`shared
      modifies data, body`curLen, body.data, head`curLen, head.data, logic
      ensures ReadValid() && !headParse && (readArmed <==> k == n)
      ensures var m := Message(body.msgId, old(body.data[..body.curLen]) + old(data[from..from + k]));
              State() == Decoded(old(posted) + [m], [], Reading)
      ensures k < n ==> data[..] == old(data[..])
      ensures postedNodes == old(postedNodes) + [LogicNode(this, body)]
      ensures shared == old(shared) + {body, body.data}
      ensures logic.msgQue == old(logic.msgQue) + [LogicNode(this, body)]
    {
      body.Append(data, from, k);
      PostBody();
      if k == n {
        ArmRead();
      }
    }

    /** The head is complete and accepted: allocate the body and fill it with what is at hand. */
    method StartBody(from: nat, n: nat, msgId: Short, msgLen: Short, ghost s: seq<Byte>)
      returns (consumed: nat, again: bool, ghost added: seq<LogicNode>)
      requires Safe() && !headParse && !readArmed && status == Reading && from + n <= MAX_LENGTH
      requires |s| >= HEAD_TOTAL_LEN && Verdict(s) == Reading && HeadId(s) == msgId && HeadLen(s) == msgLen
      requires s == head.data[..HEAD_TOTAL_LEN] + data[from..from + n]
      modifies this`body, this`headParse, this`readArmed, this`postedNodes, this`posted, this`shared
      modifies data, head`curLen, head.data, logic
      ensures ReadValid() && status == Reading && consumed <= n
      ensures State() == if HasFrame(s) then Decoded(old(posted) + [FirstFrame(s)], [], Reading)
                         else Decoded(old(posted), s, Reading)
      ensures again <==> HasFrame(s) && AfterFrame(s) != []
      ensures again ==> consumed < n && !readArmed && !headParse && data[..] == old(data[..])
      ensures again ==> data[from + consumed..from + n] == AfterFrame(s)
      ensures !again ==> readArmed
      ensures postedNodes == old(postedNodes) + added && logic.msgQue == old(logic.msgQue) + added
      ensures GaveOnlyOwn()
      ensures headParse ==> fresh(body) && fresh(body.data)
    {
      body := new MsgNode.Recv(msgLen, msgId);
      BodyParts(s, head.data[..HEAD_TOTAL_LEN], [], data[from..from + n], msgLen);
      if n < msgLen {
        KeepBody(from, n);
        return n, false, [];
      }
      assert data[from..from + n][..msgLen] == data[from..from + msgLen];
      assert data[from..from + n][msgLen..] == data[from + msgLen..from + n];
      CompleteBody(from, n, msgLen);
      consumed, again, added := msgLen, msgLen < n, [LogicNode(this, body)];
    }

    /** One round of the read loop while a body is being filled. */
    method ReadBody(from: nat, n: nat)
      returns (consumed: nat, again: bool, ghost added: seq<LogicNode>, ghost next: Decoded, ghost left: seq<Byte>)
      requires ReadValid() && headParse && !readArmed && status == Reading
      requires 0 < n && from + n <= MAX_LENGTH
      modifies this`headParse, this`readArmed, this`postedNodes, this`posted, this`shared
      modifies data, head`curLen, head.data, logic, body, body.data
      ensures (next, left) == Step(old(State()), old(data[from..from + n]))
      ensures ReadValid() && State() == next
      ensures again <==> left != []
      ensures again ==> 0 < consumed < n && !readArmed && !headParse && data[..] == old(data[..])
      ensures again ==> data[from + consumed..from + n] == left
      ensures !again ==> readArmed
      ensures postedNodes == old(postedNodes) + added && logic.msgQue == old(logic.msgQue) + added
      ensures status == Reading && body == old(body)
      ensures GaveOnlyOwn()
    {
      ghost var x, more := body.data[..body.curLen], data[from..from + n];
      ghost var s := State().rest + more;
      next, left := Step(State(), more).0, Step(State(), more).1;
      var remainMsg := body.totalLen - body.curLen;
      BodyParts(s, head.data[..HEAD_TOTAL_LEN], x, more, remainMsg);
      if n < remainMsg {
        KeepBody(from, n);
        return n, false, [], next, left;
      }
      assert more[..remainMsg] == data[from..from + remainMsg];
      assert more[remainMsg..] == data[from + remainMsg..from + n];
      CompleteBody(from, n, remainMsg);
      consumed, again, added := remainMsg, remainMsg < n, [LogicNode(this, body)];
    }

    /** One round of the read loop.  `goal` is what the bytes at hand amount to; a round never changes it. */
    method ReadRound(from: nat, n: nat, ghost todo: seq<Byte>, ghost goal: Decoded)
      returns (consumed: nat, again: bool, ghost added: seq<LogicNode>, ghost left: seq<Byte>)
      requires ReadValid() && !readArmed && status == Reading
      requires 0 < n && from + n <= MAX_LENGTH
      requires todo == data[from..from + n] && AmountsTo(State(), todo, goal)
      modifies this`body, this`headParse, this`readArmed, this`postedNodes, this`posted, this`status, this`shared
      modifies data, head`curLen, head.data, server, logic
      modifies if headParse then {body, body.data} else {}
      ensures ReadValid()
      ensures again ==> 0 < consumed < n && !headParse && !readArmed && status == Reading
      ensures again ==> left == data[from + consumed..from + n] && AmountsTo(State(), left, goal)
      ensures !again ==> State() == goal && (readArmed <==> status == Reading)
      ensures postedNodes == old(postedNodes) + added && logic.msgQue == old(logic.msgQue) + added
      ensures headParse ==> (old(headParse) && body == old(body)) || (fresh(body) && fresh(body.data))
      ensures GaveOnlyOwn()
      ensures server.sessions == if status == Rejected then old(server.sessions) - {uuid} else old(server.sessions)
    {
      ghost var next;
      StepResumes(State(), todo);
      if !headParse {
        consumed, again, added, next, left := ReadHead(from, n);
      } else {
        consumed, again, added, next, left := ReadBody(from, n);
      }
      if !again {
        ResumeNothing(State());
      }
    }

    /** The read loop over `n` received bytes, which amount to `goal`. */
    method ReadLoop(n: nat, ghost todo: seq<Byte>, ghost goal: Decoded) returns (ghost added: seq<LogicNode>)
      requires ReadValid() && !readArmed && status == Reading && n <= MAX_LENGTH
      requires todo == data[..n] && if n == 0 then State() == goal else AmountsTo(State(), todo, goal)
      modifies this`body, this`headParse, this`readArmed, this`postedNodes, this`posted, this`status, this`shared
      modifies data, head`curLen, head.data, server, logic
      modifies if headParse then {body, body.data} else {}
      ensures ReadValid() && State() == goal
      ensures postedNodes == old(postedNodes) + added && logic.msgQue == old(logic.msgQue) + added
      ensures headParse ==> (old(headParse) && body == old(body)) || (fresh(body) && fresh(body.data))
      ensures GaveOnlyOwn()
      ensures readArmed <==> n > 0 && status == Reading
      ensures server.sessions == if status == Rejected then old(server.sessions) - {uuid} else old(server.sessions)
    {
      var copyLen: nat, bytesTransferred: nat := 0, n;
      ghost var left := todo;
      added := [];
      while bytesTransferred > 0
        invariant copyLen + bytesTransferred == n && (n > 0 ==> bytesTransferred > 0)
        invariant ReadValid() && !readArmed && status == Reading
        invariant n == 0 ==> State() == goal
        invariant n > 0 ==> left == data[copyLen..n] && AmountsTo(State(), left, goal)
        invariant postedNodes == old(postedNodes) + added && logic.msgQue == old(logic.msgQue) + added
        invariant GaveOnlyOwn()
        invariant headParse ==> old(headParse) && body == old(body)
        invariant server.sessions == old(server.sessions)
      {
        var consumed, again;
        ghost var more;
        consumed, again, more, left := ReadRound(copyLen, bytesTransferred, left, goal);
        added := Longer(old(postedNodes), old(logic.msgQue), added, more);
        if !again {
          return;
        }
        copyLen, bytesTransferred := copyLen + consumed, bytesTransferred - consumed;
      }
    }

    /** Reading touches neither the send queue nor anything given away before. */
    twostate lemma SendingUntouched()
      requires old(SendValid()) && outbox == old(outbox) && sendQue == old(sendQue)
      requires old(shared) <= shared && unchanged(old(shared))
      ensures SendValid()
    {
      forall i | 0 <= i < |sendQue|
        ensures HoldsFrame(sendQue[i], outbox.queue[i], shared)
      {
        assert old(HoldsFrame(sendQue[i], outbox.queue[i], shared));
      }
    }

    /** The first `n` bytes of `data` have just been received. */
    method HandleRead(n: nat) returns (ghost added: seq<LogicNode>)
      requires ReadValid() && readArmed && n <= MAX_LENGTH
      modifies this`body, this`headParse, this`readArmed, this`postedNodes, this`posted, this`status, this`shared
      modifies data, head`curLen, head.data, server, logic
      modifies if headParse then {body, body.data} else {}
      ensures ReadValid()
      ensures old(SendValid()) ==> SendValid()
      ensures State() == Resume(old(State()), old(data[..n]))
      ensures postedNodes == old(postedNodes) + added && logic.msgQue == old(logic.msgQue) + added
      ensures headParse ==> (old(headParse) && body == old(body)) || (fresh(body) && fresh(body.data))
      ensures GaveOnlyOwn()
      ensures readArmed <==> n > 0 && status == Reading
      ensures server.sessions == if status == Rejected then old(server.sessions) - {uuid} else old(server.sessions)
    {
      readArmed := false;
      ghost var todo, goal := data[..n], Resume(State(), data[..n]);
      if n == 0 {
        ResumeNothing(State());
      }
      added := ReadLoop(n, todo, goal);
      if old(SendValid()) {
        SendingUntouched();
      }
    }

    twostate lemma Untouched()
      requires old(ReadValid()) && unchanged(old(Own()))
      ensures ReadValid() && State() == old(State()) && Own() == old(Own())
      ensures old(SendValid()) ==> SendValid()
    {
    }

    twostate lemma StillApart(other: CSession)
      requires old(Own() !! other.Own()) && other.Own() == old(other.Own()) && GaveOnlyOwn()
      requires headParse && body != null ==>
                 (old(headParse) && body == old(body)) || (fresh(body) && fresh(body.data))
      ensures Own() !! other.Own()
    {
    }

    /** Another session with the same server and logic queue does not notice a read: what it has read, sent
        and given away stays as it is, and the two still have nothing in common. */
    method ReadBeside(n: nat, ghost other: CSession)
      requires ReadValid() && readArmed && n <= MAX_LENGTH
      requires other.ReadValid() && other.server == server && other.logic == logic && Own() !! other.Own()
      modifies this`body, this`headParse, this`readArmed, this`postedNodes, this`posted, this`status, this`shared
      modifies data, head`curLen, head.data, server, logic
      modifies if headParse then {body, body.data} else {}
      ensures ReadValid() && State() == Resume(old(State()), old(data[..n]))
      ensures other.ReadValid() && other.State() == old(other.State())
      ensures old(other.SendValid()) ==> other.SendValid()
      ensures Own() !! other.Own()
    {
      ghost var _ := HandleRead(n);
      other.Untouched();
      StillApart(other);
    }

    /** Any number of reads: the chunks of a connection, one completion each, for as long as reads are armed. */
    method ReceiveAll(chunks: seq<seq<Byte>>) returns (ghost added: seq<LogicNode>)
      requires ReadValid() && readArmed
      requires forall i :: 0 <= i < |chunks| ==> 0 < |chunks[i]| <= MAX_LENGTH
      modifies this`body, this`headParse, this`readArmed, this`postedNodes, this`posted, this`status, this`shared
      modifies data, head`curLen, head.data, server, logic
      modifies if headParse then {body, body.data} else {}
      ensures ReadValid()
      ensures old(SendValid()) ==> SendValid()
      ensures State() == ResumeAll(old(State()), chunks)
      ensures old(State()) == NOTHING ==> State() == Decode(Concat(chunks))
      ensures postedNodes == old(postedNodes) + added && logic.msgQue == old(logic.msgQue) + added
      ensures readArmed <==> status == Reading
      ensures server.sessions == if status == Rejected then old(server.sessions) - {uuid} else old(server.sessions)
    {
      added := [];
      ghost var mine := if headParse then {body, body.data} else {};
      ghost var goal := ResumeAll(State(), chunks);
      for i := 0 to |chunks|
        invariant ReadValid() && (readArmed <==> status == Reading)
        invariant ResumeAll(State(), chunks[i..]) == goal
        invariant old(SendValid()) ==> SendValid()
        invariant server.sessions == if status == Rejected then old(server.sessions) - {uuid} else old(server.sessions)
        invariant postedNodes == old(postedNodes) + added && logic.msgQue == old(logic.msgQue) + added
        invariant headParse ==> (body in mine && body.data in mine) || (fresh(body) && fresh(body.data))
      {
        ghost var left := chunks[i..];
        assert left[0] == chunks[i] && left[1..] == chunks[i + 1..];
        if readArmed {
          ghost var more := ReceiveChunk(chunks[i]);
          added := Longer(old(postedNodes), old(logic.msgQue), added, more);
        }
      }
      ghost var none: seq<seq<Byte>> := [];
      assert chunks[|chunks|..] == none;
      if old(State()) == NOTHING {
        AnyTwoChunkingsAgree(chunks, chunks);
      }
    }

    /** A stream with a bad head behind some frames: the frames are posted and reading is over.  The session is
        forgotten by the server exactly if id or length are too large. */
    method ReceiveBadHead(chunks: seq<seq<Byte>>, ghost ms: seq<Message>, ghost bad: seq<Byte>, ghost tail: seq<Byte>)
      requires ReadValid() && readArmed && State() == NOTHING
      requires forall i :: 0 <= i < |chunks| ==> 0 < |chunks[i]| <= MAX_LENGTH
      requires AllSendable(ms) && |bad| == 4 && (Oversize(bad) || bad[2] >= 128)
      requires Concat(chunks) == EncodeAll(ms) + (bad + tail)
      modifies this`body, this`headParse, this`readArmed, this`postedNodes, this`posted, this`status, this`shared
      modifies data, head`curLen, head.data, server, logic
      modifies if headParse then {body, body.data} else {}
      ensures ReadValid() && !readArmed && posted == ms
      ensures server.sessions == if Oversize(bad) then old(server.sessions) - {uuid} else old(server.sessions)
    {
      HeadBehindFrames(ms, bad, tail);
      ghost var _ := ReceiveAll(chunks);
    }

    /** One read completes with `chunk`. */
    method ReceiveChunk(chunk: seq<Byte>) returns (ghost added: seq<LogicNode>)
      requires ReadValid() && readArmed && 0 < |chunk| <= MAX_LENGTH
      modifies this`body, this`headParse, this`readArmed, this`postedNodes, this`posted, this`status, this`shared
      modifies data, head`curLen, head.data, server, logic
      modifies if headParse then {body, body.data} else {}
      ensures ReadValid() && (readArmed <==> status == Reading)
      ensures old(SendValid()) ==> SendValid()
      ensures State() == Resume(old(State()), chunk)
      ensures postedNodes == old(postedNodes) + added && logic.msgQue == old(logic.msgQue) + added
      ensures headParse ==> (old(headParse) && body == old(body)) || (fresh(body) && fresh(body.data))
      ensures server.sessions == if status == Rejected then old(server.sessions) - {uuid} else old(server.sessions)
    {
      forall j | 0 <= j < |chunk| {
        data[j] := chunk[j];
      }
      assert data[..|chunk|] == chunk && State() == old(State());
      added := HandleRead(|chunk|);
    }

    // ---------- sending ----------

    /** Queue entries hold the encoded frames of the queued messages, in buffers nobody writes again. */
    ghost predicate SendValid()
      reads this, shared
    {
      Inv(outbox) && SendQueued()
    }

    ghost predicate SendQueued()
      reads this, shared
    {
      Queued(sendQue, outbox.queue, shared)
    }

    static ghost predicate Queued(nodes: seq<MsgNode>, ms: seq<Message>, owned: set<object>)
      reads owned
    {
      |nodes| == |ms| && forall i :: 0 <= i < |nodes| ==> HoldsFrame(nodes[i], ms[i], owned)
    }

    static ghost predicate HoldsFrame(node: MsgNode, m: Message, owned: set<object>)
      reads owned
    {
      && node in owned && node.data in owned
      && |m.body| <= MAX_BODY && node.totalLen < node.data.Length
      && node.data[..node.totalLen] == Encode(m)
    }

    static lemma QueuedPush(nodes: seq<MsgNode>, ms: seq<Message>, owned: set<object>, node: MsgNode, m: Message)
      requires Queued(nodes, ms, owned)
      requires |m.body| <= MAX_BODY && node.totalLen < node.data.Length && node.data[..node.totalLen] == Encode(m)
      ensures Queued(nodes + [node], ms + [m], owned + {node, node.data})
    {
      forall i | 0 <= i < |nodes|
        ensures HoldsFrame(nodes[i], ms[i], owned + {node, node.data})
      {
        assert HoldsFrame(nodes[i], ms[i], owned);
      }
    }

    static lemma QueuedPop(nodes: seq<MsgNode>, ms: seq<Message>, owned: set<object>)
      requires Queued(nodes, ms, owned) && nodes != []
      ensures Queued(nodes[1..], ms[1..], owned)
    {
      forall i | 0 <= i < |nodes| - 1
        ensures HoldsFrame(nodes[1..][i], ms[1..][i], owned)
      {
        assert HoldsFrame(nodes[i + 1], ms[i + 1], owned);
      }
    }

    /** Between two events: both halves of the session are in order. */
    ghost predicate Ready()
      reads this, Own()
    {
      ReadValid() && SendValid()
    }

    /** The same session, or one that is in order and has nothing in common with it. */
    ghost predicate Beside(other: CSession)
      reads this, Own(), other
    {
      this == other || (Ready() && Own() !! other.Own())
    }

    /** async_write: the buffer of the front node goes to the socket.  Never while a write is in flight,
        and never again once one has failed. */
    ghost method AsyncWrite()
      requires SendQueued() && sendQue != [] && !outbox.writing && !outbox.failed
      modifies this`outbox
      ensures outbox == old(outbox.(started := outbox.started + [outbox.queue[0]], writing := true))
    {
      outbox := outbox.(started := outbox.started + [outbox.queue[0]], writing := true);
    }

    /** Lengths from which a node of negative size would result throw before anything is queued; for the five
        lengths just below zero the original has no defined result. */
    method Send(msg: seq<Byte>, msgId: Short) returns (thrown: bool)
      requires ReadValid() && SendValid() && !(-5 <= CastShort(|msg|) < 0)
      modifies this`sendQue, this`outbox, this`shared
      ensures ReadValid() && SendValid() && State() == old(State())
      ensures thrown <==> |old(outbox).queue| <= MAX_SENDQUE && !(0 <= CastShort(|msg|) <= MAX_BODY)
      ensures outbox == if thrown then old(outbox) else Push(old(outbox), Message(msgId, Carried(msg)))
      ensures old(shared) <= shared && fresh(shared - old(shared))
    {
      thrown := false;
      var sendQueSize := |sendQue|;
      if sendQueSize > MAX_SENDQUE {
        return;
      }
      var maxLen := CastShort(|msg|);
      if maxLen < 0 || maxLen + HEAD_TOTAL_LEN > 32767 {
        return true;
      }
      Enqueue(msg, msgId);
      if sendQueSize == 0 {
        AsyncWrite();
      }
    }

    /** Nor does another session notice a message that is sent. */
    method SendBeside(msg: seq<Byte>, msgId: Short, ghost other: CSession) returns (thrown: bool)
      requires Ready() && other.Ready() && Own() !! other.Own() && !(-5 <= CastShort(|msg|) < 0)
      modifies this`sendQue, this`outbox, this`shared
      ensures thrown <==> |old(outbox).queue| <= MAX_SENDQUE && !(0 <= CastShort(|msg|) <= MAX_BODY)
      ensures Ready() && outbox == if thrown then old(outbox) else Push(old(outbox), Message(msgId, Carried(msg)))
      ensures other.Ready() && other.State() == old(other.State()) && Own() !! other.Own()
    {
      thrown := Send(msg, msgId);
      other.Untouched();
    }

    /** A new node behind the others; nothing is written yet. */
    method Enqueue(msg: seq<Byte>, msgId: Short)
      requires ReadValid() && SendQueued() && 0 <= CastShort(|msg|) <= MAX_BODY
      modifies this`sendQue, this`outbox, this`shared
      ensures ReadValid() && SendQueued() && State() == old(State())
      ensures sendQue != [] && old(shared) <= shared && fresh(shared - old(shared))
      ensures var m := Message(msgId, Carried(msg));
              outbox == old(outbox.(accepted := outbox.accepted + [m], queue := outbox.queue + [m]))
    {
      var node := new MsgNode.Send(msg, msgId);
      ghost var m := Message(msgId, Carried(msg));
      QueuedPush(sendQue, outbox.queue, shared, node, m);
      sendQue := sendQue + [node];
      shared := shared + {node, node.data};
      outbox := outbox.(accepted := outbox.accepted + [m], queue := outbox.queue + [m]);
    }

    method HandleWrite(error: bool)
      requires ReadValid() && SendValid() && outbox.writing
      modifies this`sendQue, this`outbox, this`closed, server
      ensures ReadValid() && SendValid() && State() == old(State())
      ensures outbox == if error then WriteFailed(old(outbox)) else WriteDone(old(outbox))
      ensures closed == (old(closed) || error)
      ensures server.sessions == if error then old(server.sessions) - {uuid} else old(server.sessions)
    {
      if error {
        GiveUp();
      } else {
        PopWritten();
      }
    }

    method GiveUp()
      requires ReadValid() && SendValid() && outbox.writing
      modifies this`outbox, this`closed, server
      ensures ReadValid() && SendValid() && State() == old(State())
      ensures outbox == WriteFailed(old(outbox)) && closed
      ensures server.sessions == old(server.sessions) - {uuid}
    {
      outbox := WriteFailed(outbox);
      Close();
      server.ClearSession(uuid);
    }

    method PopWritten()
      requires ReadValid() && SendValid() && outbox.writing
      modifies this`sendQue, this`outbox
      ensures ReadValid() && SendValid() && State() == old(State())
      ensures outbox == WriteDone(old(outbox))
    {
      DoneKeepsInv(outbox);
      QueuedPop(sendQue, outbox.queue, shared);
      sendQue := sendQue[1..];
      outbox := outbox.(completed := outbox.completed + [outbox.queue[0]], queue := outbox.queue[1..],
                        writing := false);
      if sendQue != [] {
        AsyncWrite();
      }
    }
  }
}

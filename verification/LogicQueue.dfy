/** The queue between the sessions and the logic thread: one mutex, one condition variable, any number of
    posting sessions and one worker.  Every line of the two routines that another thread could come between
    is a step of its own. */
module LogicQueue {
  import opened Frames
  import opened Kinds

  datatype Node = Node(session: nat, msg: Message)

  /** Where a session's thread stands in PostMsgToQue. */
  datatype PostPc = Outside | WantLock | Holding | Pushed | MustNotify

  /** `received` is everything its connection delivered, `parser` what was made of it,
      `todo` the messages decoded but not posted yet. */
  datatype Session = Session(received: seq<Byte>, parser: Decoded, todo: seq<Message>, pc: PostPc)

  datatype Holder = Free | Worker | By(p: nat)

  /** Where the logic thread stands in DealMsg; `draining` is the loop entered after the stop flag was seen. */
  datatype WorkerPc = Start | Check | AboutToWait | Waiting(woken: bool) | TestStop | TestDrained
                    | Lookup(draining: bool) | Callback(draining: bool) | Pop(draining: bool, called: bool) | Finished

  datatype State = State(sessions: map<nat, Session>, queue: seq<Node>, holder: Holder, worker: WorkerPc, stop: bool,
                         posted: seq<Node>, handled: seq<Node>, called: seq<Node>)

  const INITIAL := State(map[], [], Free, Start, false, [], [], [])

  datatype Step =
    | Connect(p: nat) | Receive(p: nat, chunk: seq<Byte>)
    | Enter(p: nat) | Acquire(p: nat) | Push(p: nat) | Release(p: nat) | Notify(p: nat)
    | Work | Spurious | SetStop | StopNotify

  /** The ids under which callbacks are registered. */
  const CALLBACKS := {MSG_HELLO_WORD, MSG_REGISTER, MSG_LOGIN, MSG_LOGOUT, MSG_ADD_FRIEND,
                      MSG_ONE_CHAT, MSG_JOIN_GROUP, MSG_CREATE_GROUP, MSG_GROUP_CHAT}

  predicate Registered(id: Short) {
    id in CALLBACKS
  }

  predicate At(s: State, p: nat, pc: PostPc) {
    p in s.sessions && s.sessions[p].pc == pc
  }

  predicate Enabled(s: State, step: Step) {
    match step
    case Connect(p) => p !in s.sessions
    case Receive(p, _) => At(s, p, Outside) && s.sessions[p].todo == [] && s.sessions[p].parser.status == Reading
    case Enter(p) => At(s, p, Outside) && s.sessions[p].todo != []
    case Acquire(p) => At(s, p, WantLock) && s.holder == Free
    case Push(p) => At(s, p, Holding) && s.sessions[p].todo != []
    case Release(p) => At(s, p, Pushed)
    case Notify(p) => At(s, p, MustNotify)
    case Work => WorkerEnabled(s)
    case Spurious => s.worker == Waiting(false)
    case SetStop => true
    case StopNotify => s.stop
  }

  predicate WorkerEnabled(s: State) {
    match s.worker
    case Start => s.holder == Free
    case Waiting(woken) => woken && s.holder == Free
    case Finished => false
    case Lookup(_) => s.queue != []
    case Callback(_) => s.queue != []
    case Pop(_, _) => s.queue != []
    case _ => true
  }

  function Wake(w: WorkerPc): WorkerPc {
    if w == Waiting(false) then Waiting(true) else w
  }

  function SetPc(s: State, p: nat, pc: PostPc): map<nat, Session>
    requires p in s.sessions
  {
    s.sessions[p := s.sessions[p].(pc := pc)]
  }

  function Apply(s: State, step: Step): State
    requires Enabled(s, step)
  {
    match step
    case Connect(p) => s.(sessions := s.sessions[p := Session([], NOTHING, [], Outside)])
    case Receive(p, chunk) =>
      var x := s.sessions[p];
      var parser := Resume(x.parser, chunk);
      s.(sessions := s.sessions[p := Session(x.received + chunk, parser, parser.posted[|x.parser.posted|..], Outside)])
    case Enter(p) => s.(sessions := SetPc(s, p, WantLock))
    case Acquire(p) => s.(sessions := SetPc(s, p, Holding), holder := By(p))
    case Push(p) =>
      var x := s.sessions[p];
      var node := Node(p, x.todo[0]);
      s.(sessions := s.sessions[p := x.(todo := x.todo[1..], pc := Pushed)],
         queue := s.queue + [node], posted := s.posted + [node])
    case Release(p) =>
      s.(sessions := SetPc(s, p, if |s.queue| == 1 then MustNotify else Outside), holder := Free)
    case Notify(p) => s.(sessions := SetPc(s, p, Outside), worker := Wake(s.worker))
    case Work => WorkerStep(s)
    case Spurious => s.(worker := Waiting(true))
    case SetStop => s.(stop := true)
    case StopNotify => s.(worker := Wake(s.worker))
  }

  function WorkerStep(s: State): State
    requires WorkerEnabled(s)
  {
    match s.worker
    case Start => s.(holder := Worker, worker := Check)
    case Check => s.(worker := if s.queue == [] && !s.stop then AboutToWait else TestStop)
    case AboutToWait => s.(holder := Free, worker := Waiting(false))
    case Waiting(_) => s.(holder := Worker, worker := Check)
    case TestStop => s.(worker := if s.stop then TestDrained else Lookup(false))
    case TestDrained => if s.queue == [] then s.(holder := Free, worker := Finished) else s.(worker := Lookup(true))
    case Lookup(d) => s.(worker := if Registered(s.queue[0].msg.id) then Callback(d) else Pop(d, false))
    case Callback(d) => s.(called := s.called + [s.queue[0]], worker := Pop(d, true))
    case Pop(d, _) =>
      var popped := s.(queue := s.queue[1..], handled := s.handled + [s.queue[0]]);
      if d then popped.(worker := TestDrained) else popped.(holder := Free, worker := Start)
  }

  // ---------- what every step keeps ----------

  predicate InsideLock(pc: PostPc) {
    pc == Holding || pc == Pushed
  }

  predicate WorkerHolds(w: WorkerPc) {
    !w.Start? && !w.Waiting? && !w.Finished?
  }

  /** One thread at a time: whoever is between acquire and release is the holder. */
  ghost predicate MutexInv(s: State) {
    && (forall p :: p in s.sessions ==> (InsideLock(s.sessions[p].pc) <==> s.holder == By(p)))
    && (s.holder.By? ==> s.holder.p in s.sessions)
    && (WorkerHolds(s.worker) <==> s.holder == Worker)
  }

  /** front() and pop() are only reached with something in the queue, the wait only with nothing in it. */
  ghost predicate QueueInv(s: State) {
    && (s.worker == AboutToWait ==> s.queue == [])
    && (s.worker == TestStop ==> s.queue != [] || s.stop)
    && (s.worker.Lookup? || s.worker.Callback? || s.worker.Pop? ==> s.queue != [])
    && (s.worker.Callback? ==> Registered(s.queue[0].msg.id))
    && (s.worker.Pop? ==> s.worker.called == Registered(s.queue[0].msg.id))
    && (forall p :: At(s, p, Pushed) ==> s.queue != [] && s.queue[|s.queue| - 1].session == p)
    && (forall p :: p in s.sessions && (s.sessions[p].pc == WantLock || s.sessions[p].pc == Holding) ==>
          s.sessions[p].todo != [])
  }

  ghost predicate WakerExists(s: State) {
    exists p :: At(s, p, MustNotify) || (At(s, p, Pushed) && |s.queue| == 1)
  }

  /** No wakeup is lost. */
  ghost predicate WakeInv(s: State) {
    s.worker == Waiting(false) && s.queue != [] ==> WakerExists(s)
  }

  function WithCallback(nodes: seq<Node>): seq<Node> {
    if nodes == [] then []
    else
      var last := nodes[|nodes| - 1];
      WithCallback(nodes[..|nodes| - 1]) + if Registered(last.msg.id) then [last] else []
  }

  function OfSession(nodes: seq<Node>, p: nat): seq<Message> {
    if nodes == [] then []
    else
      var last := nodes[|nodes| - 1];
      OfSession(nodes[..|nodes| - 1], p) + if last.session == p then [last.msg] else []
  }

  /** First in, first out, nothing lost or repeated; and one callback for each message that has one. */
  ghost predicate LogInv(s: State) {
    && s.posted == s.handled + s.queue
    && s.called == WithCallback(s.handled) +
       if s.worker.Pop? && s.worker.called && s.queue != [] then [s.queue[0]] else []
  }

  /** What a session has posted and still has to post are its decoded frames, in order. */
  ghost predicate SessionInv(s: State) {
    && (forall p :: p in s.sessions ==>
          InOrder(s.sessions[p], OfSession(s.posted, p)))
    && (forall p :: p !in s.sessions ==> OfSession(s.posted, p) == [])
  }

  predicate InOrder(x: Session, posted: seq<Message>) {
    x.parser == Decode(x.received) && posted + x.todo == x.parser.posted
  }

  ghost predicate Inv(s: State) {
    MutexInv(s) && QueueInv(s) && WakeInv(s) && LogInv(s) && SessionInv(s)
  }

  lemma StepMutex(s: State, step: Step)
    requires MutexInv(s) && Enabled(s, step)
    ensures MutexInv(Apply(s, step))
  {
    match step
    case Work => WorkKeepsMutex(s);
    case _ =>
  }

  lemma WorkKeepsMutex(s: State)
    requires MutexInv(s) && WorkerEnabled(s)
    ensures MutexInv(WorkerStep(s))
  {
  }

  lemma StepQueue(s: State, step: Step)
    requires MutexInv(s) && QueueInv(s) && Enabled(s, step)
    ensures QueueInv(Apply(s, step))
  {
    match step
    case Work => StepQueueWork(s);
    case Push(p) => assert s.holder == By(p) && !WorkerHolds(s.worker);
    case _ =>
      assert Apply(s, step).queue == s.queue;
      assert forall q :: At(Apply(s, step), q, Pushed) ==> At(s, q, Pushed);
  }

  lemma StepQueueWork(s: State)
    requires MutexInv(s) && QueueInv(s) && WorkerEnabled(s)
    ensures QueueInv(WorkerStep(s))
  {
  }

  lemma StepWake(s: State, step: Step)
    requires MutexInv(s) && QueueInv(s) && WakeInv(s) && Enabled(s, step)
    ensures WakeInv(Apply(s, step))
  {
    var t := Apply(s, step);
    if t.worker == Waiting(false) && t.queue != [] {
      match step
      case Push(p) =>
        if s.queue == [] {
          assert At(t, p, Pushed);
        } else {
          var q :| At(s, q, MustNotify) || (At(s, q, Pushed) && |s.queue| == 1);
          assert At(t, q, MustNotify);
        }
      case Release(p) =>
        var q :| At(s, q, MustNotify) || (At(s, q, Pushed) && |s.queue| == 1);
        assert At(t, q, MustNotify);
      case Work =>
      case Notify(p) =>
      case Spurious =>
      case StopNotify =>
      case _ =>
        var q :| At(s, q, MustNotify) || (At(s, q, Pushed) && |s.queue| == 1);
        assert At(t, q, s.sessions[q].pc);
    }
  }

  lemma StepLog(s: State, step: Step)
    requires MutexInv(s) && QueueInv(s) && LogInv(s) && Enabled(s, step)
    ensures LogInv(Apply(s, step))
  {
    match step
    case Push(p) =>
      assert s.holder == By(p) && !s.worker.Pop?;
      var node := Node(p, s.sessions[p].todo[0]);
      assert (s.handled + s.queue) + [node] == s.handled + (s.queue + [node]);
    case Work =>
      if s.worker.Pop? {
        StepLogPop(s);
      }
    case _ =>
  }

  lemma StepLogPop(s: State)
    requires QueueInv(s) && LogInv(s) && s.worker.Pop?
    ensures LogInv(WorkerStep(s))
  {
    var handled := s.handled + [s.queue[0]];
    assert handled[..|handled| - 1] == s.handled;
    assert s.queue == [s.queue[0]] + s.queue[1..];
    assert s.handled + s.queue == handled + s.queue[1..];
  }

  lemma StepSession(s: State, step: Step)
    requires QueueInv(s) && SessionInv(s) && Enabled(s, step)
    ensures SessionInv(Apply(s, step))
  {
    match step
    case Connect(p) => assert InOrder(Session([], NOTHING, [], Outside), []);
    case Receive(p, chunk) => StepReceive(s.sessions[p], OfSession(s.posted, p), chunk);
    case Push(p) => StepPush(s, p);
    case Work => assert WorkerStep(s).sessions == s.sessions && WorkerStep(s).posted == s.posted;
    case Spurious =>
    case SetStop =>
    case StopNotify =>
    case _ => StepMovesPc(s, step);
  }

  lemma StepReceive(x: Session, posted: seq<Message>, chunk: seq<Byte>)
    requires InOrder(x, posted) && x.todo == [] && x.parser.status == Reading
    ensures var parser := Resume(x.parser, chunk);
            InOrder(Session(x.received + chunk, parser, parser.posted[|x.parser.posted|..], Outside), posted)
  {
    DecodeAppend(x.received, chunk);
  }

  lemma StepPush(s: State, p: nat)
    requires SessionInv(s) && Enabled(s, Push(p))
    ensures SessionInv(Apply(s, Push(p)))
  {
    var t := Apply(s, Push(p));
    var x := s.sessions[p];
    assert t.posted[..|t.posted| - 1] == s.posted;
    assert InOrder(t.sessions[p], OfSession(t.posted, p)) by {
      assert OfSession(t.posted, p) == OfSession(s.posted, p) + [x.todo[0]];
      assert (OfSession(s.posted, p) + [x.todo[0]]) + x.todo[1..] == OfSession(s.posted, p) + x.todo;
    }
    forall q | q != p
      ensures OfSession(t.posted, q) == OfSession(s.posted, q)
    {
    }
  }

  lemma StepMovesPc(s: State, step: Step)
    requires SessionInv(s) && Enabled(s, step)
    requires step.Enter? || step.Acquire? || step.Release? || step.Notify?
    ensures SessionInv(Apply(s, step))
  {
    var t := Apply(s, step);
    forall p | p in t.sessions
      ensures InOrder(t.sessions[p], OfSession(t.posted, p))
    {
      assert InOrder(s.sessions[p], OfSession(s.posted, p));
    }
  }

  // ---------- every run ----------

  predicate Legal(s: State, steps: seq<Step>)
    decreases |steps|
  {
    steps == [] || (Enabled(s, steps[0]) && Legal(Apply(s, steps[0]), steps[1..]))
  }

  function Run(s: State, steps: seq<Step>): State
    requires Legal(s, steps)
    decreases |steps|
  {
    if steps == [] then s else Run(Apply(s, steps[0]), steps[1..])
  }

  lemma {:induction false} RunKeepsInv(s: State, steps: seq<Step>)
    requires Inv(s) && Legal(s, steps)
    ensures Inv(Run(s, steps))
    decreases |steps|
  {
    if steps != [] {
      StepKeepsInv(s, steps[0]);
      RunKeepsInv(Apply(s, steps[0]), steps[1..]);
    }
  }

  /** In every reachable state: a worker asleep over a non-empty queue is about to be notified. */
  lemma NoLostWakeup(steps: seq<Step>)
    requires Legal(INITIAL, steps)
    ensures var s := Run(INITIAL, steps);
            s.worker == Waiting(false) && s.queue != [] ==>
              exists p :: At(s, p, MustNotify) || (At(s, p, Pushed) && |s.queue| == 1)
  {
    InitialInv();
    RunKeepsInv(INITIAL, steps);
  }

  /** In every reachable state, for every session: the messages handled, queued and still to be posted are
      exactly the frames of the bytes it received, in order and each once. */
  lemma DeliveredInOrder(steps: seq<Step>, p: nat)
    requires Legal(INITIAL, steps) && p in Run(INITIAL, steps).sessions
    ensures var s := Run(INITIAL, steps);
            OfSession(s.handled + s.queue, p) + s.sessions[p].todo == Decode(s.sessions[p].received).posted
  {
    InitialInv();
    RunKeepsInv(INITIAL, steps);
    var s := Run(INITIAL, steps);
    assert InOrder(s.sessions[p], OfSession(s.posted, p));
  }

  /** The bytes that arrived for a session. */
  function Arrived(steps: seq<Step>, p: nat): seq<Byte> {
    if steps == [] then []
    else (if steps[0].Receive? && steps[0].p == p then steps[0].chunk else []) + Arrived(steps[1..], p)
  }

  function ReceivedBy(s: State, p: nat): seq<Byte> {
    if p in s.sessions then s.sessions[p].received else []
  }

  lemma {:induction false} ReceivedAll(s: State, steps: seq<Step>, p: nat)
    requires Legal(s, steps)
    ensures ReceivedBy(Run(s, steps), p) == ReceivedBy(s, p) + Arrived(steps, p)
    decreases |steps|
  {
    if steps != [] {
      ReceivedOne(s, steps[0], p);
      ReceivedAll(Apply(s, steps[0]), steps[1..], p);
    }
  }

  lemma ReceivedOne(s: State, step: Step, p: nat)
    requires Enabled(s, step)
    ensures ReceivedBy(Apply(s, step), p) ==
            ReceivedBy(s, p) + if step.Receive? && step.p == p then step.chunk else []
  {
    assert ReceivedBy(s, p) + [] == ReceivedBy(s, p);
  }

  /** The same against what arrived, whichever way the threads came between each other. */
  lemma DeliveredAsArrived(steps: seq<Step>, p: nat)
    requires Legal(INITIAL, steps) && p in Run(INITIAL, steps).sessions
    ensures var s := Run(INITIAL, steps);
            OfSession(s.handled + s.queue, p) + s.sessions[p].todo == Decode(Arrived(steps, p)).posted
  {
    DeliveredInOrder(steps, p);
    ReceivedAll(INITIAL, steps, p);
    assert [] + Arrived(steps, p) == Arrived(steps, p);
  }

  /** Each handled message with a registered id got exactly one callback, in the order of handling; between
      callback and pop the front message has had its own already. */
  lemma CalledOnceEach(steps: seq<Step>)
    requires Legal(INITIAL, steps)
    ensures var s := Run(INITIAL, steps);
            && (s.worker.Pop? ==> s.queue != [])
            && var front := if s.worker.Pop? then WithCallback([s.queue[0]]) else [];
               s.called == WithCallback(s.handled) + front
  {
    InitialInv();
    RunKeepsInv(INITIAL, steps);
  }

  /** Every kind of message has a callback, and nothing else has. */
  lemma RegisteredExactly(id: Short)
    ensures Registered(id) <==> exists k :: Number(k) == id
  {
    NumbersExactly(id);
  }

  /** The messages of one of the kinds, in order. */
  ghost function OfKinds(nodes: seq<Node>): seq<Node> {
    if nodes == [] then []
    else (if exists k :: Number(k) == nodes[0].msg.id then [nodes[0]] else []) + OfKinds(nodes[1..])
  }

  lemma {:induction false} OfKindsAppend(nodes: seq<Node>, last: Node)
    ensures OfKinds(nodes + [last]) == OfKinds(nodes) + OfKinds([last])
  {
    if nodes == [] {
      assert [] + [last] == [last];
    } else {
      OfKindsAppend(nodes[1..], last);
      assert (nodes + [last])[1..] == nodes[1..] + [last];
    }
  }

  lemma {:induction false} CallbacksAreOfKinds(nodes: seq<Node>)
    ensures WithCallback(nodes) == OfKinds(nodes)
  {
    if nodes != [] {
      var front, last := nodes[..|nodes| - 1], nodes[|nodes| - 1];
      CallbacksAreOfKinds(front);
      OfKindsAppend(front, last);
      RegisteredExactly(last.msg.id);
      assert nodes == front + [last] && [last][1..] == [];
    }
  }

  /** In every reachable state the callbacks made are the messages handled, and the one about to be popped, whose
      id is the number of some kind, in order and once each. */
  lemma CalledByKind(steps: seq<Step>)
    requires Legal(INITIAL, steps)
    ensures var s := Run(INITIAL, steps);
            && (s.worker.Pop? ==> s.queue != [])
            && s.called == OfKinds(s.handled + if s.worker.Pop? then [s.queue[0]] else [])
  {
    CalledOnceEach(steps);
    var s := Run(INITIAL, steps);
    CallbacksAreOfKinds(s.handled);
    if s.worker.Pop? {
      CallbacksAreOfKinds([s.queue[0]]);
      OfKindsAppend(s.handled, s.queue[0]);
    } else {
      assert s.handled + [] == s.handled;
    }
  }

  lemma {:induction false} KindKept(nodes: seq<Node>, i: nat, k: Kind)
    requires i < |nodes| && nodes[i].msg.id == Number(k)
    ensures nodes[i] in OfKinds(nodes)
  {
    if i > 0 {
      KindKept(nodes[1..], i - 1, k);
    }
  }

  /** A handled message of any kind was called. */
  lemma KindCalled(steps: seq<Step>, i: nat, k: Kind)
    requires Legal(INITIAL, steps)
    requires i < |Run(INITIAL, steps).handled| && Run(INITIAL, steps).handled[i].msg.id == Number(k)
    ensures Run(INITIAL, steps).handled[i] in Run(INITIAL, steps).called
  {
    CalledByKind(steps);
    var s := Run(INITIAL, steps);
    KindKept(s.handled + if s.worker.Pop? then [s.queue[0]] else [], i, k);
  }

  /** A session goes on to notify exactly if its own message is the only one, that is, was the first. */
  lemma NotifiesForFirst(steps: seq<Step>, p: nat)
    requires Legal(INITIAL, steps) && At(Run(INITIAL, steps), p, Pushed)
    ensures var s := Run(INITIAL, steps);
            && s.queue != [] && s.queue[|s.queue| - 1].session == p
            && (At(Apply(s, Release(p)), p, MustNotify) <==> s.queue == [s.queue[|s.queue| - 1]])
            && (!At(Apply(s, Release(p)), p, MustNotify) ==> At(Apply(s, Release(p)), p, Outside))
  {
    InitialInv();
    RunKeepsInv(INITIAL, steps);
    ReleaseNotifies(Run(INITIAL, steps), p);
  }

  lemma ReleaseNotifies(s: State, p: nat)
    requires QueueInv(s) && At(s, p, Pushed)
    ensures s.queue != [] && s.queue[|s.queue| - 1].session == p
    ensures At(Apply(s, Release(p)), p, MustNotify) <==> s.queue == [s.queue[|s.queue| - 1]]
    ensures At(Apply(s, Release(p)), p, MustNotify) || At(Apply(s, Release(p)), p, Outside)
  {
  }

  /** Never two threads between acquire and release. */
  lemma OneHolder(steps: seq<Step>, p: nat, q: nat)
    requires Legal(INITIAL, steps)
    requires var s := Run(INITIAL, steps); p in s.sessions && q in s.sessions && InsideLock(s.sessions[p].pc)
    ensures var s := Run(INITIAL, steps); !WorkerHolds(s.worker) && (InsideLock(s.sessions[q].pc) ==> p == q)
  {
    InitialInv();
    RunKeepsInv(INITIAL, steps);
  }

  /** front() and pop() are never called on an empty queue. */
  lemma FrontIsThere(steps: seq<Step>)
    requires Legal(INITIAL, steps)
    ensures var s := Run(INITIAL, steps);
            s.worker.Lookup? || s.worker.Callback? || s.worker.Pop? ==> s.queue != [] && s.holder == Worker
  {
    InitialInv();
    RunKeepsInv(INITIAL, steps);
  }

  /** What can happen and what cannot: only the lock and the condition variable hold a thread up, and no thread
      goes on without them. */
  lemma OnlyLockAndWaitBlock(steps: seq<Step>, p: nat, chunk: seq<Byte>)
    requires Legal(INITIAL, steps)
    ensures SessionGoesOn(Run(INITIAL, steps), p, chunk) && WorkerGoesOn(Run(INITIAL, steps))
  {
    InitialInv();
    RunKeepsInv(INITIAL, steps);
    SessionsAreFree(Run(INITIAL, steps), p, chunk);
    WorkerIsFree(Run(INITIAL, steps));
  }

  predicate SessionGoesOn(s: State, p: nat, chunk: seq<Byte>) {
    && (Enabled(s, Connect(p)) <==> p !in s.sessions)
    && (Enabled(s, Enter(p)) <==> At(s, p, Outside) && s.sessions[p].todo != [])
    && (Enabled(s, Receive(p, chunk)) <==>
          At(s, p, Outside) && s.sessions[p].todo == [] && s.sessions[p].parser.status == Reading)
    && (Enabled(s, Acquire(p)) <==> At(s, p, WantLock) && s.holder == Free)
    && (Enabled(s, Push(p)) <==> At(s, p, Holding))
    && (Enabled(s, Release(p)) <==> At(s, p, Pushed))
    && (Enabled(s, Notify(p)) <==> At(s, p, MustNotify))
  }

  predicate WorkerGoesOn(s: State) {
    && (s.worker.Start? || s.worker == Waiting(true) ==> (WorkerEnabled(s) <==> s.holder == Free))
    && (WorkerHolds(s.worker) ==> WorkerEnabled(s))
    && (s.worker == Waiting(false) ==>
          !WorkerEnabled(s) && Enabled(s, Spurious) && Apply(s, Spurious).worker == Waiting(true))
    && (s.worker.Finished? ==> !WorkerEnabled(s))
  }

  lemma SessionsAreFree(s: State, p: nat, chunk: seq<Byte>)
    requires QueueInv(s)
    ensures SessionGoesOn(s, p, chunk)
  {
  }

  lemma WorkerIsFree(s: State)
    requires MutexInv(s) && QueueInv(s)
    ensures WorkerGoesOn(s)
  {
  }

  /** The step with which the worker leaves its loop finds an empty queue: all that was posted was handled. */
  lemma FinishesDrained(steps: seq<Step>, last: Step)
    requires Legal(INITIAL, steps) && Enabled(Run(INITIAL, steps), last)
    requires !Run(INITIAL, steps).worker.Finished? && Apply(Run(INITIAL, steps), last).worker.Finished?
    ensures var s := Apply(Run(INITIAL, steps), last); s.queue == [] && s.handled == s.posted && s.stop
  {
    InitialInv();
    RunKeepsInv(INITIAL, steps);
    StopSeen(INITIAL, steps);
    LastStep(Run(INITIAL, steps), last);
  }

  lemma LastStep(s: State, last: Step)
    requires QueueInv(s) && LogInv(s) && DrainInv(s) && Enabled(s, last)
    requires !s.worker.Finished? && Apply(s, last).worker.Finished?
    ensures var t := Apply(s, last); t.queue == [] && t.handled == t.posted && t.stop
  {
    assert last == Work && s.worker == TestDrained && s.queue == [];
    assert s.handled + [] == s.handled;
  }

  ghost predicate DrainInv(s: State) {
    (|| s.worker.TestDrained?
     || (s.worker.Lookup? && s.worker.draining)
     || (s.worker.Callback? && s.worker.draining)
     || (s.worker.Pop? && s.worker.draining)) ==> s.stop
  }

  lemma {:induction false} StopSeen(s: State, steps: seq<Step>)
    requires DrainInv(s) && Legal(s, steps)
    ensures DrainInv(Run(s, steps))
    decreases |steps|
  {
    if steps != [] {
      assert DrainInv(Apply(s, steps[0]));
      StopSeen(Apply(s, steps[0]), steps[1..]);
    }
  }

  /** Distance of the front message from being handled: what the worker has to do, and a session in the lock. */
  function Rank(s: State): nat {
    WorkerRank(s.worker) +
    if s.holder.By? && s.holder.p in s.sessions then
      (if s.sessions[s.holder.p].pc == Holding then 2 else 1)
    else 0
  }

  function WorkerRank(w: WorkerPc): (r: nat)
    ensures r <= 9
  {
    match w
    case Waiting(woken) => if woken then 8 else 9
    case Start => 8
    case Check => 7
    case TestStop => 6
    case TestDrained => 5
    case Lookup(_) => 4
    case Callback(_) => 3
    case Pop(_, _) => 2
    case _ => 0
  }

  /** The steps of threads that are already inside: the worker's own, and those of sessions past the lock.
      Spurious wake-ups, new connections and shutdown are not among them. */
  predicate Inside(step: Step) {
    step.Work? || step.Push? || step.Release? || step.Notify?
  }

  predicate AllInside(steps: seq<Step>) {
    forall i :: 0 <= i < |steps| ==> Inside(steps[i])
  }

  /** `step` can be taken inside and brings the worker closer to the front of the queue. */
  predicate Closer(s: State, step: Step) {
    && Enabled(s, step) && Inside(step)
    && var t := Apply(s, step);
       Rank(t) < Rank(s) && t.queue != [] && !t.worker.Finished? && t.handled == s.handled
  }

  lemma HolderCloser(s: State) returns (step: Step)
    requires MutexInv(s) && QueueInv(s) && s.queue != [] && !s.worker.Finished? && s.holder.By?
    ensures Closer(s, step)
  {
    var p := s.holder.p;
    step := if s.sessions[p].pc == Holding then Push(p) else Release(p);
  }

  lemma WaiterCloser(s: State) returns (step: Step)
    requires MutexInv(s) && WakeInv(s) && s.queue != [] && !s.holder.By? && s.worker == Waiting(false)
    ensures Closer(s, step)
  {
    var p :| At(s, p, MustNotify) || (At(s, p, Pushed) && |s.queue| == 1);
    assert s.sessions[p].pc == MustNotify;
    step := Notify(p);
  }

  lemma WorkerCloser(s: State)
    requires MutexInv(s) && QueueInv(s) && s.queue != [] && !s.worker.Finished? && !s.worker.Pop?
    requires !s.holder.By? && s.worker != Waiting(false)
    ensures Closer(s, Work)
  {
  }

  lemma TowardsFront(s: State) returns (step: Step)
    requires Inv(s) && s.queue != [] && !s.worker.Finished? && !s.worker.Pop?
    ensures Closer(s, step)
  {
    if s.holder.By? {
      step := HolderCloser(s);
    } else if s.worker == Waiting(false) {
      step := WaiterCloser(s);
    } else {
      WorkerCloser(s);
      step := Work;
    }
  }

  /** Nothing can get stuck: while a message is queued and the worker has not finished, at most eleven steps of
      threads already inside lead to the next message being handled. */
  lemma {:induction false} Progress(s: State) returns (steps: seq<Step>)
    requires Inv(s) && s.queue != [] && !s.worker.Finished?
    ensures Legal(s, steps) && AllInside(steps) && |steps| <= Rank(s) <= 11
    ensures s.handled + [s.queue[0]] == Run(s, steps).handled
    decreases Rank(s)
  {
    if s.worker.Pop? {
      steps := [Work];
      RunFrom(s, Work, [], steps);
    } else {
      var step := TowardsFront(s);
      StepKeepsInv(s, step);
      StepKeepsFront(s, step);
      var rest := Progress(Apply(s, step));
      steps := [step] + rest;
      RunFrom(s, step, rest, steps);
    }
  }

  lemma RunFrom(s: State, step: Step, rest: seq<Step>, steps: seq<Step>)
    requires steps == [step] + rest && Enabled(s, step) && Legal(Apply(s, step), rest)
    ensures Legal(s, steps) && Run(s, steps) == Run(Apply(s, step), rest)
  {
    assert steps[1..] == rest;
  }

  // ---------- shutdown ----------

  /** What is left until the worker has drained the queue and finished, once stop is set. */
  function LeftToStop(s: State): nat {
    12 * (|s.queue| + if s.holder.By? && s.holder.p in s.sessions && s.sessions[s.holder.p].pc == Holding then 1 else 0)
    + Rank(s)
  }

  /** The worker is awake, or about to be: not asleep and not on its way there. */
  predicate Awake(w: WorkerPc) {
    w != AboutToWait && w != Waiting(false)
  }

  lemma StopStep(s: State) returns (step: Step)
    requires Inv(s) && s.stop && Awake(s.worker) && !s.worker.Finished?
    ensures Enabled(s, step) && Inside(step)
    ensures var t := Apply(s, step); LeftToStop(t) < LeftToStop(s) && t.stop && Awake(t.worker)
  {
    if s.holder.By? {
      var p := s.holder.p;
      step := if s.sessions[p].pc == Holding then Push(p) else Release(p);
    } else {
      WorkStops(s);
      step := Work;
    }
  }

  lemma WorkStops(s: State)
    requires MutexInv(s) && QueueInv(s) && s.stop && Awake(s.worker) && !s.worker.Finished? && !s.holder.By?
    ensures WorkerEnabled(s)
    ensures var t := WorkerStep(s); LeftToStop(t) < LeftToStop(s) && t.stop && Awake(t.worker)
  {
  }

  lemma {:induction false} StopsFrom(s: State) returns (steps: seq<Step>)
    requires Inv(s) && s.stop && Awake(s.worker)
    ensures Legal(s, steps) && AllInside(steps) && |steps| <= LeftToStop(s)
    ensures Run(s, steps).worker.Finished?
    decreases LeftToStop(s)
  {
    if s.worker.Finished? {
      steps := [];
    } else {
      var step := StopStep(s);
      StepKeepsInv(s, step);
      var rest := StopsFrom(Apply(s, step));
      steps := [step] + rest;
      RunFrom(s, step, rest, steps);
    }
  }

  /** The destructor: stop is set, without the lock, and one notification follows. */
  function Stopped(s: State): State {
    Apply(Apply(s, SetStop), StopNotify)
  }

  ghost predicate Finishes(s: State, steps: seq<Step>) {
    Legal(s, steps) && AllInside(steps) && Run(s, steps).worker.Finished?
  }

  /** Unless the worker has found the queue empty and stop not set, and is on its way to sleep, it finishes in a
      bounded number of steps of threads already inside.  (FinishesDrained says what has been handled then.) */
  lemma ShutdownCompletes(s: State)
    requires Inv(s) && s.worker != AboutToWait
    ensures exists steps :: Finishes(Stopped(s), steps) && |steps| <= 12 * |s.queue| + 23
  {
    StepKeepsInv(s, SetStop);
    StepKeepsInv(Apply(s, SetStop), StopNotify);
    var steps := StopsFrom(Stopped(s));
    assert Finishes(Stopped(s), steps);
  }

  ghost predicate NotifierExists(s: State) {
    exists p :: At(s, p, MustNotify)
  }

  /** Asleep or about to be, with nothing queued and nobody inside who could change that. */
  ghost predicate SleepsOn(s: State) {
    && s.queue == [] && (s.worker == AboutToWait || s.worker == Waiting(false))
    && forall p :: p in s.sessions ==> s.sessions[p].pc == Outside || s.sessions[p].pc == WantLock
  }

  lemma {:induction false} SleepsForEver(s: State, steps: seq<Step>)
    requires SleepsOn(s) && Legal(s, steps) && AllInside(steps)
    ensures SleepsOn(Run(s, steps))
    decreases |steps|
  {
    if steps != [] {
      assert Inside(steps[0]) && SleepsOn(Apply(s, steps[0]));
      SleepsForEver(Apply(s, steps[0]), steps[1..]);
    }
  }

  lemma WokenBySession(s: State, p: nat) returns (steps: seq<Step>)
    requires Inv(s) && s.stop && s.worker == AboutToWait && At(s, p, MustNotify)
    ensures Finishes(s, steps)
  {
    StepKeepsInv(s, Work);
    var t := Apply(s, Work);
    StepKeepsInv(t, Notify(p));
    var rest := StopsFrom(Apply(t, Notify(p)));
    RunFrom(t, Notify(p), rest, [Notify(p)] + rest);
    steps := [Work] + ([Notify(p)] + rest);
    RunFrom(s, Work, [Notify(p)] + rest, steps);
  }

  /** The flag is set without the lock, so the one notification can come too early.  The threads inside can bring
      the worker to its end exactly if it is not on its way to sleep, or a session still has to notify it;
      otherwise it sleeps on, and the destructor waits for it, until another message is posted or it wakes up
      without cause. */
  lemma ShutdownExactly(s: State)
    requires Inv(s)
    ensures (exists steps :: Finishes(Stopped(s), steps)) <==> s.worker != AboutToWait || NotifierExists(s)
  {
    var t := Stopped(s);
    if s.worker != AboutToWait {
      ShutdownCompletes(s);
    } else if NotifierExists(s) {
      StepKeepsInv(s, SetStop);
      StepKeepsInv(Apply(s, SetStop), StopNotify);
      var p :| At(s, p, MustNotify);
      assert At(t, p, MustNotify);
      var steps := WokenBySession(t, p);
    } else {
      assert SleepsOn(t) by {
        assert forall p :: p in t.sessions ==> !At(s, p, MustNotify) && t.sessions[p] == s.sessions[p];
      }
      forall steps | Legal(t, steps) && AllInside(steps)
        ensures !Finishes(t, steps)
      {
        SleepsForEver(t, steps);
      }
    }
  }

  /** It can happen at once: the worker takes two steps, and then the server is shut down. */
  lemma ShutdownMissed(steps: seq<Step>)
    requires steps == [Work, Work]
    ensures Legal(INITIAL, steps)
    ensures !exists more :: Finishes(Stopped(Run(INITIAL, steps)), more)
  {
    var none: seq<Step> := [];
    var s := Apply(INITIAL, Work);
    RunFrom(s, Work, none, [Work]);
    RunFrom(INITIAL, Work, [Work], steps);
    InitialInv();
    RunKeepsInv(INITIAL, steps);
    ShutdownExactly(Run(INITIAL, steps));
  }

  /** The worker has seen stop and keeps the lock to itself. */
  predicate Drains(w: WorkerPc) {
    || w == TestStop || w == TestDrained || w == Lookup(true) || w == Callback(true)
    || w == Pop(true, true) || w == Pop(true, false)
  }

  /** All of `all` is posted and nothing else comes in, or it has all been handled. */
  ghost predicate Draining(s: State, all: seq<Node>) {
    || (s.stop && s.holder == Worker && Drains(s.worker) && s.posted == all)
    || (s.worker.Finished? && s.handled == all)
  }

  /** From the moment the worker finds stop set no session gets the lock any more until the worker has finished,
      and then it has handled exactly what was posted at that moment. */
  lemma {:induction false} DrainsAlone(s: State, steps: seq<Step>, all: seq<Node>)
    requires Inv(s) && Draining(s, all) && Legal(s, steps)
    ensures Draining(Run(s, steps), all)
    decreases |steps|
  {
    if steps != [] {
      StepKeepsInv(s, steps[0]);
      DrainStep(s, steps[0], all);
      DrainsAlone(Apply(s, steps[0]), steps[1..], all);
    }
  }

  lemma DrainStep(s: State, step: Step, all: seq<Node>)
    requires Inv(s) && Draining(s, all) && Enabled(s, step)
    ensures Draining(Apply(s, step), all)
  {
    if s.worker == TestDrained && s.queue == [] {
      assert s.handled + [] == s.handled;
    }
  }

  // ---------- the lock between two messages ----------

  /** Steps until whoever holds the lock lets it go. */
  function ToFree(s: State): nat {
    match s.holder
    case Free => 0
    case By(p) => if At(s, p, Holding) then 2 else 1
    case Worker =>
      match s.worker
      case Check => 5
      case TestStop => 4
      case Lookup(_) => 3
      case Callback(_) => 2
      case _ => 1
  }

  /** Before shutdown the lock comes free again after at most five steps of its holder, and the worker handles at
      most one message meanwhile: no session has to wait for the whole queue. */
  lemma {:induction false} LockComesFree(s: State) returns (steps: seq<Step>)
    requires Inv(s) && DrainInv(s) && !s.stop
    ensures Legal(s, steps) && AllInside(steps) && |steps| <= ToFree(s) <= 5
    ensures Run(s, steps).holder == Free && |Run(s, steps).handled| <= |s.handled| + 1
    decreases ToFree(s)
  {
    if s.holder == Free {
      steps := [];
    } else {
      var step := HolderStep(s);
      StepKeepsInv(s, step);
      var t := Apply(s, step);
      var rest := LockComesFree(t);
      steps := [step] + rest;
      RunFrom(s, step, rest, steps);
      if t.holder == Free {
        assert rest == [] && Run(t, rest) == t;
      }
    }
  }

  lemma HolderStep(s: State) returns (step: Step)
    requires Inv(s) && DrainInv(s) && !s.stop && s.holder != Free
    ensures Enabled(s, step) && Inside(step)
    ensures var t := Apply(s, step);
            && ToFree(t) < ToFree(s) && DrainInv(t) && !t.stop
            && (t.handled == s.handled || (t.holder == Free && |t.handled| == |s.handled| + 1))
  {
    if s.holder.By? {
      step := if s.sessions[s.holder.p].pc == Holding then Push(s.holder.p) else Release(s.holder.p);
    } else {
      step := Work;
    }
  }

  lemma StepKeepsFront(s: State, step: Step)
    requires Enabled(s, step) && s.queue != [] && !s.worker.Pop?
    ensures Apply(s, step).queue != [] && Apply(s, step).queue[0] == s.queue[0]
  {
  }

  lemma InitialInv()
    ensures Inv(INITIAL) && DrainInv(INITIAL)
  {
  }

  lemma StepKeepsInv(s: State, step: Step)
    requires Inv(s) && Enabled(s, step)
    ensures Inv(Apply(s, step))
  {
    StepMutex(s, step);
    StepQueue(s, step);
    StepWake(s, step);
    StepLog(s, step);
    StepSession(s, step);
  }
}

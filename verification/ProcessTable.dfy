/** The table of process heartbeats in shared memory and the semaphore that guards claims.  Each access to
    shared state is a step of its own, so that any number of processes can come between. */
module ProcessTable {
  const MAXNUMP := 1000

  /** A record; `info` stands for time-out and name.  Pid 0 marks a free record. */
  datatype Rec = Rec(pid: nat, info: int, atime: int)

  const FREE_RECORD := Rec(0, 0, 0)

  /** `ready` once SETVAL has been done. */
  datatype Sem = Absent | Present(value: int, ready: bool)

  /** Where a process stands: creating or getting the semaphore, scanning without the lock for its own pid,
      waiting in P, searching with the lock for a free record, writing, before V, and after. */
  datatype Pc = Get | Create | GetAgain | SetVal | Scan(i: nat) | WantLock | Search(j: nat) | Write | Unlock
              | Registered | Full | Failed

  /** `beat` is the time of the last heartbeat; the first is that of the beginning of the scan. */
  datatype Proc = Proc(pc: Pc, pos: int, info: int, beat: int)

  datatype State = State(sem: Sem, slots: Table, procs: map<nat, Proc>)

  type Table = t: seq<Rec> | |t| == MAXNUMP witness seq(MAXNUMP, _ => FREE_RECORD)

  const INITIAL := State(Absent, seq(MAXNUMP, _ => FREE_RECORD), map[])

  datatype Step =
    | Spawn(info: int) | Advance(now: int) | Beat(now: int) | Exit | Crash

  predicate HoldsLock(pc: Pc) {
    pc.Search? || pc == Write || pc == Unlock || pc == Full
  }

  predicate Outcome(pc: Pc) {
    pc == Registered || pc == Failed
  }

  predicate Enabled(s: State, p: nat, step: Step) {
    match step
    case Spawn(_) => p > 0 && p !in s.procs
    case Advance(_) =>
      && p in s.procs && s.procs[p].pc !in {Registered, Failed}
      && (s.procs[p].pc == WantLock ==> s.sem.Present? && s.sem.value > 0)
      && (s.procs[p].pc == Write ==> 0 <= s.procs[p].pos < MAXNUMP)
      && (HoldsLock(s.procs[p].pc) ==> s.sem.Present?)
    case Beat(_) => p in s.procs && s.procs[p].pc == Registered && 0 <= s.procs[p].pos < MAXNUMP
    case Exit => p in s.procs && (s.procs[p].pc == Registered || s.procs[p].pc == Failed) && s.procs[p].pos < MAXNUMP
    case Crash => p in s.procs && (HoldsLock(s.procs[p].pc) ==> s.sem.Present?)
  }

  function Set(s: State, p: nat, x: Proc): State {
    s.(procs := s.procs[p := x])
  }

  function Apply(s: State, p: nat, step: Step): State
    requires Enabled(s, p, step)
  {
    match step
    case Spawn(info) => Set(s, p, Proc(Get, -1, info, 0))
    case Advance(now) => AdvanceStep(s, p, now)
    case Beat(now) =>
      var x := s.procs[p];
      Set(s.(slots := s.slots[x.pos := s.slots[x.pos].(atime := now)]), p, x.(beat := now))
    case Exit =>
      var x := s.procs[p];
      s.(slots := if x.pos < 0 then s.slots else s.slots[x.pos := FREE_RECORD], procs := s.procs - {p})
    case Crash =>
      // the operating system takes back what the process did to the semaphore; its record stays
      s.(sem := if HoldsLock(s.procs[p].pc) then s.sem.(value := s.sem.value + 1) else s.sem, procs := s.procs - {p})
  }

  /** The next line of AddPInfo (and of the semaphore's init inside it). */
  function AdvanceStep(s: State, p: nat, now: int): State
    requires Enabled(s, p, Advance(now))
  {
    var x := s.procs[p];
    match x.pc
    case Get => Set(s, p, if s.sem.Present? then x.(pc := Scan(0), beat := now) else x.(pc := Create))
    case Create =>
      if s.sem.Present? then Set(s, p, x.(pc := GetAgain))
      else Set(s.(sem := Present(0, false)), p, x.(pc := SetVal))
    case GetAgain => Set(s, p, if s.sem.Present? then x.(pc := Scan(0), beat := now) else x.(pc := Failed))
    case SetVal => Set(s.(sem := Present(1, true)), p, x.(pc := Scan(0), beat := now))
    case Scan(i) =>
      if i >= MAXNUMP then Set(s, p, x.(pc := WantLock))
      else if s.slots[i].pid == p then Set(s, p, x.(pc := WantLock, pos := i))
      else Set(s, p, x.(pc := Scan(i + 1)))
    case WantLock =>
      Set(s.(sem := s.sem.(value := s.sem.value - 1)), p, x.(pc := if x.pos == -1 then Search(0) else Write))
    case Search(j) =>
      if j >= MAXNUMP then Set(s, p, x.(pc := Full))
      else if s.slots[j].pid == 0 then Set(s, p, x.(pc := Write, pos := j))
      else Set(s, p, x.(pc := Search(j + 1)))
    case Write => Set(s.(slots := s.slots[x.pos := Rec(p, x.info, x.beat)]), p, x.(pc := Unlock))
    case Unlock => Set(s.(sem := s.sem.(value := s.sem.value + 1)), p, x.(pc := Registered))
    case Full => Set(s.(sem := s.sem.(value := s.sem.value + 1)), p, x.(pc := Failed))
    case _ => s
  }

  // ---------- the semaphore ----------

  /** Nobody is past P before SETVAL; afterwards the value and the process past P make one. */
  ghost predicate SemInv(s: State) {
    SemCore(s) && (s.sem == Present(0, true) ==> HolderExists(s))
  }

  ghost predicate SemCore(s: State) {
    && (forall p :: p in s.procs && s.sem.Absent? ==> s.procs[p].pc == Get || s.procs[p].pc == Create)
    && (forall p :: p in s.procs && HoldsLock(s.procs[p].pc) ==> s.sem == Present(0, true))
    && (forall p, q :: p in s.procs && q in s.procs && HoldsLock(s.procs[p].pc) && HoldsLock(s.procs[q].pc) ==> p == q)
    && (forall p :: p in s.procs && s.procs[p].pc == SetVal ==> s.sem == Present(0, false))
    && (forall p :: p in s.procs && Outcome(s.procs[p].pc) ==> s.sem.Present? && s.sem.ready)
    && (forall p, q :: p in s.procs && q in s.procs && s.procs[p].pc == SetVal && s.procs[q].pc == SetVal ==> p == q)
    && (s.sem.Present? ==> s.sem.value == 0 || (s.sem.value == 1 && s.sem.ready))
  }

  // ---------- the table ----------

  ghost predicate Nowhere(slots: Table, p: nat) {
    forall i :: 0 <= i < MAXNUMP ==> slots[i].pid != p
  }

  ghost predicate At(slots: Table, i: int, pid: nat) {
    0 <= i < MAXNUMP && slots[i].pid == pid
  }

  /** What a process may rely on at each point, although everybody else goes on working on the table. */
  ghost predicate Claim(slots: Table, p: nat, x: Proc) {
    match x.pc
    case Scan(i) => x.pos == -1 && i <= MAXNUMP && forall k :: 0 <= k < i ==> slots[k].pid != p
    case WantLock => if x.pos == -1 then Nowhere(slots, p) else At(slots, x.pos, p)
    case Search(_) => x.pos == -1 && Nowhere(slots, p)
    case Full => x.pos == -1 && Nowhere(slots, p)
    case Failed => x.pos == -1
    case Write => At(slots, x.pos, p) || (At(slots, x.pos, 0) && Nowhere(slots, p))
    case Unlock => At(slots, x.pos, p) && slots[x.pos] == Rec(p, x.info, x.beat)
    case Registered => At(slots, x.pos, p) && slots[x.pos] == Rec(p, x.info, x.beat)
    case _ => x.pos == -1
  }

  ghost predicate OnePerPid(slots: Table) {
    forall i, j :: 0 <= i < j < MAXNUMP && slots[i].pid == slots[j].pid ==> slots[i].pid == 0
  }

  ghost predicate TableInv(s: State) {
    && 0 !in s.procs
    && OnePerPid(s.slots)
    && forall p :: p in s.procs ==> Claim(s.slots, p, s.procs[p])
  }

  ghost predicate Inv(s: State) {
    SemInv(s) && TableInv(s)
  }

  ghost predicate HolderExists(s: State) {
    exists p :: p in s.procs && HoldsLock(s.procs[p].pc)
  }

  lemma StepSemCore(s: State, p: nat, step: Step)
    requires SemCore(s) && Enabled(s, p, step)
    ensures SemCore(Apply(s, p, step))
  {
    match step
    case Advance(now) =>
      if HoldsLock(s.procs[p].pc) || s.procs[p].pc == WantLock {
        StepSemLocking(s, p, now);
      } else {
        StepSemSetup(s, p, now);
      }
    case _ =>
  }

  lemma StepSemLocking(s: State, p: nat, now: int)
    requires SemCore(s) && Enabled(s, p, Advance(now)) && (HoldsLock(s.procs[p].pc) || s.procs[p].pc == WantLock)
    ensures SemCore(AdvanceStep(s, p, now))
  {
  }

  lemma StepSemSetup(s: State, p: nat, now: int)
    requires SemCore(s) && Enabled(s, p, Advance(now)) && !HoldsLock(s.procs[p].pc) && s.procs[p].pc != WantLock
    ensures SemCore(AdvanceStep(s, p, now))
  {
    match s.procs[p].pc
    case Create => SemCreate(s, p, now);
    case SetVal => SemSetVal(s, p, now);
    case _ => SemUntouched(s, p, now);
  }

  lemma SemCreate(s: State, p: nat, now: int)
    requires SemCore(s) && Enabled(s, p, Advance(now)) && s.procs[p].pc == Create
    ensures SemCore(AdvanceStep(s, p, now))
  {
    var t := AdvanceStep(s, p, now);
    assert forall q :: q in t.procs && q != p ==> t.procs[q] == s.procs[q];
  }

  lemma SemSetVal(s: State, p: nat, now: int)
    requires SemCore(s) && Enabled(s, p, Advance(now)) && s.procs[p].pc == SetVal
    ensures SemCore(AdvanceStep(s, p, now))
  {
    var t := AdvanceStep(s, p, now);
    assert forall q :: q in t.procs && q != p ==> t.procs[q] == s.procs[q];
  }

  lemma SemUntouched(s: State, p: nat, now: int)
    requires SemCore(s) && Enabled(s, p, Advance(now))
    requires s.procs[p].pc == Get || s.procs[p].pc == GetAgain || s.procs[p].pc.Scan?
    ensures SemCore(AdvanceStep(s, p, now))
  {
    var x := AdvanceStep(s, p, now).procs[p];
    assert AdvanceStep(s, p, now) == Set(s, p, x);
    SemMoves(s, p, x);
  }

  lemma SemMoves(s: State, p: nat, x: Proc)
    requires SemCore(s) && p in s.procs && s.procs[p].pc != SetVal && !HoldsLock(s.procs[p].pc)
    requires !HoldsLock(x.pc) && x.pc != SetVal && !Outcome(x.pc)
    requires s.sem.Absent? ==> x.pc == Get || x.pc == Create
    ensures SemCore(Set(s, p, x))
  {
    var t := Set(s, p, x);
    assert forall q :: q in t.procs && q != p ==> t.procs[q] == s.procs[q];
  }

  lemma StepSem(s: State, p: nat, step: Step)
    requires SemInv(s) && Enabled(s, p, step)
    ensures SemInv(Apply(s, p, step))
  {
    StepSemCore(s, p, step);
    var t := Apply(s, p, step);
    if t.sem == Present(0, true) {
      if s.sem == Present(0, true) {
        var q :| q in s.procs && HoldsLock(s.procs[q].pc);
        assert q in t.procs && HoldsLock(t.procs[q].pc);
      } else {
        assert p in t.procs && HoldsLock(t.procs[p].pc);
      }
    }
  }

  lemma StepTable(s: State, p: nat, step: Step)
    requires SemInv(s) && TableInv(s) && Enabled(s, p, step)
    ensures TableInv(Apply(s, p, step))
  {
    match step
    case Advance(now) =>
      if s.procs[p].pc == Write {
        StepWrite(s, p, now);
      } else {
        StepAdvance(s, p, now);
      }
    case Beat(now) => StepBeat(s, p, now);
    case Exit => StepExit(s, p);
    case _ =>
      var t := Apply(s, p, step);
      forall q | q in t.procs
        ensures Claim(t.slots, q, t.procs[q])
      {
        assert q in s.procs ==> Claim(s.slots, q, s.procs[q]);
      }
  }

  lemma StepWrite(s: State, p: nat, now: int)
    requires SemInv(s) && TableInv(s) && Enabled(s, p, Advance(now)) && s.procs[p].pc == Write
    ensures TableInv(Apply(s, p, Advance(now)))
  {
    var t := Apply(s, p, Advance(now));
    assert Claim(s.slots, p, s.procs[p]);
    forall q | q in t.procs
      ensures Claim(t.slots, q, t.procs[q])
    {
      assert q != p ==> Claim(s.slots, q, s.procs[q]);
    }
  }

  lemma StepAdvance(s: State, p: nat, now: int)
    requires SemInv(s) && TableInv(s) && Enabled(s, p, Advance(now)) && s.procs[p].pc != Write
    ensures TableInv(Apply(s, p, Advance(now)))
  {
    var t := Apply(s, p, Advance(now));
    OwnClaimAdvances(s, p, now);
    forall q | q in t.procs && q != p
      ensures Claim(t.slots, q, t.procs[q])
    {
      assert Claim(s.slots, q, s.procs[q]);
    }
  }

  lemma OwnClaimAdvances(s: State, p: nat, now: int)
    requires SemInv(s) && TableInv(s) && Enabled(s, p, Advance(now)) && s.procs[p].pc != Write
    ensures var t := AdvanceStep(s, p, now); t.slots == s.slots && Claim(t.slots, p, t.procs[p])
  {
    assert Claim(s.slots, p, s.procs[p]);
  }

  lemma StepBeat(s: State, p: nat, now: int)
    requires TableInv(s) && Enabled(s, p, Beat(now))
    ensures TableInv(Apply(s, p, Beat(now)))
  {
    var t := Apply(s, p, Beat(now));
    assert Claim(s.slots, p, s.procs[p]);
    forall q | q in t.procs
      ensures Claim(t.slots, q, t.procs[q])
    {
      assert q != p ==> Claim(s.slots, q, s.procs[q]);
    }
  }

  lemma StepExit(s: State, p: nat)
    requires TableInv(s) && Enabled(s, p, Exit)
    ensures TableInv(Apply(s, p, Exit))
  {
    var t := Apply(s, p, Exit);
    assert Claim(s.slots, p, s.procs[p]);
    forall q | q in t.procs
      ensures Claim(t.slots, q, t.procs[q])
    {
      assert Claim(s.slots, q, s.procs[q]);
    }
  }

  // ---------- every run ----------

  datatype Event = Event(p: nat, step: Step)

  predicate Legal(s: State, run: seq<Event>)
    decreases |run|
  {
    run == [] || (Enabled(s, run[0].p, run[0].step) && Legal(Apply(s, run[0].p, run[0].step), run[1..]))
  }

  function Run(s: State, run: seq<Event>): State
    requires Legal(s, run)
    decreases |run|
  {
    if run == [] then s else Run(Apply(s, run[0].p, run[0].step), run[1..])
  }

  lemma {:induction false} RunKeepsInv(s: State, run: seq<Event>)
    requires Inv(s) && Legal(s, run)
    ensures Inv(Run(s, run))
    decreases |run|
  {
    if run != [] {
      StepSem(s, run[0].p, run[0].step);
      StepTable(s, run[0].p, run[0].step);
      RunKeepsInv(Apply(s, run[0].p, run[0].step), run[1..]);
    }
  }

  /** In every reachable state each live registered process owns the record at its position, with what it
      wrote and its last heartbeat in it, and no other record carries its pid. */
  lemma OwnsItsRecord(run: seq<Event>, p: nat)
    requires Legal(INITIAL, run) && p in Run(INITIAL, run).procs && Run(INITIAL, run).procs[p].pc == Registered
    ensures var s := Run(INITIAL, run);
            var x := s.procs[p];
            && 0 <= x.pos < 1000 && s.slots[x.pos] == Rec(p, x.info, x.beat)
            && forall i :: 0 <= i < MAXNUMP && s.slots[i].pid == p ==> i == x.pos
  {
    RunKeepsInv(INITIAL, run);
    var s := Run(INITIAL, run);
    assert Claim(s.slots, p, s.procs[p]);
  }

  /** In every reachable state, crashes and reused pids included, a pid stands in at most one record. */
  lemma NoPidTwice(run: seq<Event>, i: nat, j: nat)
    requires Legal(INITIAL, run) && i < j < MAXNUMP
    ensures var s := Run(INITIAL, run); s.slots[i].pid == s.slots[j].pid ==> s.slots[i].pid == 0
  {
    RunKeepsInv(INITIAL, run);
  }

  function Holders(s: State): set<nat> {
    set p | p in s.procs && HoldsLock(s.procs[p].pc)
  }

  /** No P succeeds before SETVAL; from then on value plus holders is one. */
  lemma ValuePlusHolders(run: seq<Event>)
    requires Legal(INITIAL, run)
    ensures var s := Run(INITIAL, run);
            if s.sem.Present? && s.sem.ready then s.sem.value + |Holders(s)| == 1
            else Holders(s) == {} && (s.sem.Present? ==> s.sem.value == 0)
  {
    RunKeepsInv(INITIAL, run);
    var s := Run(INITIAL, run);
    if s.sem.Present? && s.sem.ready && s.sem.value == 0 {
      var p :| p in s.procs && HoldsLock(s.procs[p].pc);
      assert Holders(s) == {p};
    } else {
      assert Holders(s) == {};
    }
  }

  /** A heartbeat touches the time of the process's own record and nothing else. */
  lemma BeatTouchesOwnRecord(run: seq<Event>, p: nat, now: int, i: nat)
    requires Legal(INITIAL, run) && Enabled(Run(INITIAL, run), p, Beat(now)) && i < MAXNUMP
    ensures var s := Run(INITIAL, run);
            var t := Apply(s, p, Beat(now));
            t.slots[i] == if s.slots[i].pid == p then s.slots[i].(atime := now) else s.slots[i]
  {
    OwnsItsRecord(run, p);
  }

  /** A process that leaves takes its record with it and no one else's. */
  lemma ExitFreesOwnRecord(run: seq<Event>, p: nat, i: nat)
    requires Legal(INITIAL, run) && Enabled(Run(INITIAL, run), p, Exit) && i < MAXNUMP
    requires Run(INITIAL, run).procs[p].pc == Registered
    ensures var s := Run(INITIAL, run);
            var t := Apply(s, p, Exit);
            t.slots[i] == if s.slots[i].pid == p then FREE_RECORD else s.slots[i]
  {
    OwnsItsRecord(run, p);
  }

  /** Nothing but the lock can hold up a process, and it does: positions are always within the table and the
      semaphore is always there when it is needed, so the next line of a registration, a start, a heartbeat, an
      exit and a crash can take place exactly where the program has them. */
  lemma OnlyTheLockBlocks(run: seq<Event>, p: nat, info: int, now: int)
    requires Legal(INITIAL, run)
    ensures GoesOn(Run(INITIAL, run), p, info, now)
  {
    RunKeepsInv(INITIAL, run);
    IsFree(Run(INITIAL, run), p, info, now);
  }

  predicate GoesOn(s: State, p: nat, info: int, now: int) {
    && (Enabled(s, p, Spawn(info)) <==> p > 0 && p !in s.procs)
    && (Enabled(s, p, Crash) <==> p in s.procs)
    && (p in s.procs ==>
          var pc := s.procs[p].pc;
          && (Enabled(s, p, Advance(now)) <==>
                pc !in {Registered, Failed} && (pc == WantLock ==> s.sem.Present? && s.sem.value > 0))
          && (Enabled(s, p, Beat(now)) <==> pc == Registered)
          && (Enabled(s, p, Exit) <==> pc in {Registered, Failed}))
  }

  lemma IsFree(s: State, p: nat, info: int, now: int)
    requires Inv(s)
    ensures GoesOn(s, p, info, now)
  {
    assert p in s.procs ==> Claim(s.slots, p, s.procs[p]);
  }

  // ---------- getting through ----------

  /** Lines a process past P has still to execute, at most, until it is past V. */
  function ToGo(pc: Pc): (n: nat)
    ensures n <= MAXNUMP + 3
  {
    match pc
    case Search(j) => if j < MAXNUMP then MAXNUMP - j + 2 else 2
    case Write => 2
    case Unlock => 1
    case Full => 1
    case _ => 0
  }

  /** `n` lines of process `p`, with nobody else coming between. */
  function Lines(p: nat, n: nat, now: int): (run: seq<Event>)
    ensures |run| == n
  {
    seq(n, _ => Event(p, Advance(now)))
  }

  lemma RunFrom(s: State, e: Event, rest: seq<Event>, run: seq<Event>)
    requires run == [e] + rest && Enabled(s, e.p, e.step) && Legal(Apply(s, e.p, e.step), rest)
    ensures Legal(s, run) && Run(s, run) == Run(Apply(s, e.p, e.step), rest)
  {
    assert run[1..] == rest;
  }

  lemma {:induction false} RunThen(s: State, first: seq<Event>, second: seq<Event>)
    requires Legal(s, first) && Legal(Run(s, first), second)
    ensures Legal(s, first + second) && Run(s, first + second) == Run(Run(s, first), second)
    decreases |first|
  {
    if first == [] {
      assert first + second == second;
    } else {
      RunThen(Apply(s, first[0].p, first[0].step), first[1..], second);
      assert first + second == [first[0]] + (first[1..] + second);
      RunFrom(s, first[0], first[1..] + second, first + second);
    }
  }

  /** One line of the holder. */
  lemma HolderGoesOn(s: State, p: nat, now: int)
    requires Inv(s) && p in s.procs && HoldsLock(s.procs[p].pc)
    ensures Enabled(s, p, Advance(now))
    ensures var t := AdvanceStep(s, p, now);
            && p in t.procs && t.procs - {p} == s.procs - {p}
            && ToGo(t.procs[p].pc) < ToGo(s.procs[p].pc)
            && (if HoldsLock(t.procs[p].pc) then true else Outcome(t.procs[p].pc) && t.sem == Present(1, true))
  {
    assert Claim(s.slots, p, s.procs[p]);
  }

  /** The holder gets past V by its own lines alone, and the semaphore is free again. */
  lemma {:induction false} HolderLeaves(s: State, p: nat, now: int) returns (n: nat)
    requires Inv(s) && p in s.procs && HoldsLock(s.procs[p].pc)
    ensures n <= ToGo(s.procs[p].pc) && Legal(s, Lines(p, n, now))
    ensures var t := Run(s, Lines(p, n, now));
            && Inv(t) && p in t.procs && t.procs - {p} == s.procs - {p}
            && Outcome(t.procs[p].pc) && t.sem == Present(1, true)
    decreases ToGo(s.procs[p].pc)
  {
    HolderGoesOn(s, p, now);
    StepSem(s, p, Advance(now));
    StepTable(s, p, Advance(now));
    var t := AdvanceStep(s, p, now);
    var m := 0;
    if HoldsLock(t.procs[p].pc) {
      m := HolderLeaves(t, p, now);
    }
    n := m + 1;
    assert Lines(p, n, now) == [Event(p, Advance(now))] + Lines(p, m, now);
    RunFrom(s, Event(p, Advance(now)), Lines(p, m, now), Lines(p, n, now));
  }

  predicate OnlyBy(run: seq<Event>, p: nat, q: nat, now: int) {
    forall i :: 0 <= i < |run| ==> (run[i].p == p || run[i].p == q) && run[i].step == Advance(now)
  }

  lemma LineThen(s: State, p: nat, now: int, n: nat)
    requires Enabled(s, p, Advance(now)) && Legal(AdvanceStep(s, p, now), Lines(p, n, now))
    ensures Legal(s, Lines(p, n + 1, now))
    ensures Run(s, Lines(p, n + 1, now)) == Run(AdvanceStep(s, p, now), Lines(p, n, now))
  {
    assert Lines(p, n + 1, now) == [Event(p, Advance(now))] + Lines(p, n, now);
    RunFrom(s, Event(p, Advance(now)), Lines(p, n, now), Lines(p, n + 1, now));
  }

  lemma LinesThen(s: State, p: nat, now: int, n: nat, m: nat)
    requires Legal(s, Lines(p, n, now)) && Legal(Run(s, Lines(p, n, now)), Lines(p, m, now))
    ensures Legal(s, Lines(p, n + m, now))
    ensures Run(s, Lines(p, n + m, now)) == Run(Run(s, Lines(p, n, now)), Lines(p, m, now))
  {
    assert Lines(p, n + m, now) == Lines(p, n, now) + Lines(p, m, now);
    RunThen(s, Lines(p, n, now), Lines(p, m, now));
  }

  // ---------- how a registration ends ----------

  /** The first record from `i` on with that pid, or -1. */
  function FirstFrom(slots: Table, pid: nat, i: nat): (r: int)
    requires i <= MAXNUMP
    ensures r == -1 || (i <= r < MAXNUMP && slots[r].pid == pid)
    ensures forall k :: i <= k < MAXNUMP && (r == -1 || k < r) ==> slots[k].pid != pid
    decreases MAXNUMP - i
  {
    if i == MAXNUMP then -1 else if slots[i].pid == pid then i else FirstFrom(slots, pid, i + 1)
  }

  /** The scan without the lock, undisturbed. */
  lemma {:induction false} ScanEnds(s: State, p: nat, now: int, i: nat) returns (n: nat)
    requires p in s.procs && s.procs[p].pc == Scan(i) && i <= MAXNUMP && s.procs[p].pos == -1
    ensures n <= MAXNUMP - i + 1 && Legal(s, Lines(p, n, now))
    ensures Run(s, Lines(p, n, now)) == Set(s, p, s.procs[p].(pc := WantLock, pos := FirstFrom(s.slots, p, i)))
    decreases MAXNUMP - i
  {
    var t := AdvanceStep(s, p, now);
    var m := 0;
    if i < MAXNUMP && s.slots[i].pid != p {
      m := ScanEnds(t, p, now, i + 1);
    }
    n := m + 1;
    LineThen(s, p, now, m);
  }

  /** The search for a free record under the lock. */
  lemma {:induction false} SearchEnds(s: State, p: nat, now: int, j: nat) returns (n: nat)
    requires p in s.procs && s.procs[p].pc == Search(j) && j <= MAXNUMP && s.sem.Present?
    ensures n <= MAXNUMP - j + 1 && Legal(s, Lines(p, n, now))
    ensures Run(s, Lines(p, n, now)) ==
            var x, free := s.procs[p], FirstFrom(s.slots, 0, j);
            Set(s, p, if free == -1 then x.(pc := Full) else x.(pc := Write, pos := free))
    decreases MAXNUMP - j
  {
    var t := AdvanceStep(s, p, now);
    var m := 0;
    if j < MAXNUMP && s.slots[j].pid != 0 {
      m := SearchEnds(t, p, now, j + 1);
    }
    n := m + 1;
    LineThen(s, p, now, m);
  }

  /** Where a registration ends if nobody comes between: in the process's own stale record, else in the first
      free one, else nowhere. */
  function Registration(s: State, p: nat): State
    requires p in s.procs && -1 <= s.procs[p].pos < MAXNUMP
  {
    var x := s.procs[p];
    var at := if x.pos != -1 then x.pos else FirstFrom(s.slots, 0, 0);
    if at == -1 then Set(s, p, x.(pc := Failed))
    else Set(s.(slots := s.slots[at := Rec(p, x.info, x.beat)]), p, x.(pc := Registered, pos := at))
  }

  /** Writing and V, or V alone when no record was found. */
  lemma LastLines(s: State, p: nat, now: int) returns (n: nat)
    requires p in s.procs && s.sem == Present(0, true)
    requires s.procs[p].pc == Full || (s.procs[p].pc == Write && 0 <= s.procs[p].pos < MAXNUMP)
    ensures n <= 2 && Legal(s, Lines(p, n, now))
    ensures var x := s.procs[p];
            Run(s, Lines(p, n, now)) ==
            if x.pc == Full then Set(s.(sem := Present(1, true)), p, x.(pc := Failed))
            else Set(s.(sem := Present(1, true), slots := s.slots[x.pos := Rec(p, x.info, x.beat)]), p,
                     x.(pc := Registered))
  {
    var t := AdvanceStep(s, p, now);
    if s.procs[p].pc == Full {
      LineThen(s, p, now, 0);
      n := 1;
    } else {
      LineThen(t, p, now, 0);
      LineThen(s, p, now, 1);
      n := 2;
    }
  }

  /** P and the search. */
  lemma FirstLines(s: State, p: nat, now: int) returns (n: nat)
    requires p in s.procs && s.procs[p].pc == WantLock && -1 <= s.procs[p].pos < MAXNUMP
    requires s.sem == Present(1, true)
    ensures n <= MAXNUMP + 2 && Legal(s, Lines(p, n, now))
    ensures var x := s.procs[p];
            var at := if x.pos != -1 then x.pos else FirstFrom(s.slots, 0, 0);
            Run(s, Lines(p, n, now)) ==
            Set(s.(sem := Present(0, true)), p, x.(pc := if at == -1 then Full else Write, pos := at))
  {
    var t := AdvanceStep(s, p, now);
    var m := 0;
    if s.procs[p].pos == -1 {
      m := SearchEnds(t, p, now, 0);
    }
    n := m + 1;
    LineThen(s, p, now, m);
  }

  /** Once P can be passed the process gets to the end of its registration by itself. */
  lemma FreeGetsThrough(s: State, p: nat, now: int) returns (n: nat)
    requires p in s.procs && s.procs[p].pc == WantLock && -1 <= s.procs[p].pos < MAXNUMP
    requires s.sem == Present(1, true)
    ensures n <= MAXNUMP + 4 && Legal(s, Lines(p, n, now))
    ensures Run(s, Lines(p, n, now)) == Registration(s, p)
  {
    var m := FirstLines(s, p, now);
    var t := Run(s, Lines(p, m, now));
    var l := LastLines(t, p, now);
    n := m + l;
    LinesThen(s, p, now, m, l);
    SameState(Run(t, Lines(p, l, now)), Registration(s, p));
  }

  lemma FreeComesOut(s: State, p: nat, now: int) returns (n: nat)
    requires p in s.procs && s.procs[p].pc == WantLock && Claim(s.slots, p, s.procs[p])
    requires s.sem == Present(1, true)
    ensures n <= MAXNUMP + 4 && Through(s, p, Lines(p, n, now))
  {
    n := FreeGetsThrough(s, p, now);
  }

  lemma SameState(s: State, t: State)
    requires s.sem == t.sem && s.slots == t.slots && s.procs == t.procs
    ensures s == t
  {
  }

  /** In every state of the invariant with the lock free: a waiting process that nobody disturbs registers if and
      only if it found its own stale record or some record is free, in that record and no other; otherwise it
      fails and the table is as it was. */
  lemma RegistersExactly(s: State, p: nat, now: int) returns (n: nat)
    requires Inv(s) && p in s.procs && s.procs[p].pc == WantLock && s.sem == Present(1, true)
    ensures n <= MAXNUMP + 4 && Legal(s, Lines(p, n, now)) && p in Run(s, Lines(p, n, now)).procs
    ensures var x, t := s.procs[p], Run(s, Lines(p, n, now));
            var y := t.procs[p];
            && (y.pc == Registered <==> x.pos != -1 || exists i :: 0 <= i < MAXNUMP && s.slots[i].pid == 0)
            && (y.pc == Registered ==> 0 <= y.pos < MAXNUMP && t.slots == s.slots[y.pos := Rec(p, x.info, x.beat)])
            && (y.pc == Registered ==> s.slots[y.pos].pid == if x.pos != -1 then p else 0)
            && (y.pc != Registered ==> y.pc == Failed && t.slots == s.slots)
  {
    assert Claim(s.slots, p, s.procs[p]);
    n := FreeGetsThrough(s, p, now);
  }

  predicate Early(pc: Pc) {
    pc == Get || pc == Create || pc == GetAgain || pc.Scan? || pc == WantLock
  }

  lemma {:induction false} FirstFromSkips(slots: Table, pid: nat, i: nat)
    requires i <= MAXNUMP && forall k :: 0 <= k < i ==> slots[k].pid != pid
    ensures FirstFrom(slots, pid, i) == FirstFrom(slots, pid, 0)
  {
    var a, b := FirstFrom(slots, pid, i), FirstFrom(slots, pid, 0);
    assert a != -1 ==> slots[a].pid == pid;
    assert b != -1 ==> slots[b].pid == pid;
  }

  /** The position a waiting process has is the first record with its pid. */
  lemma FoundOwn(s: State, p: nat)
    requires Inv(s) && p in s.procs && s.procs[p].pc == WantLock
    ensures s.procs[p].pos == FirstFrom(s.slots, p, 0)
  {
    assert Claim(s.slots, p, s.procs[p]);
    var first := FirstFrom(s.slots, p, 0);
    assert first != -1 ==> s.slots[first].pid == p;
  }

  /** Up to P, undisturbed, from wherever the process stands. */
  lemma ComesToWait(s: State, p: nat, now: int) returns (n: nat)
    requires Inv(s) && p in s.procs && Early(s.procs[p].pc) && s.sem.Present?
    ensures n <= MAXNUMP + 3 && Legal(s, Lines(p, n, now))
    ensures Run(s, Lines(p, n, now)) == Set(s, p, s.procs[p].(pc := WantLock, pos := FirstFrom(s.slots, p, 0),
                                                               beat := TimeWritten(s.procs[p], now)))
  {
    assert Claim(s.slots, p, s.procs[p]);
    match s.procs[p].pc
    case WantLock =>
      FoundOwn(s, p);
      n := 0;
      assert Set(s, p, s.procs[p]) == s;
    case Scan(i) =>
      FirstFromSkips(s.slots, p, i);
      n := ScanEnds(s, p, now, i);
    case Create =>
      var t := AdvanceStep(s, p, now);
      n := ScanNext(t, p, now);
      LineThen(s, p, now, n);
      n := n + 1;
    case _ =>
      n := ScanNext(s, p, now);
  }

  lemma ScanNext(s: State, p: nat, now: int) returns (n: nat)
    requires p in s.procs && (s.procs[p].pc == Get || s.procs[p].pc == GetAgain)
    requires s.sem.Present? && s.procs[p].pos == -1
    ensures n <= MAXNUMP + 2 && Legal(s, Lines(p, n, now))
    ensures var own := FirstFrom(s.slots, p, 0);
            Run(s, Lines(p, n, now)) == Set(s, p, s.procs[p].(pc := WantLock, pos := own, beat := now))
  {
    n := ScanEnds(AdvanceStep(s, p, now), p, now, 0);
    LineThen(s, p, now, n);
    n := n + 1;
  }

  /** The time a registration writes: the one taken when the scan began. */
  function TimeWritten(x: Proc, now: int): int {
    if x.pc.Scan? || x.pc == WantLock then x.beat else now
  }

  /** `t` is what should come of `s` when `p` gets to the end of its registration by itself. */
  ghost predicate Settled(s: State, p: nat, now: int, t: State) {
    && p in s.procs && p in t.procs
    && var y := t.procs[p];
       if exists i :: 0 <= i < 1000 && (s.slots[i].pid == p || s.slots[i].pid == 0)
       then y.pc == Registered && InFirstPlace(s.slots, p, y.pos)
            && t.slots == s.slots[y.pos := Rec(p, s.procs[p].info, TimeWritten(s.procs[p], now))]
       else y.pc == Failed && t.slots == s.slots
  }

  /** The first record with the process's own pid if there is one, else the first with none. */
  ghost predicate InFirstPlace(slots: Table, p: nat, pos: int) {
    && 0 <= pos < 1000 && (slots[pos].pid == p || slots[pos].pid == 0)
    && (forall k :: 0 <= k < 1000 && slots[k].pid == p ==> slots[pos].pid == p)
    && (forall k :: 0 <= k < pos ==> slots[k].pid != slots[pos].pid)
  }

  lemma RegistrationSettles(s: State, p: nat, now: int, w: State)
    requires p in s.procs
    requires w == Set(s, p, s.procs[p].(pc := WantLock, pos := FirstFrom(s.slots, p, 0),
                                        beat := TimeWritten(s.procs[p], now)))
    ensures Settled(s, p, now, Registration(w, p))
  {
    var own, none := FirstFrom(s.slots, p, 0), FirstFrom(s.slots, 0, 0);
    var at := if own != -1 then own else none;
    if at != -1 {
      assert s.slots[at].pid == p || s.slots[at].pid == 0;
      assert InFirstPlace(s.slots, p, at);
    }
  }

  /** The same from every point before P: with the lock free, a process that nobody disturbs registers if and only
      if some record carries its own pid or none, in the first with its own if there is one and else in the first
      with none; otherwise it fails and the table is as it was. */
  lemma AnyoneRegistersExactly(s: State, p: nat, now: int) returns (n: nat)
    requires Inv(s) && p in s.procs && Early(s.procs[p].pc) && s.sem == Present(1, true)
    ensures n <= 2 * MAXNUMP + 7 && Legal(s, Lines(p, n, now))
    ensures Settled(s, p, now, Run(s, Lines(p, n, now)))
  {
    var k := ComesToWait(s, p, now);
    var t := Run(s, Lines(p, k, now));
    var m := FreeGetsThrough(t, p, now);
    LinesThen(s, p, now, k, m);
    n := k + m;
    RegistrationSettles(s, p, now, t);
  }

  /** A registration from the scan on, undisturbed. */
  lemma FromScan(s: State, p: nat, now: int) returns (n: nat)
    requires p in s.procs && s.procs[p].pc == Scan(0) && s.procs[p].pos == -1 && s.sem == Present(1, true)
    ensures Legal(s, Lines(p, n, now))
    ensures Run(s, Lines(p, n, now)) ==
            Registration(Set(s, p, s.procs[p].(pc := WantLock, pos := FirstFrom(s.slots, p, 0))), p)
  {
    var k := ScanEnds(s, p, now, 0);
    var t := Run(s, Lines(p, k, now));
    var m := FreeGetsThrough(t, p, now);
    LinesThen(s, p, now, k, m);
    n := k + m;
  }

  /** What becomes of a process that is started and runs its lines undisturbed: it takes the stale record of its
      own pid, else the first free record, and is registered there; with neither it fails. */
  lemma StartedAlone(s: State, p: nat, info: int, now: int) returns (n: nat)
    requires p > 0 && p !in s.procs && s.sem == Present(1, true)
    ensures var run := [Event(p, Spawn(info))] + Lines(p, n, now);
            && Legal(s, run) && p in Run(s, run).procs
            && var t := Run(s, run);
               var stale, free := FirstFrom(s.slots, p, 0), FirstFrom(s.slots, 0, 0);
               var at := if stale != -1 then stale else free;
               if at == -1 then t.procs[p].pc == Failed && t.slots == s.slots
               else t.procs[p] == Proc(Registered, at, info, now) && t.slots == s.slots[at := Rec(p, info, now)]
  {
    var s1 := Apply(s, p, Spawn(info));
    var s2 := AdvanceStep(s1, p, now);
    var m := FromScan(s2, p, now);
    LineThen(s1, p, now, m);
    n := m + 1;
    RunFrom(s, Event(p, Spawn(info)), Lines(p, n, now), [Event(p, Spawn(info))] + Lines(p, n, now));
  }

  /** Creating the semaphore and setting it. */
  lemma SetUp(s: State, p: nat, now: int)
    requires p in s.procs && s.procs[p].pc == Get && s.sem.Absent?
    ensures Legal(s, Lines(p, 3, now))
    ensures Run(s, Lines(p, 3, now)) == Set(s.(sem := Present(1, true)), p, s.procs[p].(pc := Scan(0), beat := now))
  {
    var t := AdvanceStep(s, p, now);
    var u := AdvanceStep(t, p, now);
    LineThen(u, p, now, 0);
    LineThen(t, p, now, 1);
    LineThen(s, p, now, 2);
  }

  /** The first process of all creates the semaphore, sets it and takes the first of the thousand records. */
  lemma FirstProcess(p: nat, info: int, now: int) returns (n: nat)
    requires p > 0
    ensures var run := [Event(p, Spawn(info))] + Lines(p, n, now);
            && Legal(INITIAL, run) && p in Run(INITIAL, run).procs
            && var t := Run(INITIAL, run);
               && t.sem == Present(1, true) && |t.slots| == 1000
               && t.procs[p] == Proc(Registered, 0, info, now) && t.slots[0] == Rec(p, info, now)
               && forall i :: 1 <= i < 1000 ==> t.slots[i].pid == 0
  {
    var s := Apply(INITIAL, p, Spawn(info));
    SetUp(s, p, now);
    n := AllFree(Run(s, Lines(p, 3, now)), p, now);
    LinesThen(s, p, now, 3, n);
    n := n + 3;
    RunFrom(INITIAL, Event(p, Spawn(info)), Lines(p, n, now), [Event(p, Spawn(info))] + Lines(p, n, now));
  }

  lemma AllFree(s: State, p: nat, now: int) returns (n: nat)
    requires p > 0 && p in s.procs && s.procs[p].pc == Scan(0) && s.procs[p].pos == -1 && s.sem == Present(1, true)
    requires forall i :: 0 <= i < MAXNUMP ==> s.slots[i] == FREE_RECORD
    ensures Legal(s, Lines(p, n, now)) && p in Run(s, Lines(p, n, now)).procs
    ensures var t := Run(s, Lines(p, n, now));
            && t.sem == Present(1, true) && t.procs[p] == Proc(Registered, 0, s.procs[p].info, s.procs[p].beat)
            && t.slots == s.slots[0 := Rec(p, s.procs[p].info, s.procs[p].beat)]
  {
    n := FromScan(s, p, now);
    assert FirstFrom(s.slots, p, 0) == -1;
    assert FirstFrom(s.slots, 0, 0) == 0;
  }

  // ---------- what lies behind a state ----------

  lemma {:induction false} RunLast(s: State, run: seq<Event>)
    requires run != [] && Legal(s, run)
    ensures var front, last := run[..|run| - 1], run[|run| - 1];
            && Legal(s, front) && Enabled(Run(s, front), last.p, last.step)
            && Run(s, run) == Apply(Run(s, front), last.p, last.step)
    decreases |run|
  {
    var front := run[..|run| - 1];
    if |run| > 1 {
      var t := Apply(s, run[0].p, run[0].step);
      RunLast(t, run[1..]);
      assert run[1..][..|run| - 2] == front[1..];
      assert front == [run[0]] + front[1..];
      RunFrom(s, run[0], front[1..], front);
    }
  }

  /** The event does not end `p` and does not start it. */
  predicate StaysFor(e: Event, p: nat) {
    e.p == p ==> e.step.Advance? || e.step.Beat?
  }

  /** The `m`-th event of the run: process `p`, the one still there at the end, looks at record `j` and finds it
      taken. */
  ghost predicate SawTaken(start: State, run: seq<Event>, m: nat, p: nat, j: nat) {
    && m < |run| && run[m].p == p && run[m].step.Advance?
    && Legal(start, run[..m]) && LooksAtTaken(Run(start, run[..m]), p, j)
    && forall i :: m < i < |run| ==> StaysFor(run[i], p)
  }

  ghost predicate LooksAtTaken(s: State, p: nat, j: nat) {
    p in s.procs && s.procs[p].pc == Search(j) && j < MAXNUMP && s.slots[j].pid != 0
  }

  /** The records behind a process that is searching: all those before the one it looks at. */
  function Behind(pc: Pc): nat {
    match pc
    case Search(j) => j
    case Full => MAXNUMP
    case _ => 0
  }

  ghost predicate FoundTaken(start: State, run: seq<Event>, p: nat, j: nat) {
    exists m :: SawTaken(start, run, m, p, j)
  }

  lemma SawTakenStays(start: State, run: seq<Event>, more: Event, m: nat, p: nat, j: nat)
    requires SawTaken(start, run, m, p, j) && StaysFor(more, p)
    ensures SawTaken(start, run + [more], m, p, j)
  {
    assert (run + [more])[..m] == run[..m];
  }

  lemma {:induction false} SearchedBehind(start: State, run: seq<Event>, p: nat)
    requires start.procs == map[] && Legal(start, run) && p in Run(start, run).procs
    ensures Behind(Run(start, run).procs[p].pc) <= MAXNUMP
    ensures forall j: nat :: j < Behind(Run(start, run).procs[p].pc) ==> FoundTaken(start, run, p, j)
    decreases |run|
  {
    if run != [] {
      RunLast(start, run);
      var front, last := run[..|run| - 1], run[|run| - 1];
      var s := Run(start, front);
      assert run == front + [last];
      if p in s.procs {
        SearchedBehind(start, front, p);
        forall j: nat | j < Behind(Run(start, run).procs[p].pc)
          ensures FoundTaken(start, run, p, j)
        {
          SearchedOne(start, front, last, p, j);
        }
      }
    }
  }

  lemma SearchedNext(s: State, e: Event, p: nat, j: nat)
    requires Enabled(s, e.p, e.step) && p in s.procs && Behind(s.procs[p].pc) <= MAXNUMP
    requires p in Apply(s, e.p, e.step).procs
    requires Behind(s.procs[p].pc) <= j < Behind(Apply(s, e.p, e.step).procs[p].pc)
    ensures e.p == p && e.step.Advance? && LooksAtTaken(s, p, j)
  {
  }

  lemma SearchedOne(start: State, front: seq<Event>, last: Event, p: nat, j: nat)
    requires Legal(start, front) && p in Run(start, front).procs
    requires Enabled(Run(start, front), last.p, last.step)
    requires Behind(Run(start, front).procs[p].pc) <= MAXNUMP
    requires var t := Apply(Run(start, front), last.p, last.step); p in t.procs && j < Behind(t.procs[p].pc)
    requires forall i: nat :: i < Behind(Run(start, front).procs[p].pc) ==> FoundTaken(start, front, p, i)
    ensures FoundTaken(start, front + [last], p, j)
  {
    var s := Run(start, front);
    if j < Behind(s.procs[p].pc) {
      assert FoundTaken(start, front, p, j);
      var m :| SawTaken(start, front, m, p, j);
      assert StaysFor(last, p);
      SawTakenStays(start, front, last, m, p, j);
    } else {
      SearchedNext(s, last, p, j);
      assert (front + [last])[..|front|] == front;
      assert SawTaken(start, front + [last], |front|, p, j);
    }
  }

  /** A process gives up only after it has looked at every record of the table and found each taken. */
  lemma FullOnlyIfTaken(start: State, run: seq<Event>, p: nat, j: nat)
    requires start.procs == map[] && Legal(start, run) && p in Run(start, run).procs
    requires Run(start, run).procs[p].pc == Full && j < 1000
    ensures exists m :: SawTaken(start, run, m, p, j)
  {
    SearchedBehind(start, run, p);
    assert FoundTaken(start, run, p, j);
  }

  predicate NoBeatOf(e: Event, p: nat) {
    e.p == p ==> !e.step.Beat?
  }

  /** The `k`-th event of the run is the start of `p`, and since then it has neither left nor died. */
  ghost predicate StartedAt(run: seq<Event>, k: nat, p: nat, info: int) {
    && k < |run| && run[k] == Event(p, Spawn(info))
    && forall m :: k < m < |run| ==> StaysFor(run[m], p)
  }

  /** What a process writes into its record is what it was started with, in the start that was its last. */
  lemma {:induction false} InfoIsGiven(run: seq<Event>, p: nat) returns (k: nat)
    requires Legal(INITIAL, run) && p in Run(INITIAL, run).procs
    ensures StartedAt(run, k, p, Run(INITIAL, run).procs[p].info)
    decreases |run|
  {
    if run == [] {
      assert false;
    } else {
      RunLast(INITIAL, run);
      var front, last := run[..|run| - 1], run[|run| - 1];
      var s, t := Run(INITIAL, front), Run(INITIAL, run);
      if p in s.procs {
        k := InfoIsGiven(front, p);
        assert t.procs[p].info == s.procs[p].info && StaysFor(last, p);
        assert forall m :: k < m < |front| ==> run[m] == front[m];
      } else {
        k := |run| - 1;
      }
    }
  }

  /** The event is one with which `p` comes to the scan. */
  ghost predicate BeginsScan(s: State, e: Event, p: nat) {
    && Enabled(s, e.p, e.step) && e.p == p && e.step.Advance?
    && p in Apply(s, e.p, e.step).procs && Apply(s, e.p, e.step).procs[p].pc == Scan(0)
  }

  /** The `k`-th event of the run is a heartbeat of `p` at that time, or at that time `p` came to the scan; no
      heartbeat came after it. */
  ghost predicate BeatAt(start: State, run: seq<Event>, k: nat, p: nat, beat: int) {
    && k < |run| && Legal(start, run[..k])
    && (run[k] == Event(p, Beat(beat))
        || (run[k] == Event(p, Advance(beat)) && BeginsScan(Run(start, run[..k]), run[k], p)))
    && forall m :: k < m < |run| ==> NoBeatOf(run[m], p)
  }

  predicate HasTime(pc: Pc) {
    !(pc == Get || pc == Create || pc == GetAgain || pc == SetVal || pc == Failed)
  }

  /** The time a process writes and the time in its record: that of its last heartbeat, or that at which its
      registration came to the scan. */
  lemma {:induction false} BeatIsLast(start: State, run: seq<Event>, p: nat) returns (k: nat)
    requires start.procs == map[] && Legal(start, run) && p in Run(start, run).procs
    requires HasTime(Run(start, run).procs[p].pc)
    ensures BeatAt(start, run, k, p, Run(start, run).procs[p].beat)
    decreases |run|
  {
    if run == [] {
      assert false;
    } else {
      RunLast(start, run);
      var front, last := run[..|run| - 1], run[|run| - 1];
      var s, t := Run(start, front), Run(start, run);
      if last.p == p && (last.step.Beat? || t.procs[p].pc == Scan(0)) {
        k := |run| - 1;
        TimeTaken(s, last, p);
      } else {
        TimeStays(s, last, p);
        k := BeatIsLast(start, front, p);
        assert front[..k] == run[..k];
        assert forall m :: k < m < |front| ==> run[m] == front[m];
      }
    }
  }

  lemma TimeTaken(s: State, e: Event, p: nat)
    requires Enabled(s, e.p, e.step) && p in Apply(s, e.p, e.step).procs
    requires e.p == p && (e.step.Beat? || Apply(s, e.p, e.step).procs[p].pc == Scan(0))
    ensures var beat := Apply(s, e.p, e.step).procs[p].beat;
            e == Event(p, Beat(beat)) || (e == Event(p, Advance(beat)) && BeginsScan(s, e, p))
  {
  }

  lemma TimeStays(s: State, e: Event, p: nat)
    requires Enabled(s, e.p, e.step) && p in Apply(s, e.p, e.step).procs
    requires HasTime(Apply(s, e.p, e.step).procs[p].pc)
    requires !(e.p == p && (e.step.Beat? || Apply(s, e.p, e.step).procs[p].pc == Scan(0)))
    ensures p in s.procs && HasTime(s.procs[p].pc) && NoBeatOf(e, p)
    ensures Apply(s, e.p, e.step).procs[p].beat == s.procs[p].beat
  {
  }

  /** Only writing a registration, a heartbeat and a registered process's exit touch the table: the record of a
      process that dies stays. */
  lemma TableTouchedOnlyBy(run: seq<Event>, p: nat, step: Step)
    requires Legal(INITIAL, run) && Enabled(Run(INITIAL, run), p, step)
    requires !step.Beat?
    requires step.Advance? ==> Run(INITIAL, run).procs[p].pc != Write
    requires step.Exit? ==> Run(INITIAL, run).procs[p].pc != Registered
    ensures Apply(Run(INITIAL, run), p, step).slots == Run(INITIAL, run).slots
  {
    RunKeepsInv(INITIAL, run);
    var s := Run(INITIAL, run);
    assert p in s.procs ==> Claim(s.slots, p, s.procs[p]);
  }

  /** A run of lines of `p` and one helper only, at the end of which `p` is through.  The helper is the holder of
      the lock, or the process that has still to set the semaphore. */
  ghost predicate LeadsThrough(s: State, p: nat, helper: nat, now: int, run: seq<Event>) {
    && (helper == p || (helper in s.procs && (HoldsLock(s.procs[helper].pc) || s.procs[helper].pc == SetVal)))
    && OnlyBy(run, p, helper, now) && |run| <= 2 * MAXNUMP + 7
    && Through(s, p, run)
  }

  ghost predicate Through(s: State, p: nat, run: seq<Event>) {
    Legal(s, run) && p in Run(s, run).procs && Outcome(Run(s, run).procs[p].pc)
  }

  lemma HolderFirst(s: State, p: nat, holder: nat, now: int) returns (run: seq<Event>)
    requires Inv(s) && p in s.procs && s.procs[p].pc == WantLock
    requires holder in s.procs && HoldsLock(s.procs[holder].pc)
    ensures LeadsThrough(s, p, holder, now, run)
  {
    var n := HolderLeaves(s, holder, now);
    var first := Lines(holder, n, now);
    var t := Run(s, first);
    assert p in t.procs - {holder} && t.procs[p] == s.procs[p];
    assert Claim(t.slots, p, t.procs[p]);
    var m := FreeComesOut(t, p, now);
    run := first + Lines(p, m, now);
    RunThen(s, first, Lines(p, m, now));
    assert Through(s, p, run);
  }

  lemma CreatorFirst(s: State, p: nat, creator: nat, now: int) returns (run: seq<Event>)
    requires Inv(s) && p in s.procs && s.procs[p].pc == WantLock
    requires creator in s.procs && s.procs[creator].pc == SetVal
    ensures LeadsThrough(s, p, creator, now, run)
  {
    var first := Event(creator, Advance(now));
    StepSem(s, creator, Advance(now));
    StepTable(s, creator, Advance(now));
    var t := AdvanceStep(s, creator, now);
    assert Claim(t.slots, p, t.procs[p]);
    var m := FreeComesOut(t, p, now);
    run := [first] + Lines(p, m, now);
    RunFrom(s, first, Lines(p, m, now), run);
  }

  /** The semaphore exists, was never set, and the process that was to set it is gone. */
  ghost predicate Orphaned(s: State) {
    && s.sem == Present(0, false)
    && forall p :: p in s.procs ==>
         s.procs[p].pc != SetVal && !Outcome(s.procs[p].pc) && !HoldsLock(s.procs[p].pc)
  }

  /** Nobody waits in vain, unless the semaphore is orphaned: a bounded number of lines of the waiting process
      and of one other take it from P to the end of its registration. */
  lemma WaiterGetsThrough(s: State, p: nat, now: int)
    requires Inv(s) && p in s.procs && s.procs[p].pc == WantLock && !Orphaned(s)
    ensures exists helper, run :: LeadsThrough(s, p, helper, now, run)
  {
    if s.sem == Present(1, true) {
      assert Claim(s.slots, p, s.procs[p]);
      var n := FreeComesOut(s, p, now);
      assert LeadsThrough(s, p, p, now, Lines(p, n, now));
    } else if s.sem == Present(0, true) {
      assert HolderExists(s);
      var helper :| helper in s.procs && HoldsLock(s.procs[helper].pc);
      var run := HolderFirst(s, p, helper, now);
    } else {
      var helper :| helper in s.procs && s.procs[helper].pc == SetVal;
      var run := CreatorFirst(s, p, helper, now);
    }
  }

  // ---------- a crash before SETVAL ----------

  lemma {:induction false} OrphanedForEver(s: State, run: seq<Event>)
    requires Orphaned(s) && Legal(s, run)
    ensures Orphaned(Run(s, run))
    decreases |run|
  {
    if run != [] {
      OrphanedStep(s, run[0]);
      OrphanedForEver(Apply(s, run[0].p, run[0].step), run[1..]);
    }
  }

  lemma OrphanedStep(s: State, e: Event)
    requires Orphaned(s) && Enabled(s, e.p, e.step)
    ensures Orphaned(Apply(s, e.p, e.step))
  {
    var t := Apply(s, e.p, e.step);
    assert forall q :: q in t.procs && q != e.p ==> q in s.procs && t.procs[q] == s.procs[q];
  }

  /** A waiting process can get through exactly if the semaphore is not orphaned: if it is, no run whatever
      leads there, and if it is not, one of lines alone does, without crashes or new processes. */
  lemma WaiterBlockedExactly(s: State, p: nat)
    requires Inv(s) && p in s.procs && s.procs[p].pc == WantLock
    ensures (exists run :: Through(s, p, run)) <==> !Orphaned(s)
    ensures (exists run :: AllLines(run) && Through(s, p, run)) <==> !Orphaned(s)
  {
    if Orphaned(s) {
      forall run | Legal(s, run)
        ensures !Through(s, p, run)
      {
        OrphanedForEver(s, run);
      }
    } else {
      WaiterGetsThrough(s, p, 0);
      var helper, run :| LeadsThrough(s, p, helper, 0, run);
      assert AllLines(run) && Through(s, p, run);
    }
  }

  predicate AllLines(run: seq<Event>) {
    forall i :: 0 <= i < |run| ==> run[i].step.Advance?
  }

  /** If the creator dies between creating the semaphore and setting it, no process ever gets through a
      registration, whatever happens later. */
  lemma CrashBeforeSetVal(run: seq<Event>, p: nat, later: seq<Event>, q: nat)
    requires Legal(INITIAL, run) && p in Run(INITIAL, run).procs && Run(INITIAL, run).procs[p].pc == SetVal
    requires Enabled(Run(INITIAL, run), p, Crash) && Legal(Apply(Run(INITIAL, run), p, Crash), later)
    requires q in Run(Apply(Run(INITIAL, run), p, Crash), later).procs
    ensures Orphaned(Apply(Run(INITIAL, run), p, Crash))
    ensures !Outcome(Run(Apply(Run(INITIAL, run), p, Crash), later).procs[q].pc)
  {
    RunKeepsInv(INITIAL, run);
    var s := Run(INITIAL, run);
    var t := Apply(s, p, Crash);
    assert forall r :: r in t.procs ==> r in s.procs && t.procs[r] == s.procs[r];
    OrphanedForEver(t, later);
  }

  /** It can happen: one process, two lines, and the crash. */
  lemma OrphanedByOneCrash(p: nat, info: int, run: seq<Event>)
    requires p > 0 && run == [Event(p, Spawn(info)), Event(p, Advance(0)), Event(p, Advance(0)), Event(p, Crash)]
    ensures Legal(INITIAL, run) && Orphaned(Run(INITIAL, run))
    ensures Legal(INITIAL, run[..3]) && p in Run(INITIAL, run[..3]).procs
    ensures Run(INITIAL, run[..3]).procs[p].pc == SetVal
  {
    var s1 := Apply(INITIAL, p, Spawn(info));
    var s2 := Apply(s1, p, Advance(0));
    var s3 := Apply(s2, p, Advance(0));
    var none: seq<Event> := [];
    assert run[3..] == [run[3]] + none && run[2..] == [run[2]] + run[3..] && run[1..] == [run[1]] + run[2..];
    RunFrom(s3, run[3], none, run[3..]);
    RunFrom(s2, run[2], run[3..], run[2..]);
    RunFrom(s1, run[1], run[2..], run[1..]);
    RunFrom(INITIAL, run[0], run[1..], run);
    assert run[2..3] == [run[2]] + none && run[1..3] == [run[1]] + run[2..3] && run[..3] == [run[0]] + run[1..3];
    RunFrom(s2, run[2], none, run[2..3]);
    RunFrom(s1, run[1], run[2..3], run[1..3]);
    RunFrom(INITIAL, run[0], run[1..3], run[..3]);
  }
}

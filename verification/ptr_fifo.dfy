/** The thread-safe FIFO of base.c: a ring, a mutex and two counting semaphores, as a transition
    system over any number of threads. One step is one semaphore, mutex or ring operation of one
    thread, so a run is an interleaving. */
module PtrFifo {
  import opened Wrappers
  import opened UnsafeFifo

  /** What a thread is about to call. */
  datatype Op = Push(ptr: Ptr) | Pop | TryPop

  /** What a call returned: success, a failed or timed out semaphore wait, or E_EMPTY. */
  datatype Result = Pushed(ptr: Ptr) | Popped(ptr: Ptr) | Failed(op: Op) | EmptyFifo

  /** Where a thread stands inside the call at the head of its list. */
  datatype PC =
    | Ready                   // at the semaphore wait, or finished when nothing is left to call
    | PushPermit(ptr: Ptr)    // took a `push` permit, wants the mutex
    | PushLocked(ptr: Ptr)    // holds the mutex, has not written
    | PushStored(ptr: Ptr)    // wrote, still holds the mutex
    | PushPost(ptr: Ptr)      // released the mutex, has not posted `pop`
    | PopPermit
    | PopLocked
    | PopTaken(ptr: Ptr)
    | PopPost(ptr: Ptr)

  datatype Thread = Thread(pc: PC, todo: seq<Op>, results: seq<Result>)

  /** `accepted` and `delivered` record who wrote and who removed what, in mutex order. */
  datatype State = State(
    push: nat, pop: nat, mutex: Option<nat>, ring: Ring, threads: seq<Thread>, panicked: bool,
    accepted: seq<(nat, Ptr)>, delivered: seq<(nat, Ptr)>)

  /** A semaphore wait either succeeds or returns an error (a timeout, an interruption). */
  datatype Choice = Go | Fail

  predicate Enabled(s: State, t: nat, c: Choice) {
    && !s.panicked
    && t < |s.threads|
    && var th := s.threads[t];
       match th.pc
       case Ready => th.todo != [] && (c == Fail || match th.todo[0]
                                       case Push(_) => s.push > 0
                                       case Pop => s.pop > 0
                                       case TryPop => true)
       case PushPermit(_) => c == Go && s.mutex == None
       case PopPermit => c == Go && s.mutex == None
       case _ => c == Go
  }

  function Return(th: Thread, r: Result): Thread {
    Thread(Ready, if th.todo == [] then [] else th.todo[1..], th.results + [r])
  }

  /** The step as the thread sees it: where it stands afterwards. */
  function Move(s: State, t: nat, c: Choice): Thread
    requires Enabled(s, t, c)
  {
    var th := s.threads[t];
    match th.pc
    case Ready =>
      if c == Fail then Return(th, Failed(th.todo[0]))
      else (match th.todo[0]
            case Push(p) => th.(pc := PushPermit(p))
            case Pop => th.(pc := PopPermit)
            case TryPop => if s.pop > 0 then th.(pc := PopPermit) else Return(th, EmptyFifo))
    case PushPermit(p) => th.(pc := PushLocked(p))
    case PushLocked(p) => if Full(s.ring) then th else th.(pc := PushStored(p))
    case PushStored(p) => th.(pc := PushPost(p))
    case PushPost(p) => Return(th, Pushed(p))
    case PopPermit => th.(pc := PopLocked)
    case PopLocked => if Drained(s.ring) then th else th.(pc := PopTaken(RingPop(s.ring).1))
    case PopTaken(p) => th.(pc := PopPost(p))
    case PopPost(p) => Return(th, Popped(p))
  }

  /** The guards of the two panics; the index tests always hold on a consistent ring. */
  predicate Full(r: Ring) { r.len >= r.cap || r.writeIdx >= |r.ptrs| }
  predicate Drained(r: Ring) { r.len == 0 || r.cap == 0 || r.readIdx >= |r.ptrs| }

  /** The step as the shared fields see it. */
  function Share(s: State, t: nat, c: Choice): State
    requires Enabled(s, t, c)
  {
    match s.threads[t].pc
    case Ready =>
      if c == Fail then s
      else (match s.threads[t].todo[0]
            case Push(_) => s.(push := s.push - 1)
            case Pop => s.(pop := s.pop - 1)
            case TryPop => if s.pop > 0 then s.(pop := s.pop - 1) else s)
    case PushPermit(_) => s.(mutex := Some(t))
    case PushLocked(p) =>
      if Full(s.ring) then s.(panicked := true)
      else s.(ring := RingPush(s.ring, p), accepted := s.accepted + [(t, p)])
    case PushStored(_) => s.(mutex := None)
    case PushPost(_) => s.(pop := s.pop + 1)
    case PopPermit => s.(mutex := Some(t))
    case PopLocked =>
      if Drained(s.ring) then s.(panicked := true)
      else s.(ring := RingPop(s.ring).0, delivered := s.delivered + [(t, RingPop(s.ring).1)])
    case PopTaken(_) => s.(mutex := None)
    case PopPost(_) => s.(push := s.push + 1)
  }

  function Do(s: State, t: nat, c: Choice): State
    requires Enabled(s, t, c)
  {
    Share(s, t, c).(threads := s.threads[t := Move(s, t, c)])
  }

  /** ptr_fifo_init, with one list of calls per thread. */
  function Init(cap: nat, calls: seq<seq<Op>>): State {
    State(cap, 0, None, UnsafeFifo.Empty(cap), seq(|calls|, i requires 0 <= i < |calls| => Thread(Ready, calls[i], [])),
          false, [], [])
  }

  ghost predicate Next(s: State, s': State) {
    exists t: nat, c :: Enabled(s, t, c) && s' == Do(s, t, c)
  }

  ghost predicate IsRun(run: seq<State>, cap: nat, calls: seq<seq<Op>>) {
    && |run| > 0
    && run[0] == Init(cap, calls)
    && forall i :: 0 <= i < |run| - 1 ==> Next(run[i], run[i + 1])
  }

  // ---------------------------------------------------------------- sums over all threads

  function Sum(ts: seq<Thread>, weight: Thread -> nat): nat {
    if ts == [] then 0 else Sum(ts[..|ts| - 1], weight) + weight(ts[|ts| - 1])
  }

  lemma {:induction false} SumUpdate(ts: seq<Thread>, t: nat, th: Thread, weight: Thread -> nat)
    requires t < |ts|
    ensures Sum(ts[t := th], weight) + weight(ts[t]) == Sum(ts, weight) + weight(th)
    ensures weight(ts[t]) <= Sum(ts, weight)
  {
    var n := |ts| - 1;
    if t == n {
      assert ts[t := th][..n] == ts[..n];
    } else {
      assert ts[t := th][..n] == ts[..n][t := th];
      SumUpdate(ts[..n], t, th, weight);
    }
  }

  lemma {:induction false} SumZero(ts: seq<Thread>, weight: Thread -> nat)
    requires forall t :: 0 <= t < |ts| ==> weight(ts[t]) == 0
    ensures Sum(ts, weight) == 0
  {
    if ts != [] {
      SumZero(ts[..|ts| - 1], weight);
    }
  }

  /** Threads that hold a `push` permit the ring does not show: pushers that have not written,
      poppers that have removed but not posted. */
  function PushSlots(th: Thread): nat {
    if th.pc.PushPermit? || th.pc.PushLocked? || th.pc.PopTaken? || th.pc.PopPost? then 1 else 0
  }

  /** Threads that hold a `pop` permit, or owe one for a pointer already in the ring. */
  function PopSlots(th: Thread): nat {
    if th.pc.PopPermit? || th.pc.PopLocked? || th.pc.PushStored? || th.pc.PushPost? then 1 else 0
  }

  /** Steps a thread can still take. */
  function Work(th: Thread): nat {
    var rank := match th.pc
      case Ready => 0
      case PushPermit(_) => 1 case PopPermit => 1
      case PushLocked(_) => 2 case PopLocked => 2
      case PushStored(_) => 3 case PopTaken(_) => 3
      case PushPost(_) => 4 case PopPost(_) => 4;
    if 5 * |th.todo| >= rank then 5 * |th.todo| - rank else 0
  }

  // ---------------------------------------------------------------- the invariant

  predicate InCriticalSection(pc: PC) {
    pc.PushLocked? || pc.PushStored? || pc.PopLocked? || pc.PopTaken?
  }

  ghost predicate MutexInv(s: State) {
    && (s.mutex.Some? ==> s.mutex.value < |s.threads|)
    && forall t :: 0 <= t < |s.threads| ==> (InCriticalSection(s.threads[t].pc) <==> s.mutex == Some(t))
  }

  /** The conservation laws behind the two semaphores. */
  ghost predicate CountInv(s: State, cap: nat) {
    && s.push + s.ring.len + Sum(s.threads, PushSlots) == cap
    && s.pop + Sum(s.threads, PopSlots) == s.ring.len
  }

  function Ptrs(log: seq<(nat, Ptr)>): seq<Ptr> {
    if log == [] then [] else Ptrs(log[..|log| - 1]) + [log[|log| - 1].1]
  }

  /** What the log says thread `t` wrote or removed. */
  function By(log: seq<(nat, Ptr)>, t: nat): seq<Ptr> {
    if log == [] then []
    else By(log[..|log| - 1], t) + if log[|log| - 1].0 == t then [log[|log| - 1].1] else []
  }

  function SentOf(rs: seq<Result>): seq<Ptr> {
    if rs == [] then []
    else SentOf(rs[..|rs| - 1]) + if rs[|rs| - 1].Pushed? then [rs[|rs| - 1].ptr] else []
  }

  function ReceivedOf(rs: seq<Result>): seq<Ptr> {
    if rs == [] then []
    else ReceivedOf(rs[..|rs| - 1]) + if rs[|rs| - 1].Popped? then [rs[|rs| - 1].ptr] else []
  }

  /** A pointer in a thread's hands: written but not yet reported, or removed but not yet returned. */
  function Held(pc: PC, pushing: bool): seq<Ptr> {
    match pc
    case PushStored(p) => if pushing then [p] else []
    case PushPost(p) => if pushing then [p] else []
    case PopTaken(p) => if pushing then [] else [p]
    case PopPost(p) => if pushing then [] else [p]
    case _ => []
  }

  /** The pointers a thread has handed over: those of its successful calls, and one in flight. */
  function Sent(th: Thread): seq<Ptr> {
    SentOf(th.results) + Held(th.pc, true)
  }

  function Received(th: Thread): seq<Ptr> {
    ReceivedOf(th.results) + Held(th.pc, false)
  }

  /** First in, first out: what was removed and what is left is what was written, in order. */
  ghost predicate OrderInv(s: State)
    requires Consistent(s.ring)
  {
    Ptrs(s.accepted) == Ptrs(s.delivered) + Contents(s.ring)
  }

  /** Every thread's own results agree with the two logs. */
  ghost predicate LogInv(s: State) {
    forall t :: 0 <= t < |s.threads| ==> Agrees(s.threads[t], t, s.accepted, s.delivered)
  }

  predicate Agrees(th: Thread, t: nat, accepted: seq<(nat, Ptr)>, delivered: seq<(nat, Ptr)>) {
    Sent(th) == By(accepted, t) && Received(th) == By(delivered, t)
  }

  ghost predicate KnownThreads(log: seq<(nat, Ptr)>, n: nat) {
    forall i :: 0 <= i < |log| ==> log[i].0 < n
  }

  /** The call in progress is the one at the head of the list; calls and results add up. */
  ghost predicate CallInv(s: State, calls: seq<seq<Op>>) {
    && |s.threads| == |calls|
    && forall t :: 0 <= t < |calls| ==>
         && |s.threads[t].results| + |s.threads[t].todo| == |calls[t]|
         && s.threads[t].todo == calls[t][|s.threads[t].results|..]
         && (s.threads[t].pc != Ready ==> s.threads[t].todo != [])
         && (s.threads[t].pc.PushPermit? || s.threads[t].pc.PushLocked? || s.threads[t].pc.PushStored? || s.threads[t].pc.PushPost?
             ==> s.threads[t].todo[0] == Push(s.threads[t].pc.ptr))
  }

  ghost predicate Inv(s: State, cap: nat, calls: seq<seq<Op>>) {
    && !s.panicked
    && Consistent(s.ring) && s.ring.cap == cap
    && MutexInv(s)
    && CountInv(s, cap)
    && OrderInv(s)
    && LogInv(s)
    && KnownThreads(s.accepted, |s.threads|) && KnownThreads(s.delivered, |s.threads|)
    && CallInv(s, calls)
  }

  lemma {:induction false} InitInv(cap: nat, calls: seq<seq<Op>>)
    requires 0 < cap < UINT32_MAX
    ensures Inv(Init(cap, calls), cap, calls)
  {
    var s := Init(cap, calls);
    EmptyIsEmpty(cap);
    SumZero(s.threads, PushSlots);
    SumZero(s.threads, PopSlots);
  }

  lemma {:induction false} StepMutex(s: State, t: nat, c: Choice)
    requires MutexInv(s) && Enabled(s, t, c)
    ensures MutexInv(Do(s, t, c))
  {
  }

  /** A step moves one unit between a semaphore, the ring and the slots its thread holds. */
  lemma {:induction false} MoveSlots(s: State, t: nat, c: Choice)
    requires Consistent(s.ring) && Enabled(s, t, c)
    requires PushSlots(s.threads[t]) <= s.ring.cap - s.ring.len && PopSlots(s.threads[t]) <= s.ring.len
    ensures var s', th, th' := Share(s, t, c), s.threads[t], Move(s, t, c);
      && !s'.panicked
      && s'.push + s'.ring.len + PushSlots(th') == s.push + s.ring.len + PushSlots(th)
      && s'.pop + PopSlots(th') - s'.ring.len == s.pop + PopSlots(th) - s.ring.len
  {
  }

  lemma {:induction false} StepCounts(s: State, t: nat, c: Choice, cap: nat)
    requires Consistent(s.ring) && s.ring.cap == cap
    requires CountInv(s, cap) && Enabled(s, t, c)
    ensures !Share(s, t, c).panicked
    ensures CountInv(Do(s, t, c), cap)
  {
    SumUpdate(s.threads, t, Move(s, t, c), PushSlots);
    SumUpdate(s.threads, t, Move(s, t, c), PopSlots);
    MoveSlots(s, t, c);
  }

  /** A try_pop reports E_EMPTY exactly if every pointer in the ring is spoken for: some thread has a
      permit for it, or has not posted its permit yet. So it can come from a ring that is not empty. */
  lemma {:induction false} TryPopEmptyExactly(s: State, t: nat, cap: nat)
    requires CountInv(s, cap) && Enabled(s, t, Go)
    requires s.threads[t].pc == Ready && s.threads[t].todo[0] == TryPop
    ensures Move(s, t, Go) == s.threads[t].(todo := s.threads[t].todo[1..], results := s.threads[t].results + [EmptyFifo])
            <==> s.ring.len == Sum(s.threads, PopSlots)
    ensures s.ring.len > Sum(s.threads, PopSlots) ==> Move(s, t, Go).pc == PopPermit
  {
    hide Sum;
  }

  /** Each step is one step of a bounded queue, or leaves the queue alone: it appends one pointer
      when there is room, or removes the oldest. A failed wait and an E_EMPTY change nothing but
      the thread's own list of results. */
  ghost predicate QueueStep(s: State, s': State, t: nat)
    requires Consistent(s.ring) && Consistent(s'.ring) && t < |s.threads| == |s'.threads|
  {
    var q, q' := Contents(s.ring), Contents(s'.ring);
    match s.threads[t].pc
    case PushLocked(p) =>
      |q| < s.ring.cap && q' == q + [p] && s'.accepted == s.accepted + [(t, p)] && s'.delivered == s.delivered
    case PopLocked => q != [] && q' == q[1..] && s'.delivered == s.delivered + [(t, q[0])] && s'.accepted == s.accepted
    case _ =>
      && s'.ring == s.ring && s'.accepted == s.accepted && s'.delivered == s.delivered
      && (s.threads[t].pc == s'.threads[t].pc == Ready ==> s' == s.(threads := s'.threads))
  }

  lemma {:induction false} StepRefinesQueue(s: State, t: nat, c: Choice)
    requires Consistent(s.ring) && CountInv(s, s.ring.cap) && Enabled(s, t, c)
    ensures Consistent(Do(s, t, c).ring) && Do(s, t, c).ring.cap == s.ring.cap
    ensures QueueStep(s, Do(s, t, c), t)
  {
    StepCounts(s, t, c, s.ring.cap);
    match s.threads[t].pc
    case PushLocked(p) => PushAppends(s.ring, p);
    case PopLocked => PopTakesOldest(s.ring);
    case _ =>
  }

  lemma {:induction false} PtrsExtended(log: seq<(nat, Ptr)>, e: (nat, Ptr))
    ensures Ptrs(log + [e]) == Ptrs(log) + [e.1]
  {
    assert (log + [e])[..|log|] == log;
  }

  /** A machine whose steps are queue steps is first in, first out. */
  lemma {:induction false} QueueStepOrder(s: State, s': State, t: nat)
    requires Consistent(s.ring) && Consistent(s'.ring) && t < |s.threads| == |s'.threads|
    requires QueueStep(s, s', t) && OrderInv(s)
    ensures OrderInv(s')
  {
    hide Ptrs, Contents;
    match s.threads[t].pc
    case PushLocked(p) => PtrsExtended(s.accepted, (t, p));
    case PopLocked => PtrsExtended(s.delivered, (t, Contents(s.ring)[0]));
    case _ =>
  }

  lemma {:induction false} ReturnLogs(th: Thread, r: Result)
    ensures Sent(Return(th, r)) == SentOf(th.results) + if r.Pushed? then [r.ptr] else []
    ensures Received(Return(th, r)) == ReceivedOf(th.results) + if r.Popped? then [r.ptr] else []
  {
    var rs := Return(th, r).results;
    assert rs[..|rs| - 1] == th.results;
  }

  lemma {:induction false} ByExtended(log: seq<(nat, Ptr)>, e: (nat, Ptr), t: nat)
    ensures By(log + [e], t) == By(log, t) + if e.0 == t then [e.1] else []
  {
    assert (log + [e])[..|log|] == log;
  }

  /** What a thread has to show for itself changes exactly when the log records it. */
  lemma {:induction false} MoveSent(s: State, t: nat, c: Choice)
    requires Enabled(s, t, c) && !Share(s, t, c).panicked
    ensures Sent(Move(s, t, c)) == Sent(s.threads[t])
              + if s.threads[t].pc.PushLocked? then [s.threads[t].pc.ptr] else []
  {
    var th, th' := s.threads[t], Move(s, t, c);
    if th'.results == th.results {
    } else {
      ReturnLogs(th, th'.results[|th.results|]);
    }
  }

  lemma {:induction false} MoveReceived(s: State, t: nat, c: Choice)
    requires Enabled(s, t, c) && !Share(s, t, c).panicked
    ensures Received(Move(s, t, c)) == Received(s.threads[t])
              + if s.threads[t].pc.PopLocked? then [RingPop(s.ring).1] else []
  {
    var th, th' := s.threads[t], Move(s, t, c);
    if th'.results == th.results {
    } else {
      ReturnLogs(th, th'.results[|th.results|]);
    }
  }

  lemma {:induction false} StepAgrees(s: State, t: nat, c: Choice, u: nat)
    requires Enabled(s, t, c) && !Share(s, t, c).panicked && u < |s.threads|
    requires Agrees(s.threads[u], u, s.accepted, s.delivered)
    ensures Agrees(Do(s, t, c).threads[u], u, Do(s, t, c).accepted, Do(s, t, c).delivered)
  {
    if u == t {
      MoveSent(s, t, c);
      MoveReceived(s, t, c);
    }
    match s.threads[t].pc
    case PushLocked(p) => ByExtended(s.accepted, (t, p), u);
    case PopLocked => ByExtended(s.delivered, (t, RingPop(s.ring).1), u);
    case _ =>
  }

  lemma {:induction false} StepLogs(s: State, t: nat, c: Choice)
    requires LogInv(s) && Enabled(s, t, c) && !Share(s, t, c).panicked
    ensures LogInv(Do(s, t, c))
  {
    forall u: nat | u < |s.threads|
      ensures Agrees(Do(s, t, c).threads[u], u, Do(s, t, c).accepted, Do(s, t, c).delivered)
    {
      StepAgrees(s, t, c, u);
    }
  }

  lemma {:induction false} StepKnown(s: State, t: nat, c: Choice)
    requires KnownThreads(s.accepted, |s.threads|) && KnownThreads(s.delivered, |s.threads|)
    requires Enabled(s, t, c)
    ensures KnownThreads(Do(s, t, c).accepted, |s.threads|) && KnownThreads(Do(s, t, c).delivered, |s.threads|)
  {
    match s.threads[t].pc
    case PushLocked(p) =>
    case _ =>
  }

  lemma {:induction false} StepCalls(s: State, t: nat, c: Choice, calls: seq<seq<Op>>)
    requires CallInv(s, calls) && Enabled(s, t, c)
    ensures CallInv(Do(s, t, c), calls)
  {
  }

  lemma {:induction false} StepInv(s: State, t: nat, c: Choice, cap: nat, calls: seq<seq<Op>>)
    requires Inv(s, cap, calls) && Enabled(s, t, c)
    ensures Inv(Do(s, t, c), cap, calls)
  {
    StepMutex(s, t, c);
    StepCounts(s, t, c, cap);
    StepRefinesQueue(s, t, c);
    QueueStepOrder(s, Do(s, t, c), t);
    StepLogs(s, t, c);
    StepKnown(s, t, c);
    StepCalls(s, t, c, calls);
  }

  // ---------------------------------------------------------------- whole runs

  /** Every state of every interleaving keeps the invariant; in particular no run panics. */
  lemma {:induction false} RunInv(run: seq<State>, i: nat, cap: nat, calls: seq<seq<Op>>)
    requires 0 < cap < UINT32_MAX && IsRun(run, cap, calls) && i < |run|
    ensures Inv(run[i], cap, calls)
  {
    if i == 0 {
      InitInv(cap, calls);
    } else {
      RunInv(run, i - 1, cap, calls);
      assert Next(run[i - 1], run[i - 1 + 1]);
      NextInv(run[i - 1], run[i], cap, calls);
    }
  }

  lemma {:induction false} NextInv(s: State, s': State, cap: nat, calls: seq<seq<Op>>)
    requires Inv(s, cap, calls) && Next(s, s')
    ensures Inv(s', cap, calls)
  {
    var t: nat, c :| Enabled(s, t, c) && s' == Do(s, t, c);
    StepInv(s, t, c, cap, calls);
  }

  lemma {:induction false} StepOf(run: seq<State>, i: nat, cap: nat, calls: seq<seq<Op>>) returns (t: nat, c: Choice)
    requires IsRun(run, cap, calls) && i + 1 < |run|
    ensures Enabled(run[i], t, c) && run[i + 1] == Do(run[i], t, c)
  {
    assert Next(run[i], run[i + 1]);
    t, c :| Enabled(run[i], t, c) && run[i + 1] == Do(run[i], t, c);
  }

  predicate Finished(th: Thread) { th.pc == Ready && th.todo == [] }

  predicate WaitsToPush(th: Thread) { th.pc == Ready && th.todo != [] && th.todo[0].Push? }

  predicate WaitsToPop(th: Thread) { th.pc == Ready && th.todo != [] && th.todo[0].Pop? }

  /** No thread can go on unless a wait is given up. */
  ghost predicate Stuck(s: State) {
    forall t: nat :: !Enabled(s, t, Go)
  }

  /** With every thread at a wait the semaphores show the ring exactly. */
  lemma {:induction false} Idle(s: State, cap: nat)
    requires CountInv(s, cap) && forall t :: 0 <= t < |s.threads| ==> s.threads[t].pc == Ready
    ensures s.push == cap - s.ring.len && s.pop == s.ring.len
  {
    SumZero(s.threads, PushSlots);
    SumZero(s.threads, PopSlots);
  }

  lemma {:induction false} HolderCanGo(s: State)
    requires MutexInv(s) && !s.panicked && s.mutex.Some?
    ensures Enabled(s, s.mutex.value, Go)
  {
  }

  /** A thread inside a call past its wait can go on, or the holder of the mutex can. */
  lemma {:induction false} StuckAtWaits(s: State)
    requires MutexInv(s) && !s.panicked && Stuck(s)
    ensures forall t :: 0 <= t < |s.threads| ==> s.threads[t].pc == Ready
  {
    if s.mutex.Some? {
      HolderCanGo(s);
    }
    forall t | 0 <= t < |s.threads|
      ensures s.threads[t].pc == Ready
    {
      assert !Enabled(s, t, Go);
    }
  }

  ghost predicate AllFinishedOr(s: State, waits: Thread -> bool) {
    forall t :: 0 <= t < |s.threads| ==> Finished(s.threads[t]) || waits(s.threads[t])
  }

  /** Nobody holds anything; who waits, waits on an exhausted semaphore. */
  ghost predicate AllBlocked(s: State) {
    && AllFinishedOr(s, th => WaitsToPush(th) || WaitsToPop(th))
    && ((exists t :: 0 <= t < |s.threads| && WaitsToPush(s.threads[t])) ==> s.push == 0)
    && ((exists t :: 0 <= t < |s.threads| && WaitsToPop(s.threads[t])) ==> s.pop == 0)
  }

  lemma {:induction false} StuckIsBlocked(s: State)
    requires MutexInv(s) && !s.panicked
    ensures Stuck(s) <==> AllBlocked(s)
  {
    if Stuck(s) {
      StuckAtWaits(s);
      forall t | 0 <= t < |s.threads|
        ensures Finished(s.threads[t]) || (WaitsToPush(s.threads[t]) && s.push == 0) || (WaitsToPop(s.threads[t]) && s.pop == 0)
      {
        assert !Enabled(s, t, Go);
      }
    }
  }

  /** The only way to stand still: everyone has finished, or all the others wait on the same
      semaphore, pushers before a full ring or poppers before an empty one. */
  lemma {:induction false} StuckExactly(s: State, cap: nat)
    requires 0 < cap && MutexInv(s) && CountInv(s, cap) && !s.panicked
    ensures Stuck(s) <==>
      || (s.ring.len == cap && AllFinishedOr(s, WaitsToPush))
      || (s.ring.len == 0 && AllFinishedOr(s, WaitsToPop))
      || AllFinishedOr(s, _ => false)
  {
    StuckIsBlocked(s);
    if AllFinishedOr(s, th => WaitsToPush(th) || WaitsToPop(th)) {
      Idle(s, cap);
    }
  }

  function Calls(calls: seq<seq<Op>>): nat {
    if calls == [] then 0 else Calls(calls[..|calls| - 1]) + |calls[|calls| - 1]|
  }

  lemma {:induction false} InitWork(cap: nat, calls: seq<seq<Op>>)
    ensures Sum(Init(cap, calls).threads, Work) == 5 * Calls(calls)
  {
    if calls != [] {
      var ts := Init(cap, calls).threads;
      InitWork(cap, calls[..|calls| - 1]);
      assert ts[..|ts| - 1] == Init(cap, calls[..|calls| - 1]).threads;
    }
  }

  lemma {:induction false} MoveWorks(s: State, t: nat, c: Choice)
    requires Enabled(s, t, c) && !Share(s, t, c).panicked
    requires s.threads[t].pc != Ready ==> s.threads[t].todo != []
    ensures Work(Move(s, t, c)) < Work(s.threads[t])
  {
  }

  lemma {:induction false} StepWork(s: State, t: nat, c: Choice, cap: nat, calls: seq<seq<Op>>)
    requires Inv(s, cap, calls) && Enabled(s, t, c)
    ensures Sum(Do(s, t, c).threads, Work) < Sum(s.threads, Work)
  {
    StepCounts(s, t, c, cap);
    MoveWorks(s, t, c);
    SumUpdate(s.threads, t, Move(s, t, c), Work);
  }

  lemma {:induction false} RunWorks(run: seq<State>, i: nat, cap: nat, calls: seq<seq<Op>>)
    requires 0 < cap < UINT32_MAX && IsRun(run, cap, calls) && i + 1 < |run|
    ensures Sum(run[i + 1].threads, Work) < Sum(run[i].threads, Work)
  {
    RunInv(run, i, cap, calls);
    var t, c := StepOf(run, i, cap, calls);
    StepWork(run[i], t, c, cap, calls);
  }

  /** A call takes at most five steps, so no interleaving goes on forever. */
  lemma {:induction false} RunsEnd(run: seq<State>, i: nat, cap: nat, calls: seq<seq<Op>>)
    requires 0 < cap < UINT32_MAX && IsRun(run, cap, calls) && i < |run|
    ensures i + Sum(run[i].threads, Work) <= 5 * Calls(calls)
  {
    if i == 0 {
      InitWork(cap, calls);
    } else {
      RunsEnd(run, i - 1, cap, calls);
      RunWorks(run, i - 1, cap, calls);
    }
  }

  // ---------------------------------------------------------------- exactly once

  function Times(ptrs: seq<Ptr>, p: Ptr): nat {
    if ptrs == [] then 0 else Times(ptrs[..|ptrs| - 1], p) + if ptrs[|ptrs| - 1] == p then 1 else 0
  }

  lemma {:induction false} TimesConcat(a: seq<Ptr>, b: seq<Ptr>, p: Ptr)
    ensures Times(a + b, p) == Times(a, p) + Times(b, p)
  {
    if b == [] {
      assert a + b == a;
    } else {
      assert (a + b)[..|a + b| - 1] == a + b[..|b| - 1];
      TimesConcat(a, b[..|b| - 1], p);
    }
  }

  /** How often the first `n` threads wrote (or removed) `p` according to the log. */
  function TimesBy(log: seq<(nat, Ptr)>, n: nat, p: Ptr): nat {
    if n == 0 then 0 else TimesBy(log, n - 1, p) + Times(By(log, n - 1), p)
  }

  lemma {:induction false} TimesByExtended(log: seq<(nat, Ptr)>, e: (nat, Ptr), n: nat, p: Ptr)
    ensures TimesBy(log + [e], n, p) == TimesBy(log, n, p) + if e.0 < n && e.1 == p then 1 else 0
  {
    if n > 0 {
      TimesByExtended(log, e, n - 1, p);
      ByExtended(log, e, n - 1);
      TimesConcat(By(log, n - 1), if e.0 == n - 1 then [e.1] else [], p);
    }
  }

  lemma {:induction false} NothingLogged(n: nat, p: Ptr)
    ensures TimesBy([], n, p) == 0
  {
    if n > 0 {
      NothingLogged(n - 1, p);
    }
  }

  /** Splitting the log by thread neither loses nor duplicates an entry. */
  lemma {:induction false} TimesByIsLog(log: seq<(nat, Ptr)>, n: nat, p: Ptr)
    requires KnownThreads(log, n)
    ensures TimesBy(log, n, p) == Times(Ptrs(log), p)
  {
    if log == [] {
      NothingLogged(n, p);
    } else {
      var before, e := log[..|log| - 1], log[|log| - 1];
      assert log == before + [e];
      TimesByIsLog(before, n, p);
      TimesByExtended(before, e, n, p);
      TimesConcat(Ptrs(before), [e.1], p);
    }
  }

  /** How often the calls of the first `n` threads reported `p` pushed, and returned it from a pop. */
  function TimesPushed(ts: seq<Thread>, n: nat, p: Ptr): nat
    requires n <= |ts|
  {
    if n == 0 then 0 else TimesPushed(ts, n - 1, p) + Times(SentOf(ts[n - 1].results), p)
  }

  function TimesPopped(ts: seq<Thread>, n: nat, p: Ptr): nat
    requires n <= |ts|
  {
    if n == 0 then 0 else TimesPopped(ts, n - 1, p) + Times(ReceivedOf(ts[n - 1].results), p)
  }

  lemma {:induction false} ResultsAreLogged(s: State, n: nat, p: Ptr)
    requires LogInv(s) && n <= |s.threads| && forall t :: 0 <= t < |s.threads| ==> s.threads[t].pc == Ready
    ensures TimesPushed(s.threads, n, p) == TimesBy(s.accepted, n, p)
    ensures TimesPopped(s.threads, n, p) == TimesBy(s.delivered, n, p)
  {
    if n > 0 {
      ResultsAreLogged(s, n - 1, p);
      var th := s.threads[n - 1];
      assert th.pc == Ready && Agrees(th, n - 1, s.accepted, s.delivered);
      assert Sent(th) == SentOf(th.results) && Received(th) == ReceivedOf(th.results);
    }
  }

  /** Whenever no call is half way, the pointers whose push reported success are exactly those
      some pop returned together with those still in the ring: none is lost or given twice. */
  lemma {:induction false} ExactlyOnce(s: State, cap: nat, calls: seq<seq<Op>>, p: Ptr)
    requires Inv(s, cap, calls) && forall t :: 0 <= t < |s.threads| ==> s.threads[t].pc == Ready
    ensures TimesPushed(s.threads, |s.threads|, p) == TimesPopped(s.threads, |s.threads|, p) + Times(Contents(s.ring), p)
  {
    var n := |s.threads|;
    ResultsAreLogged(s, n, p);
    TimesByIsLog(s.accepted, n, p);
    TimesByIsLog(s.delivered, n, p);
    TimesConcat(Ptrs(s.delivered), Contents(s.ring), p);
  }
}

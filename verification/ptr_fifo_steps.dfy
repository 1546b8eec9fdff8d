/** The FIFO of base.c again, with the ring operations taken apart: the store into the slot, the update
    of the index and that of the length are steps of their own, so other threads see the ring half
    updated. Each run refines a run of PtrFifo, where the ring changes at once; mutual exclusion is
    what makes it so. */
module PtrFifoSteps {
  import opened Wrappers
  import opened UnsafeFifo
  import opened PtrFifo

  /** How far a thread is inside unsafe_ptr_fifo_push or unsafe_ptr_fifo_pop. */
  datatype Micro =
    | Outside
    | Stored                  // push: the slot is written
    | Indexed                 // push: `write_idx` is updated too
    | Claimed(idx: nat)     // pop: `read_idx` is updated
    | Counted(idx: nat)     // pop: `len` is updated too, the slot has not been read

  /** `base` is the memory as it is; the logs are written when the panic is passed. */
  datatype Fine = Fine(base: State, micro: seq<Micro>)

  predicate FineEnabled(f: Fine, t: nat, c: Choice) { t < |f.micro| && Enabled(f.base, t, c) }

  function NextIdx(i: nat, cap: nat): nat { if cap == 0 then 0 else (i + 1) % cap }

  /** Unsigned arithmetic on `len`. */
  function OneLess(len: nat): nat { if len == 0 then UINT32_MAX else len - 1 }

  function OneMore(len: nat): nat { if len >= UINT32_MAX then 0 else len + 1 }

  /** Thread `t` is at `pc` and `micro` afterwards, and the ring is `ring`. */
  function At(f: Fine, t: nat, ring: Ring, pc: PC, micro: Micro): Fine
    requires t < |f.micro| && t < |f.base.threads|
  {
    Fine(f.base.(ring := ring, threads := f.base.threads[t := f.base.threads[t].(pc := pc)]), f.micro[t := micro])
  }

  function FinePush(f: Fine, t: nat, p: Ptr): Fine
    requires t < |f.micro| && t < |f.base.threads|
  {
    var r := f.base.ring;
    match f.micro[t]
    case Stored => At(f, t, r.(writeIdx := NextIdx(r.writeIdx, r.cap)), PushLocked(p), Indexed)
    case Indexed => At(f, t, r.(len := OneMore(r.len)), PushStored(p), Outside)
    case _ =>
      if Full(r) then f.(base := f.base.(panicked := true))
      else
        var g := At(f, t, r.(ptrs := r.ptrs[r.writeIdx := p]), PushLocked(p), Stored);
        g.(base := g.base.(accepted := f.base.accepted + [(t, p)]))
  }

  function FinePop(f: Fine, t: nat): Fine
    requires t < |f.micro| && t < |f.base.threads|
  {
    var r := f.base.ring;
    match f.micro[t]
    case Claimed(idx) => At(f, t, r.(len := OneLess(r.len)), PopLocked, Counted(idx))
    case Counted(idx) =>
      if idx >= |r.ptrs| then f.(base := f.base.(panicked := true))
      else At(f, t, r, PopTaken(r.ptrs[idx]), Outside)
    case _ =>
      if Drained(r) then f.(base := f.base.(panicked := true))
      else
        var g := At(f, t, r.(readIdx := NextIdx(r.readIdx, r.cap)), PopLocked, Claimed(r.readIdx));
        g.(base := g.base.(delivered := f.base.delivered + [(t, r.ptrs[r.readIdx])]))
  }

  function FineDo(f: Fine, t: nat, c: Choice): Fine
    requires FineEnabled(f, t, c)
  {
    match f.base.threads[t].pc
    case PushLocked(p) => FinePush(f, t, p)
    case PopLocked => FinePop(f, t)
    case _ => f.(base := Do(f.base, t, c))
  }

  function FineInit(cap: nat, calls: seq<seq<Op>>): Fine {
    Fine(Init(cap, calls), seq(|calls|, _ => Outside))
  }

  ghost predicate FineNext(f: Fine, f': Fine) {
    exists t: nat, c :: FineEnabled(f, t, c) && f' == FineDo(f, t, c)
  }

  ghost predicate IsFineRun(run: seq<Fine>, cap: nat, calls: seq<seq<Op>>) {
    && |run| > 0
    && run[0] == FineInit(cap, calls)
    && forall i :: 0 <= i < |run| - 1 ==> FineNext(run[i], run[i + 1])
  }

  // ---------------------------------------------------------------- the abstraction

  /** The ring once the operation under way is finished. */
  function Completed(r: Ring, m: Micro): Ring {
    match m
    case Stored => r.(writeIdx := NextIdx(r.writeIdx, r.cap), len := OneMore(r.len))
    case Indexed => r.(len := OneMore(r.len))
    case Claimed(_) => r.(len := OneLess(r.len))
    case _ => r
  }

  function PCOf(pc: PC, m: Micro, ptrs: seq<Ptr>): PC {
    match m
    case Outside => pc
    case Stored => if pc.PushLocked? then PushStored(pc.ptr) else pc
    case Indexed => if pc.PushLocked? then PushStored(pc.ptr) else pc
    case Claimed(idx) => if idx < |ptrs| then PopTaken(ptrs[idx]) else pc
    case Counted(idx) => if idx < |ptrs| then PopTaken(ptrs[idx]) else pc
  }

  function MicroOf(f: Fine, t: nat): Micro { if t < |f.micro| then f.micro[t] else Outside }

  /** The operation the holder of the mutex has under way. */
  function Inside(f: Fine): Micro { if f.base.mutex.Some? then MicroOf(f, f.base.mutex.value) else Outside }

  function ThreadOf(th: Thread, m: Micro, ptrs: seq<Ptr>): Thread { th.(pc := PCOf(th.pc, m, ptrs)) }

  /** The state in which the operation under way has been done at once. */
  function Abs(f: Fine): State {
    var ts := f.base.threads;
    f.base.(ring := Completed(f.base.ring, Inside(f)),
           threads := seq(|ts|, t requires 0 <= t < |ts| => ThreadOf(ts[t], MicroOf(f, t), f.base.ring.ptrs)))
  }

  predicate MicroFits(m: Micro, pc: PC, ptrs: seq<Ptr>) {
    match m
    case Outside => true
    case Stored => pc.PushLocked?
    case Indexed => pc.PushLocked?
    case Claimed(idx) => pc.PopLocked? && idx < |ptrs|
    case Counted(idx) => pc.PopLocked? && idx < |ptrs|
  }

  /** Only the holder of the mutex is inside an operation. */
  ghost predicate MicroInv(f: Fine) {
    && |f.micro| == |f.base.threads|
    && MutexInv(f.base)
    && forall t :: 0 <= t < |f.micro| ==> MicroFits(f.micro[t], f.base.threads[t].pc, f.base.ring.ptrs)
  }

  predicate Bounded(r: Ring, cap: nat) { r.len <= cap && r.writeIdx < cap && r.readIdx < cap }

  ghost predicate FineInv(f: Fine, cap: nat, calls: seq<seq<Op>>) {
    MicroInv(f) && Inv(Abs(f), cap, calls) && Bounded(f.base.ring, cap)
  }

  lemma {:induction false} OthersOutside(f: Fine, t: nat)
    requires MicroInv(f) && t < |f.micro| && f.base.mutex != Some(t)
    ensures f.micro[t] == Outside
  {
    assert MicroFits(f.micro[t], f.base.threads[t].pc, f.base.ring.ptrs);
  }

  lemma {:induction false} SameEnabled(f: Fine, t: nat, c: Choice)
    requires MicroInv(f)
    ensures FineEnabled(f, t, c) <==> Enabled(Abs(f), t, c)
  {
    if t < |f.micro| {
      assert MicroFits(f.micro[t], f.base.threads[t].pc, f.base.ring.ptrs);
      assert Abs(f).threads[t] == ThreadOf(f.base.threads[t], f.micro[t], f.base.ring.ptrs);
    }
  }

  /** Taking and giving back the mutex finds no operation under way. */
  lemma {:induction false} SameInside(f: Fine, t: nat, c: Choice)
    requires MicroInv(f) && FineEnabled(f, t, c)
    requires !f.base.threads[t].pc.PushLocked? && !f.base.threads[t].pc.PopLocked?
    ensures Inside(FineDo(f, t, c)) == Inside(f)
  {
    assert MicroFits(f.micro[t], f.base.threads[t].pc, f.base.ring.ptrs);
  }

  /** The steps of the calls outside the ring operations are the same in both systems. */
  lemma {:induction false} OtherStep(f: Fine, t: nat, c: Choice)
    requires MicroInv(f) && FineEnabled(f, t, c)
    requires !f.base.threads[t].pc.PushLocked? && !f.base.threads[t].pc.PopLocked?
    ensures MicroInv(FineDo(f, t, c))
    ensures Enabled(Abs(f), t, c) && Abs(FineDo(f, t, c)) == Do(Abs(f), t, c)
  {
    SameEnabled(f, t, c);
    var g, s := FineDo(f, t, c), Abs(f);
    assert MicroFits(f.micro[t], f.base.threads[t].pc, f.base.ring.ptrs);
    assert f.micro[t] == Outside;
    StepMutex(f.base, t, c);
    assert s.threads[t] == f.base.threads[t];
    assert g.micro == f.micro && g.base.ring == f.base.ring;
    SameInside(f, t, c);
    hide MicroInv, MutexInv, MicroFits, Completed, Full, Drained;
    assert Do(s, t, c).threads == Abs(g).threads;
  }

  /** A step of the holder inside its operation is seen in the ring and in its own thread only. */
  lemma {:induction false} HolderStep(f: Fine, t: nat, g: Fine, th: Thread, m: Micro)
    requires MicroInv(f) && t < |f.micro| && f.base.mutex == Some(t)
    requires g.micro == f.micro[t := m] && g.base.threads == f.base.threads[t := th] && g.base.mutex == f.base.mutex
    requires InCriticalSection(th.pc) && MicroFits(m, th.pc, g.base.ring.ptrs)
    ensures MicroInv(g)
    ensures Abs(g) == g.base.(ring := Completed(g.base.ring, m),
                             threads := Abs(f).threads[t := ThreadOf(th, m, g.base.ring.ptrs)])
    ensures Inside(f) == f.micro[t] && Abs(f).threads[t] == ThreadOf(f.base.threads[t], f.micro[t], f.base.ring.ptrs)
  {
    forall u | 0 <= u < |f.micro| && u != t
      ensures f.micro[u] == Outside
    {
      OthersOutside(f, u);
    }
    assert Abs(g).threads == Abs(f).threads[t := ThreadOf(th, m, g.base.ring.ptrs)];
  }

  lemma {:induction false} HasMutex(f: Fine, t: nat, c: Choice)
    requires MicroInv(f) && FineEnabled(f, t, c) && InCriticalSection(f.base.threads[t].pc)
    ensures f.base.mutex == Some(t) && Inside(f) == f.micro[t]
  {
  }

  /** Storing a pointer is where the push of the other system takes place. */
  lemma {:induction false} PushStarts(f: Fine, t: nat, c: Choice)
    requires MicroInv(f) && FineEnabled(f, t, c)
    requires f.base.threads[t].pc.PushLocked? && f.micro[t] == Outside
    requires Consistent(f.base.ring) && !Full(f.base.ring)
    ensures MicroInv(FineDo(f, t, c))
    ensures Enabled(Abs(f), t, c) && Abs(FineDo(f, t, c)) == Do(Abs(f), t, c)
  {
    hide MicroInv;
    SameEnabled(f, t, c);
    HasMutex(f, t, c);
    var g, p := FineDo(f, t, c), f.base.threads[t].pc.ptr;
    HolderStep(f, t, g, f.base.threads[t].(pc := PushLocked(p)), Stored);
    assert Completed(g.base.ring, Stored) == RingPush(f.base.ring, p);
  }

  lemma {:induction false} PushGoesOn(f: Fine, t: nat, c: Choice)
    requires MicroInv(f) && FineEnabled(f, t, c)
    requires f.base.threads[t].pc.PushLocked? && f.micro[t] != Outside
    ensures MicroInv(FineDo(f, t, c)) && Abs(FineDo(f, t, c)) == Abs(f)
  {
    HasMutex(f, t, c);
    assert MicroFits(f.micro[t], f.base.threads[t].pc, f.base.ring.ptrs);
    hide MicroInv;
    var g, th := FineDo(f, t, c), f.base.threads[t];
    HolderStep(f, t, g, if f.micro[t] == Stored then th else th.(pc := PushStored(th.pc.ptr)),
               if f.micro[t] == Stored then Indexed else Outside);
  }

  /** Advancing `read_idx` is where the pop of the other system takes place. */
  lemma {:induction false} PopStarts(f: Fine, t: nat, c: Choice)
    requires MicroInv(f) && FineEnabled(f, t, c)
    requires f.base.threads[t].pc.PopLocked? && f.micro[t] == Outside
    requires Consistent(f.base.ring) && !Drained(f.base.ring)
    ensures MicroInv(FineDo(f, t, c))
    ensures Enabled(Abs(f), t, c) && Abs(FineDo(f, t, c)) == Do(Abs(f), t, c)
  {
    hide MicroInv;
    SameEnabled(f, t, c);
    HasMutex(f, t, c);
    var g, r := FineDo(f, t, c), f.base.ring;
    HolderStep(f, t, g, f.base.threads[t], Claimed(r.readIdx));
    assert Completed(g.base.ring, Claimed(r.readIdx)) == RingPop(r).0;
  }

  lemma {:induction false} PopGoesOn(f: Fine, t: nat, c: Choice)
    requires MicroInv(f) && FineEnabled(f, t, c)
    requires f.base.threads[t].pc.PopLocked? && f.micro[t] != Outside
    ensures MicroInv(FineDo(f, t, c)) && Abs(FineDo(f, t, c)) == Abs(f)
  {
    HasMutex(f, t, c);
    assert MicroFits(f.micro[t], f.base.threads[t].pc, f.base.ring.ptrs);
    hide MicroInv;
    var g, th, m := FineDo(f, t, c), f.base.threads[t], f.micro[t];
    HolderStep(f, t, g, if m.Claimed? then th else th.(pc := PopTaken(f.base.ring.ptrs[m.idx])),
               if m.Claimed? then Counted(m.idx) else Outside);
  }

  /** The holder of the mutex that has not begun finds the ring consistent, and passes the panic. */
  lemma {:induction false} FoundReady(f: Fine, t: nat, c: Choice, cap: nat, calls: seq<seq<Op>>)
    requires FineInv(f, cap, calls) && FineEnabled(f, t, c)
    requires InCriticalSection(f.base.threads[t].pc) && f.micro[t] == Outside
    ensures Consistent(f.base.ring)
    ensures f.base.threads[t].pc.PushLocked? ==> !Full(f.base.ring)
    ensures f.base.threads[t].pc.PopLocked? ==> !Drained(f.base.ring)
  {
    HasMutex(f, t, c);
    SameEnabled(f, t, c);
    StepCounts(Abs(f), t, c, cap);
    assert Abs(f).threads[t] == f.base.threads[t];
  }

  /** Going on with an operation under way is not seen in the other system. */
  predicate Visible(f: Fine, t: nat)
    requires t < |f.micro|
  {
    f.micro[t] == Outside
  }

  /** Every step of a thread is the step of that thread in the other system, or none when it goes on
      with an operation under way. */
  lemma {:induction false} FineStepRefines(f: Fine, t: nat, c: Choice, cap: nat, calls: seq<seq<Op>>)
    requires FineInv(f, cap, calls) && FineEnabled(f, t, c)
    ensures MicroInv(FineDo(f, t, c))
    ensures if Visible(f, t) then Enabled(Abs(f), t, c) && Abs(FineDo(f, t, c)) == Do(Abs(f), t, c)
            else Abs(FineDo(f, t, c)) == Abs(f)
  {
    hide Inv, Consistent, Full, Drained, Do, Abs, FineDo;
    assert MicroFits(f.micro[t], f.base.threads[t].pc, f.base.ring.ptrs);
    hide MicroInv;
    match f.base.threads[t].pc
    case PushLocked(_) =>
      if Visible(f, t) { FoundReady(f, t, c, cap, calls); PushStarts(f, t, c); } else { PushGoesOn(f, t, c); }
    case PopLocked =>
      if Visible(f, t) { FoundReady(f, t, c, cap, calls); PopStarts(f, t, c); } else { PopGoesOn(f, t, c); }
    case _ => OtherStep(f, t, c);
  }

  lemma {:induction false} StaysBounded(f: Fine, t: nat, c: Choice, cap: nat, calls: seq<seq<Op>>)
    requires FineInv(f, cap, calls) && FineEnabled(f, t, c)
    ensures Bounded(FineDo(f, t, c).base.ring, cap)
  {
    hide Contents, CountInv, OrderInv, LogInv, KnownThreads, CallInv;
    assert MicroFits(f.micro[t], f.base.threads[t].pc, f.base.ring.ptrs);
    if InCriticalSection(f.base.threads[t].pc) {
      HasMutex(f, t, c);
    }
  }

  lemma {:induction false} FineStepInv(f: Fine, t: nat, c: Choice, cap: nat, calls: seq<seq<Op>>)
    requires FineInv(f, cap, calls) && FineEnabled(f, t, c)
    ensures FineInv(FineDo(f, t, c), cap, calls)
  {
    hide Inv, Do, Abs, FineDo, MicroInv, Enabled;
    FineStepRefines(f, t, c, cap, calls);
    StaysBounded(f, t, c, cap, calls);
    if Visible(f, t) {
      StepInv(Abs(f), t, c, cap, calls);
    }
  }

  lemma {:induction false} FineInitInv(cap: nat, calls: seq<seq<Op>>)
    requires 0 < cap < UINT32_MAX
    ensures FineInv(FineInit(cap, calls), cap, calls) && Abs(FineInit(cap, calls)) == Init(cap, calls)
  {
    InitInv(cap, calls);
    assert Abs(FineInit(cap, calls)).threads == Init(cap, calls).threads;
  }

  // ---------------------------------------------------------------- whole runs

  ghost predicate Reaches(coarse: seq<State>, cap: nat, calls: seq<seq<Op>>, s: State) {
    IsRun(coarse, cap, calls) && coarse[|coarse| - 1] == s
  }

  lemma {:induction false} ReachesNext(coarse: seq<State>, cap: nat, calls: seq<seq<Op>>, s: State, t: nat, c: Choice)
    requires Reaches(coarse, cap, calls, s) && Enabled(s, t, c)
    ensures Reaches(coarse + [Do(s, t, c)], cap, calls, Do(s, t, c))
  {
    hide Enabled, Do;
    var more := coarse + [Do(s, t, c)];
    assert Next(s, Do(s, t, c));
    forall i | 0 <= i < |more| - 1
      ensures Next(more[i], more[i + 1])
    {
      if i + 1 < |coarse| {
        assert Next(coarse[i], coarse[i + 1]);
      }
    }
  }

  /** Every interleaving of the single updates is, with the operation under way completed, an
      interleaving in which the ring changes at once. */
  lemma {:induction false} FineRunRefines(run: seq<Fine>, i: nat, cap: nat, calls: seq<seq<Op>>)
    requires 0 < cap < UINT32_MAX && IsFineRun(run, cap, calls) && i < |run|
    ensures FineInv(run[i], cap, calls)
    ensures exists coarse :: Reaches(coarse, cap, calls, Abs(run[i]))
  {
    hide FineInit, Init, FineDo, FineEnabled, Do, Enabled, Abs, Inv, MicroInv;
    if i == 0 {
      FineInitInv(cap, calls);
      assert Reaches([Init(cap, calls)], cap, calls, Abs(run[0]));
    } else {
      FineRunRefines(run, i - 1, cap, calls);
      assert FineNext(run[i - 1], run[i - 1 + 1]);
      var t: nat, c :| FineEnabled(run[i - 1], t, c) && run[i] == FineDo(run[i - 1], t, c);
      var coarse :| Reaches(coarse, cap, calls, Abs(run[i - 1]));
      FineStepInv(run[i - 1], t, c, cap, calls);
      RefinesFurther(run[i - 1], t, c, cap, calls, coarse);
    }
  }

  lemma {:induction false} RefinesFurther(f: Fine, t: nat, c: Choice, cap: nat, calls: seq<seq<Op>>, coarse: seq<State>)
    requires FineInv(f, cap, calls) && FineEnabled(f, t, c) && Reaches(coarse, cap, calls, Abs(f))
    ensures exists more :: Reaches(more, cap, calls, Abs(FineDo(f, t, c)))
  {
    FineStepRefines(f, t, c, cap, calls);
    hide Inv, Do, Abs, FineDo, Enabled, Reaches;
    if Visible(f, t) {
      ReachesNext(coarse, cap, calls, Abs(f), t, c);
    }
  }

  /** Halfway between index and length the indices are one slot further apart than the length says. */
  lemma {:induction false} HalfUpdated(r: Ring, m: Micro, cap: nat)
    requires Consistent(Completed(r, m)) && r.cap == cap && Bounded(r, cap)
    ensures Consistent(r) <==> cap == 1 || !(m.Indexed? || m.Claimed?)
  {
    if m.Stored? {
      NextIndex(r.writeIdx, cap);
    }
  }

  /** The ring as it stands in memory is consistent except, exactly, while the holder of the mutex is
      between the update of an index and that of the length (a ring of one slot has one index only). */
  lemma {:induction false} ConsistentExactly(f: Fine, cap: nat, calls: seq<seq<Op>>)
    requires FineInv(f, cap, calls)
    ensures Consistent(f.base.ring) <==> cap == 1 || !(Inside(f).Indexed? || Inside(f).Claimed?)
    ensures Inside(f) == Outside ==> Abs(f).ring == f.base.ring
  {
    HalfUpdated(f.base.ring, Inside(f), cap);
  }

  /** Taking the ring operations apart blocks no thread and frees none. */
  lemma {:induction false} StuckAlike(f: Fine)
    requires MicroInv(f)
    ensures (forall t: nat :: !FineEnabled(f, t, Go)) <==> Stuck(Abs(f))
  {
    hide FineEnabled, Enabled, MicroInv, Abs;
    forall t: nat
      ensures FineEnabled(f, t, Go) <==> Enabled(Abs(f), t, Go)
    {
      SameEnabled(f, t, Go);
    }
  }

  function StepsLeft(m: Micro): nat {
    if m.Stored? || m.Claimed? then 2 else if m.Indexed? || m.Counted? then 1 else 0
  }

  function FineWork(f: Fine): nat { 3 * Sum(Abs(f).threads, Work) + StepsLeft(Inside(f)) }

  lemma {:induction false} GoesOn(f: Fine, t: nat, c: Choice)
    requires MicroInv(f) && FineEnabled(f, t, c) && !Visible(f, t)
    ensures !FineDo(f, t, c).base.panicked ==> StepsLeft(Inside(FineDo(f, t, c))) < StepsLeft(Inside(f))
  {
    hide Abs, Full, Drained;
    assert MicroFits(f.micro[t], f.base.threads[t].pc, f.base.ring.ptrs);
    HasMutex(f, t, c);
  }

  lemma {:induction false} FineStepWork(f: Fine, t: nat, c: Choice, cap: nat, calls: seq<seq<Op>>)
    requires FineInv(f, cap, calls) && FineEnabled(f, t, c)
    ensures FineWork(FineDo(f, t, c)) < FineWork(f)
  {
    hide Inv, MicroInv, Abs, Do, FineDo, Sum, Enabled, Bounded, Inside, Work;
    FineStepRefines(f, t, c, cap, calls);
    if Visible(f, t) {
      StepWork(Abs(f), t, c, cap, calls);
    } else {
      FineStepInv(f, t, c, cap, calls);
      NoPanic(FineDo(f, t, c), cap, calls);
      GoesOn(f, t, c);
    }
  }

  lemma {:induction false} NoPanic(f: Fine, cap: nat, calls: seq<seq<Op>>)
    requires FineInv(f, cap, calls)
    ensures !f.base.panicked
  {
  }

  lemma {:induction false} FineRunsEnd(run: seq<Fine>, i: nat, cap: nat, calls: seq<seq<Op>>)
    requires 0 < cap < UINT32_MAX && IsFineRun(run, cap, calls) && i < |run|
    ensures i + FineWork(run[i]) <= 15 * Calls(calls)
  {
    hide FineInit, Init, FineDo, FineEnabled, Do, Enabled, Abs, Inv, MicroInv, Sum, Calls;
    if i == 0 {
      FineInitInv(cap, calls);
      InitWork(cap, calls);
      StartsOutside(cap, calls);
    } else {
      FineRunsEnd(run, i - 1, cap, calls);
      FineRunRefines(run, i - 1, cap, calls);
      assert FineNext(run[i - 1], run[i - 1 + 1]);
      var t: nat, c :| FineEnabled(run[i - 1], t, c) && run[i] == FineDo(run[i - 1], t, c);
      FineStepWork(run[i - 1], t, c, cap, calls);
    }
  }

  lemma {:induction false} StartsOutside(cap: nat, calls: seq<seq<Op>>)
    ensures Inside(FineInit(cap, calls)) == Outside
  {
  }

  // ---------------------------------------------------------------- what the mutex is for

  /** Two threads inside at once: both passed the semaphore, neither took the mutex. */
  const Crowd := Fine(State(0, 0, None, Empty(2),
    [Thread(PushLocked(1), [Push(1)], []), Thread(PushLocked(2), [Push(2)], [])], false, [], []), [Outside, Outside])

  function Both(f: Fine): Fine
    requires FineEnabled(f, 0, Go) && FineEnabled(FineDo(f, 0, Go), 1, Go)
  {
    FineDo(FineDo(f, 0, Go), 1, Go)
  }

  /** Without it both store into the same slot: one pointer is lost, and a null pointer takes its place. */
  lemma {:induction false} LostWithoutMutex()
    ensures !MicroInv(Crowd)
    ensures FineEnabled(Crowd, 0, Go) && FineEnabled(FineDo(Crowd, 0, Go), 1, Go)
    ensures var f := Both(Crowd); FineEnabled(f, 0, Go) && FineEnabled(FineDo(f, 0, Go), 1, Go)
    ensures var f := Both(Both(Crowd)); FineEnabled(f, 0, Go) && FineEnabled(FineDo(f, 0, Go), 1, Go)
    ensures var s := Both(Both(Both(Crowd))).base;
      s.accepted == [(0, 1), (1, 2)] && Consistent(s.ring) && Contents(s.ring) == [2, 0]
  {
    assert InCriticalSection(Crowd.base.threads[0].pc);
    var r := Both(Crowd).base.ring;
    assert r.ptrs == [2, 0] && r.writeIdx == 0 && r.len == 0;
    var r2 := Both(Both(Crowd)).base.ring;
    assert r2.ptrs == [2, 0] && r2.writeIdx == 0 && r2.len == 0;
  }
}

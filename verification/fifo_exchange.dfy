/** The two threads of hoardling.c on top of the two FIFOs themselves: every semaphore, mutex and ring
    operation of their calls is a step. Each run refines a run of MarketExchange, where a call is one
    step, so what holds there holds here. */
module FifoExchange {
  import opened Wrappers
  import opened UnsafeFifo
  import opened Orders
  import opened Histories
  import opened ActiveMarkets
  import PtrFifo
  import MarketExchange

  /** The threads' numbers in both FIFOs. */
  const HISTORIES: nat := 0
  const ORDERS: nat := 1

  /** Where the histories thread stands between and inside its calls. */
  datatype HistoriesThread = Idle | Ready(vec: Ptr) | Pushing(vec: Ptr) | Pushed(vec: Ptr) | Popping(vec: Ptr) | Gone

  datatype OrdersThread = Away | Polling | Holding(vec: Ptr) | Filled(vec: Ptr) | Answering(vec: Ptr)

  datatype State = State(
    h: HistoriesThread, o: OrdersThread, request: PtrFifo.State, response: PtrFifo.State,
    memory: map<Ptr, seq<Market>>, filledFrom: seq<Order>, replies: seq<MarketExchange.Reply>)

  datatype Action =
    | Stop | NewVector(vec: Ptr) | CallPush | PushReturns | CallPop | PopReturns
    | CallTryPop | TryPopReturns | Fill(orders: seq<Order>) | CallAnswer | AnswerReturns
    | RequestStep(t: nat, c: PtrFifo.Choice)
    | ResponseStep(t: nat, c: PtrFifo.Choice)

  function Start(): State {
    var fifo := PtrFifo.Init(MarketExchange.CAPACITY, [[], []]);
    State(Idle, Away, fifo, fifo, map[], [], [])
  }

  /** Thread `t` enters a call. */
  function Call(f: PtrFifo.State, t: nat, op: PtrFifo.Op): PtrFifo.State
    requires t < |f.threads|
  {
    f.(threads := f.threads[t := f.threads[t].(todo := f.threads[t].todo + [op])])
  }

  /** The call of thread `t` is over. */
  predicate Returned(f: PtrFifo.State, t: nat) {
    t < |f.threads| && PtrFifo.Finished(f.threads[t]) && f.threads[t].results != []
  }

  function Outcome(th: PtrFifo.Thread): PtrFifo.Result
    requires th.results != []
  {
    th.results[|th.results| - 1]
  }

  predicate Enabled(s: State, a: Action) {
    match a
    case Stop => s.h.Idle?
    case NewVector(_) => s.h.Idle?
    case CallPush => s.h.Ready? && HISTORIES < |s.request.threads|
    case PushReturns => s.h.Pushing? && Returned(s.request, HISTORIES)
    case CallPop => s.h.Pushed? && HISTORIES < |s.response.threads|
    case PopReturns => s.h.Popping? && Returned(s.response, HISTORIES)
    case CallTryPop => s.o.Away? && ORDERS < |s.request.threads|
    case TryPopReturns => s.o.Polling? && Returned(s.request, ORDERS)
    case Fill(_) => s.o.Holding? && s.o.vec in s.memory
    case CallAnswer => s.o.Filled? && ORDERS < |s.response.threads|
    case AnswerReturns => s.o.Answering? && Returned(s.response, ORDERS)
    case RequestStep(t, c) => PtrFifo.Enabled(s.request, t, c)
    case ResponseStep(t, c) => PtrFifo.Enabled(s.response, t, c)
  }

  function Do(s: State, a: Action): State
    requires Enabled(s, a)
  {
    match a
    case Stop => s.(h := Gone)
    case NewVector(v) => s.(h := Ready(v), memory := s.memory[v := []])
    case CallPush => s.(h := Pushing(s.h.vec), request := Call(s.request, HISTORIES, PtrFifo.Push(s.h.vec)))
    case PushReturns => s.(h := if Outcome(s.request.threads[HISTORIES]).Pushed? then Pushed(s.h.vec) else Gone)
    case CallPop => s.(h := Popping(s.h.vec), response := Call(s.response, HISTORIES, PtrFifo.Pop))
    case PopReturns => (
      match Outcome(s.response.threads[HISTORIES])
      case Popped(p) => s.(h := Idle, replies := s.replies + [ReplyOf(s, p)])
      case _ => s.(h := Gone))
    case CallTryPop => s.(o := Polling, request := Call(s.request, ORDERS, PtrFifo.TryPop))
    case TryPopReturns => (
      match Outcome(s.request.threads[ORDERS])
      case Popped(p) => s.(o := Holding(p))
      case _ => s.(o := Away))
    case Fill(orders) =>
      s.(o := Filled(s.o.vec), filledFrom := orders,
         memory := s.memory[s.o.vec := Distinct(s.memory[s.o.vec], Markets(orders))])
    case CallAnswer => s.(o := Answering(s.o.vec), response := Call(s.response, ORDERS, PtrFifo.Push(s.o.vec)))
    case AnswerReturns => s.(o := Away)
    case RequestStep(t, c) => s.(request := PtrFifo.Do(s.request, t, c))
    case ResponseStep(t, c) => s.(response := PtrFifo.Do(s.response, t, c))
  }

  function ReplyOf(s: State, received: Ptr): MarketExchange.Reply
    requires s.h.Popping?
  {
    MarketExchange.Reply(s.h.vec, received, if received in s.memory then s.memory[received] else [], s.filledFrom)
  }

  function Run(actions: seq<Action>): Option<State> {
    if actions == [] then Some(Start())
    else
      match Run(actions[..|actions| - 1])
      case None => None
      case Some(s) =>
        var a := actions[|actions| - 1];
        if Enabled(s, a) then Some(Do(s, a)) else None
  }

  // ---------------------------------------------------------------- one call inside a FIFO

  predicate Fits(pc: PtrFifo.PC, op: PtrFifo.Op) {
    match op
    case Push(p) => pc == PtrFifo.Ready || pc == PtrFifo.PushPermit(p) || pc == PtrFifo.PushLocked(p)
                    || pc == PtrFifo.PushStored(p) || pc == PtrFifo.PushPost(p)
    case _ => pc == PtrFifo.Ready || pc.PopPermit? || pc.PopLocked? || pc.PopTaken? || pc.PopPost?
  }

  predicate Answers(r: PtrFifo.Result, op: PtrFifo.Op) {
    match op
    case Push(p) => r == PtrFifo.Pushed(p) || r.Failed?
    case Pop => r.Popped? || r.Failed?
    case TryPop => r.Popped? || r.Failed? || r.EmptyFifo?
  }

  predicate InCall(th: PtrFifo.Thread, op: PtrFifo.Op) { th.todo == [op] && Fits(th.pc, op) }

  predicate CallDone(th: PtrFifo.Thread, op: PtrFifo.Op) {
    PtrFifo.Finished(th) && th.results != [] && Answers(Outcome(th), op)
  }

  /** The thread is inside or at the end of this call, or has none. */
  predicate At(th: PtrFifo.Thread, op: Option<PtrFifo.Op>) {
    match op
    case None => PtrFifo.Finished(th)
    case Some(op) => InCall(th, op) || CallDone(th, op)
  }

  ghost predicate FifoInv(f: PtrFifo.State, h: Option<PtrFifo.Op>, o: Option<PtrFifo.Op>) {
    && !f.panicked && Consistent(f.ring) && f.ring.cap == MarketExchange.CAPACITY
    && PtrFifo.CountInv(f, MarketExchange.CAPACITY) && PtrFifo.MutexInv(f)
    && |f.threads| == 2 && At(f.threads[HISTORIES], h) && At(f.threads[ORDERS], o)
  }

  lemma {:induction false} MoveFits(f: PtrFifo.State, t: nat, c: PtrFifo.Choice, op: Option<PtrFifo.Op>)
    requires PtrFifo.Enabled(f, t, c) && At(f.threads[t], op) && !PtrFifo.Share(f, t, c).panicked
    ensures op.Some? && InCall(f.threads[t], op.value) && At(PtrFifo.Move(f, t, c), op)
  {
  }

  lemma {:induction false} FifoStep(f: PtrFifo.State, h: Option<PtrFifo.Op>, o: Option<PtrFifo.Op>,
                                    t: nat, c: PtrFifo.Choice)
    requires FifoInv(f, h, o) && PtrFifo.Enabled(f, t, c)
    ensures FifoInv(PtrFifo.Do(f, t, c), h, o) && PtrFifo.QueueStep(f, PtrFifo.Do(f, t, c), t)
  {
    hide Consistent, PtrFifo.CountInv, PtrFifo.MutexInv, At, PtrFifo.Move, PtrFifo.Share, PtrFifo.QueueStep;
    PtrFifo.StepMutex(f, t, c);
    PtrFifo.StepCounts(f, t, c, MarketExchange.CAPACITY);
    PtrFifo.StepRefinesQueue(f, t, c);
    StaysUp(f, t, c);
    MoveFits(f, t, c, if t == HISTORIES then h else o);
  }

  lemma {:induction false} StaysUp(f: PtrFifo.State, t: nat, c: PtrFifo.Choice)
    requires PtrFifo.Enabled(f, t, c)
    ensures PtrFifo.Do(f, t, c).panicked == PtrFifo.Share(f, t, c).panicked
    ensures |PtrFifo.Do(f, t, c).threads| == |f.threads|
    ensures forall u :: 0 <= u < |f.threads| ==>
              PtrFifo.Do(f, t, c).threads[u] == if u == t then PtrFifo.Move(f, t, c) else f.threads[u]
  {
  }

  lemma {:induction false} FifoCall(f: PtrFifo.State, h: Option<PtrFifo.Op>, o: Option<PtrFifo.Op>, t: nat, op: PtrFifo.Op)
    requires FifoInv(f, h, o) && t < 2 && (if t == HISTORIES then h else o) == None
    ensures var f' := Call(f, t, op);
      && FifoInv(f', if t == HISTORIES then Some(op) else h, if t == ORDERS then Some(op) else o)
      && f'.ring == f.ring && InCall(f'.threads[t], op) && f'.threads[1 - t] == f.threads[1 - t]
      && f'.threads[t].pc == PtrFifo.Ready
  {
    hide Consistent, PtrFifo.Sum;
    PtrFifo.SumUpdate(f.threads, t, Call(f, t, op).threads[t], PtrFifo.PushSlots);
    PtrFifo.SumUpdate(f.threads, t, Call(f, t, op).threads[t], PtrFifo.PopSlots);
  }

  lemma {:induction false} FifoStart()
    ensures FifoInv(PtrFifo.Init(MarketExchange.CAPACITY, [[], []]), None, None)
    ensures Contents(PtrFifo.Init(MarketExchange.CAPACITY, [[], []]).ring) == []
  {
    hide PtrFifo.CallInv, PtrFifo.LogInv, PtrFifo.OrderInv, PtrFifo.CountInv;
    PtrFifo.InitInv(MarketExchange.CAPACITY, [[], []]);
    EmptyIsEmpty(MarketExchange.CAPACITY);
  }

  // ---------------------------------------------------------------- the invariant and the abstraction

  function PushCall(h: HistoriesThread): Option<PtrFifo.Op> { if h.Pushing? then Some(PtrFifo.Push(h.vec)) else None }

  function PopCall(h: HistoriesThread): Option<PtrFifo.Op> { if h.Popping? then Some(PtrFifo.Pop) else None }

  function TryPopCall(o: OrdersThread): Option<PtrFifo.Op> { if o.Polling? then Some(PtrFifo.TryPop) else None }

  function AnswerCall(o: OrdersThread): Option<PtrFifo.Op> {
    if o.Answering? then Some(PtrFifo.Push(o.vec)) else None
  }

  ghost predicate Inv(s: State) {
    && FifoInv(s.request, PushCall(s.h), TryPopCall(s.o))
    && FifoInv(s.response, PopCall(s.h), AnswerCall(s.o))
  }

  /** The pointer the call has put into the ring already, whether or not it has returned. */
  predicate HasPut(th: PtrFifo.Thread) {
    th.pc.PushStored? || th.pc.PushPost? || (PtrFifo.Finished(th) && th.results != [] && Outcome(th).Pushed?)
  }

  predicate HasFailed(th: PtrFifo.Thread) { PtrFifo.Finished(th) && th.results != [] && Outcome(th).Failed? }

  /** The pointer the call has taken out of the ring already. */
  function HasTaken(th: PtrFifo.Thread): Option<Ptr> {
    if th.pc.PopTaken? || th.pc.PopPost? then Some(th.pc.ptr)
    else if PtrFifo.Finished(th) && th.results != [] && Outcome(th).Popped? then Some(Outcome(th).ptr)
    else None
  }

  function AbsH(h: HistoriesThread, pushing: PtrFifo.Thread, popping: PtrFifo.Thread): MarketExchange.HistoriesThread {
    match h
    case Idle => MarketExchange.Working
    case Ready(v) => MarketExchange.Requesting(v)
    case Pushing(v) =>
      if HasPut(pushing) then MarketExchange.Waiting(v)
      else if HasFailed(pushing) then MarketExchange.Quit
      else MarketExchange.Requesting(v)
    case Pushed(v) => MarketExchange.Waiting(v)
    case Popping(v) =>
      if HasTaken(popping).Some? then MarketExchange.Working
      else if HasFailed(popping) then MarketExchange.Quit
      else MarketExchange.Waiting(v)
    case Gone => MarketExchange.Quit
  }

  function AbsO(o: OrdersThread, polling: PtrFifo.Thread, answering: PtrFifo.Thread): MarketExchange.OrdersThread {
    match o
    case Away => MarketExchange.Busy
    case Polling => if HasTaken(polling).Some? then MarketExchange.Filling(HasTaken(polling).value) else MarketExchange.Busy
    case Holding(v) => MarketExchange.Filling(v)
    case Filled(v) => MarketExchange.Responding(v)
    case Answering(v) =>
      if HasPut(answering) || HasFailed(answering) then MarketExchange.Busy else MarketExchange.Responding(v)
  }

  /** A reply that has been taken out of the ring but not returned yet. */
  function Pending(s: State): seq<MarketExchange.Reply>
    requires |s.response.threads| == 2
  {
    if s.h.Popping? && HasTaken(s.response.threads[HISTORIES]).Some?
    then [ReplyOf(s, HasTaken(s.response.threads[HISTORIES]).value)] else []
  }

  ghost function Abs(s: State): MarketExchange.State
    requires Inv(s)
  {
    MarketExchange.State(
      AbsH(s.h, s.request.threads[HISTORIES], s.response.threads[HISTORIES]),
      AbsO(s.o, s.request.threads[ORDERS], s.response.threads[ORDERS]),
      Contents(s.request.ring), Contents(s.response.ring), s.memory, s.filledFrom, s.replies + Pending(s))
  }

  /** One step with atomic calls, of which `seen` is visible, or none. */
  ghost predicate Refines(s: MarketExchange.State, s': MarketExchange.State, seen: seq<MarketExchange.Action>) {
    || (s' == s && seen == [])
    || exists a :: MarketExchange.Enabled(s, a) && s' == MarketExchange.Do(s, a) && seen == MarketExchange.VisibleOf(a)
  }

  lemma {:induction false} ByAction(s: MarketExchange.State, s': MarketExchange.State, a: MarketExchange.Action)
    requires MarketExchange.Enabled(s, a) && s' == MarketExchange.Do(s, a)
    ensures Refines(s, s', MarketExchange.VisibleOf(a))
  {
  }

  lemma {:induction false} StepInv(s: State, a: Action)
    requires Inv(s) && Enabled(s, a)
    ensures Inv(Do(s, a))
  {
    hide Consistent, PtrFifo.CountInv, PtrFifo.MutexInv, PtrFifo.Do, PtrFifo.Enabled, PtrFifo.QueueStep;
    hide Call, InCall, Fits, Distinct, Markets, ReplyOf;
    match a
    case CallPush => FifoCall(s.request, None, TryPopCall(s.o), HISTORIES, PtrFifo.Push(s.h.vec));
    case CallPop => FifoCall(s.response, None, AnswerCall(s.o), HISTORIES, PtrFifo.Pop);
    case CallTryPop => FifoCall(s.request, PushCall(s.h), None, ORDERS, PtrFifo.TryPop);
    case CallAnswer => FifoCall(s.response, PopCall(s.h), None, ORDERS, PtrFifo.Push(s.o.vec));
    case RequestStep(t, c) => FifoStep(s.request, PushCall(s.h), TryPopCall(s.o), t, c);
    case ResponseStep(t, c) => FifoStep(s.response, PopCall(s.h), AnswerCall(s.o), t, c);
    case _ =>
  }

  // ---------------------------------------------------------------- each step refines one step or none

  /** The semaphore wait for the response fails. */
  const GiveUp := ResponseStep(HISTORIES, PtrFifo.Fail)

  /** What the step is in a run with atomic calls, if it is visible there. */
  function SeenOf(a: Action): seq<MarketExchange.Action> {
    match a
    case Stop => [MarketExchange.Stop]
    case NewVector(v) => [MarketExchange.NewVector(v)]
    case Fill(orders) => [MarketExchange.Fill(orders)]
    case ResponseStep(t, c) => if t == HISTORIES && c.Fail? then [MarketExchange.GiveUpResponse] else []
    case _ => []
  }

  function Seen(actions: seq<Action>): seq<MarketExchange.Action> {
    if actions == [] then [] else Seen(actions[..|actions| - 1]) + SeenOf(actions[|actions| - 1])
  }

  lemma {:induction false} GiveUpIsSeen(actions: seq<Action>)
    ensures MarketExchange.GiveUpResponse in Seen(actions) <==> GiveUp in actions
  {
    if actions != [] {
      var n := |actions| - 1;
      GiveUpIsSeen(actions[..n]);
      assert actions == actions[..n] + [actions[n]];
      assert MarketExchange.GiveUpResponse in SeenOf(actions[n]) <==> actions[n] == GiveUp;
    }
  }

  /** One step of a push call: it puts the pointer into a ring with room, fails, or does neither. */
  lemma {:induction false} PushMoves(f: PtrFifo.State, t: nat, c: PtrFifo.Choice, p: Ptr)
    requires PtrFifo.Enabled(f, t, c) && InCall(f.threads[t], PtrFifo.Push(p))
    requires Consistent(f.ring) && Consistent(PtrFifo.Do(f, t, c).ring) && PtrFifo.QueueStep(f, PtrFifo.Do(f, t, c), t)
    ensures var th, th' := f.threads[t], PtrFifo.Do(f, t, c).threads[t];
      var q, q' := Contents(f.ring), Contents(PtrFifo.Do(f, t, c).ring);
      && !HasFailed(th)
      && (|| (!HasPut(th) && HasPut(th') && !HasFailed(th') && q' == q + [p] && |q| < f.ring.cap)
          || (HasPut(th') == HasPut(th) && !HasFailed(th') && q' == q)
          || (!HasPut(th) && !HasPut(th') && HasFailed(th') && q' == q))
  {
    hide Consistent, Contents;
  }

  /** One step of a pop call: it takes the oldest pointer, fails, or does neither. */
  lemma {:induction false} PopMoves(f: PtrFifo.State, t: nat, c: PtrFifo.Choice, op: PtrFifo.Op)
    requires PtrFifo.Enabled(f, t, c) && !op.Push? && InCall(f.threads[t], op)
    requires Consistent(f.ring) && Consistent(PtrFifo.Do(f, t, c).ring) && PtrFifo.QueueStep(f, PtrFifo.Do(f, t, c), t)
    ensures var th, th' := f.threads[t], PtrFifo.Do(f, t, c).threads[t];
      var q, q' := Contents(f.ring), Contents(PtrFifo.Do(f, t, c).ring);
      && !HasFailed(th) && (HasFailed(th') <==> c.Fail?)
      && (|| (HasTaken(th) == None && q != [] && HasTaken(th') == Some(q[0]) && !HasFailed(th') && q' == q[1..])
          || (HasTaken(th') == HasTaken(th) && !HasFailed(th') && q' == q)
          || (HasTaken(th) == None && HasTaken(th') == None && HasFailed(th') && q' == q))
  {
    hide Consistent;
    if f.threads[t].pc.PopLocked? {
      PopTakesOldest(f.ring);
    }
    hide Contents;
  }

  lemma {:induction false} RequestByHistories(s: State, c: PtrFifo.Choice)
    requires Inv(s) && Enabled(s, RequestStep(HISTORIES, c))
    ensures Inv(Do(s, RequestStep(HISTORIES, c)))
    ensures Refines(Abs(s), Abs(Do(s, RequestStep(HISTORIES, c))), [])
  {
    hide Consistent, Contents, PtrFifo.CountInv, PtrFifo.MutexInv;
    hide PtrFifo.Do, PtrFifo.Enabled, PtrFifo.QueueStep;
    hide HasPut, HasFailed, HasTaken, Refines;
    var f, s' := s.request, Do(s, RequestStep(HISTORIES, c));
    StepInv(s, RequestStep(HISTORIES, c));
    FifoStep(f, PushCall(s.h), TryPopCall(s.o), HISTORIES, c);
    Moving(f, HISTORIES, c, PushCall(s.h));
    OtherStays(f, HISTORIES, c);
    PushMoves(f, HISTORIES, c, s.h.vec);
    var th, th' := f.threads[HISTORIES], s'.request.threads[HISTORIES];
    if !HasPut(th) && HasPut(th') {
      ByAction(Abs(s), Abs(s'), MarketExchange.PushRequest);
    } else if HasFailed(th') {
      ByAction(Abs(s), Abs(s'), MarketExchange.GiveUpRequest);
    } else {
      Stutters(Abs(s), Abs(s'));
    }
  }

  lemma {:induction false} Stutters(s: MarketExchange.State, s': MarketExchange.State)
    requires s == s'
    ensures Refines(s, s', [])
  {
  }

  lemma {:induction false} Moving(f: PtrFifo.State, t: nat, c: PtrFifo.Choice, op: Option<PtrFifo.Op>)
    requires PtrFifo.Enabled(f, t, c) && At(f.threads[t], op)
    ensures op.Some? && InCall(f.threads[t], op.value)
  {
  }

  lemma {:induction false} OtherStays(f: PtrFifo.State, t: nat, c: PtrFifo.Choice)
    requires PtrFifo.Enabled(f, t, c) && |f.threads| == 2
    ensures |PtrFifo.Do(f, t, c).threads| == 2 && PtrFifo.Do(f, t, c).threads[1 - t] == f.threads[1 - t]
  {
  }

  lemma {:induction false} RequestByOrders(s: State, c: PtrFifo.Choice)
    requires Inv(s) && Enabled(s, RequestStep(ORDERS, c))
    ensures Inv(Do(s, RequestStep(ORDERS, c)))
    ensures Refines(Abs(s), Abs(Do(s, RequestStep(ORDERS, c))), [])
  {
    hide Consistent, Contents, PtrFifo.CountInv, PtrFifo.MutexInv;
    hide PtrFifo.Do, PtrFifo.Enabled, PtrFifo.QueueStep;
    hide HasPut, HasFailed, HasTaken, Refines;
    var f, s' := s.request, Do(s, RequestStep(ORDERS, c));
    StepInv(s, RequestStep(ORDERS, c));
    FifoStep(f, PushCall(s.h), TryPopCall(s.o), ORDERS, c);
    Moving(f, ORDERS, c, TryPopCall(s.o));
    OtherStays(f, ORDERS, c);
    PopMoves(f, ORDERS, c, PtrFifo.TryPop);
    var th, th' := f.threads[ORDERS], s'.request.threads[ORDERS];
    if HasTaken(th) == None && HasTaken(th').Some? {
      ByAction(Abs(s), Abs(s'), MarketExchange.TryPopRequest);
    } else {
      Stutters(Abs(s), Abs(s'));
    }
  }

  lemma {:induction false} ResponseByHistories(s: State, c: PtrFifo.Choice)
    requires Inv(s) && Enabled(s, ResponseStep(HISTORIES, c))
    ensures Inv(Do(s, ResponseStep(HISTORIES, c)))
    ensures Refines(Abs(s), Abs(Do(s, ResponseStep(HISTORIES, c))), SeenOf(ResponseStep(HISTORIES, c)))
  {
    hide Consistent, Contents, PtrFifo.CountInv, PtrFifo.MutexInv;
    hide PtrFifo.Do, PtrFifo.Enabled, PtrFifo.QueueStep;
    hide HasPut, HasFailed, HasTaken, Refines;
    var f, s' := s.response, Do(s, ResponseStep(HISTORIES, c));
    StepInv(s, ResponseStep(HISTORIES, c));
    FifoStep(f, PopCall(s.h), AnswerCall(s.o), HISTORIES, c);
    Moving(f, HISTORIES, c, PopCall(s.h));
    OtherStays(f, HISTORIES, c);
    PopMoves(f, HISTORIES, c, PtrFifo.Pop);
    var th, th' := f.threads[HISTORIES], s'.response.threads[HISTORIES];
    assert s.replies + [] == s.replies;
    if HasTaken(th) == None && HasTaken(th').Some? {
      ByAction(Abs(s), Abs(s'), MarketExchange.PopResponse);
    } else if HasFailed(th') {
      ByAction(Abs(s), Abs(s'), MarketExchange.GiveUpResponse);
    } else {
      Stutters(Abs(s), Abs(s'));
    }
  }

  lemma {:induction false} ResponseByOrders(s: State, c: PtrFifo.Choice)
    requires Inv(s) && Enabled(s, ResponseStep(ORDERS, c))
    ensures Inv(Do(s, ResponseStep(ORDERS, c)))
    ensures Refines(Abs(s), Abs(Do(s, ResponseStep(ORDERS, c))), [])
  {
    hide Consistent, Contents, PtrFifo.CountInv, PtrFifo.MutexInv;
    hide PtrFifo.Do, PtrFifo.Enabled, PtrFifo.QueueStep;
    hide HasPut, HasFailed, HasTaken, Refines;
    var f, s' := s.response, Do(s, ResponseStep(ORDERS, c));
    StepInv(s, ResponseStep(ORDERS, c));
    FifoStep(f, PopCall(s.h), AnswerCall(s.o), ORDERS, c);
    Moving(f, ORDERS, c, AnswerCall(s.o));
    OtherStays(f, ORDERS, c);
    PushMoves(f, ORDERS, c, s.o.vec);
    var th, th' := f.threads[ORDERS], s'.response.threads[ORDERS];
    if !HasPut(th) && HasPut(th') {
      ByAction(Abs(s), Abs(s'), MarketExchange.PushResponse);
    } else if HasFailed(th') {
      ByAction(Abs(s), Abs(s'), MarketExchange.GiveUpResponding);
    } else {
      Stutters(Abs(s), Abs(s'));
    }
  }

  /** Entering a call and coming back from it are not seen from outside. */
  lemma {:induction false} JustCalled(th: PtrFifo.Thread, op: PtrFifo.Op)
    requires InCall(th, op) && th.pc == PtrFifo.Ready
    ensures !HasPut(th) && !HasFailed(th) && HasTaken(th) == None
  {
  }

  lemma {:induction false} CallPushStutters(s: State)
    requires Inv(s) && Enabled(s, CallPush)
    ensures Inv(Do(s, CallPush)) && Abs(Do(s, CallPush)) == Abs(s)
  {
    hide Consistent, Contents, PtrFifo.CountInv, PtrFifo.MutexInv, Call, HasPut, HasFailed, HasTaken;
    StepInv(s, CallPush);
    FifoCall(s.request, None, TryPopCall(s.o), HISTORIES, PtrFifo.Push(s.h.vec));
    JustCalled(Do(s, CallPush).request.threads[HISTORIES], PtrFifo.Push(s.h.vec));
  }

  lemma {:induction false} CallPopStutters(s: State)
    requires Inv(s) && Enabled(s, CallPop)
    ensures Inv(Do(s, CallPop)) && Abs(Do(s, CallPop)) == Abs(s)
  {
    hide Consistent, Contents, PtrFifo.CountInv, PtrFifo.MutexInv, Call, HasPut, HasFailed, HasTaken;
    StepInv(s, CallPop);
    FifoCall(s.response, None, AnswerCall(s.o), HISTORIES, PtrFifo.Pop);
    JustCalled(Do(s, CallPop).response.threads[HISTORIES], PtrFifo.Pop);
  }

  lemma {:induction false} CallTryPopStutters(s: State)
    requires Inv(s) && Enabled(s, CallTryPop)
    ensures Inv(Do(s, CallTryPop)) && Abs(Do(s, CallTryPop)) == Abs(s)
  {
    hide Consistent, Contents, PtrFifo.CountInv, PtrFifo.MutexInv, Call, HasPut, HasFailed, HasTaken;
    StepInv(s, CallTryPop);
    FifoCall(s.request, PushCall(s.h), None, ORDERS, PtrFifo.TryPop);
    JustCalled(Do(s, CallTryPop).request.threads[ORDERS], PtrFifo.TryPop);
  }

  lemma {:induction false} CallAnswerStutters(s: State)
    requires Inv(s) && Enabled(s, CallAnswer)
    ensures Inv(Do(s, CallAnswer)) && Abs(Do(s, CallAnswer)) == Abs(s)
  {
    hide Consistent, Contents, PtrFifo.CountInv, PtrFifo.MutexInv, Call, HasPut, HasFailed, HasTaken;
    StepInv(s, CallAnswer);
    FifoCall(s.response, PopCall(s.h), None, ORDERS, PtrFifo.Push(s.o.vec));
    JustCalled(Do(s, CallAnswer).response.threads[ORDERS], PtrFifo.Push(s.o.vec));
  }

  lemma {:induction false} JustReturned(th: PtrFifo.Thread, op: PtrFifo.Op)
    requires At(th, Some(op)) && PtrFifo.Finished(th)
    ensures th.results != [] && Answers(Outcome(th), op)
    ensures HasPut(th) <==> Outcome(th).Pushed?
    ensures HasFailed(th) <==> Outcome(th).Failed?
    ensures HasTaken(th) == if Outcome(th).Popped? then Some(Outcome(th).ptr) else None
  {
  }

  lemma {:induction false} PushReturnsStutters(s: State)
    requires Inv(s) && Enabled(s, PushReturns)
    ensures Inv(Do(s, PushReturns)) && Abs(Do(s, PushReturns)) == Abs(s)
  {
    hide Consistent, Contents, PtrFifo.CountInv, PtrFifo.MutexInv, HasPut, HasFailed, HasTaken;
    StepInv(s, PushReturns);
    JustReturned(s.request.threads[HISTORIES], PtrFifo.Push(s.h.vec));
  }

  lemma {:induction false} PopReturnsStutters(s: State)
    requires Inv(s) && Enabled(s, PopReturns)
    ensures Inv(Do(s, PopReturns)) && Abs(Do(s, PopReturns)) == Abs(s)
  {
    hide Consistent, Contents, PtrFifo.CountInv, PtrFifo.MutexInv, HasPut, HasFailed, HasTaken;
    StepInv(s, PopReturns);
    JustReturned(s.response.threads[HISTORIES], PtrFifo.Pop);
    assert s.replies + [] == s.replies;
    assert Do(s, PopReturns).replies + [] == Do(s, PopReturns).replies;
  }

  lemma {:induction false} TryPopReturnsStutters(s: State)
    requires Inv(s) && Enabled(s, TryPopReturns)
    ensures Inv(Do(s, TryPopReturns)) && Abs(Do(s, TryPopReturns)) == Abs(s)
  {
    hide Consistent, Contents, PtrFifo.CountInv, PtrFifo.MutexInv, HasPut, HasFailed, HasTaken;
    StepInv(s, TryPopReturns);
    JustReturned(s.request.threads[ORDERS], PtrFifo.TryPop);
  }

  lemma {:induction false} AnswerReturnsStutters(s: State)
    requires Inv(s) && Enabled(s, AnswerReturns)
    ensures Inv(Do(s, AnswerReturns)) && Abs(Do(s, AnswerReturns)) == Abs(s)
  {
    hide Consistent, Contents, PtrFifo.CountInv, PtrFifo.MutexInv, HasPut, HasFailed, HasTaken;
    StepInv(s, AnswerReturns);
    JustReturned(s.response.threads[ORDERS], PtrFifo.Push(s.o.vec));
  }

  lemma {:induction false} OneOfTwo(s: State, t: nat, c: PtrFifo.Choice)
    requires Inv(s) && (Enabled(s, RequestStep(t, c)) || Enabled(s, ResponseStep(t, c)))
    ensures t == HISTORIES || t == ORDERS
  {
  }

  lemma {:induction false} StopRefines(s: State)
    requires Inv(s) && Enabled(s, Stop)
    ensures Inv(Do(s, Stop)) && Refines(Abs(s), Abs(Do(s, Stop)), SeenOf(Stop))
  {
    hide Consistent, Contents, PtrFifo.CountInv, PtrFifo.MutexInv, Refines;
    ByAction(Abs(s), Abs(Do(s, Stop)), MarketExchange.Stop);
  }

  lemma {:induction false} NewVectorRefines(s: State, v: Ptr)
    requires Inv(s) && Enabled(s, NewVector(v))
    ensures Inv(Do(s, NewVector(v))) && Refines(Abs(s), Abs(Do(s, NewVector(v))), SeenOf(NewVector(v)))
  {
    hide Consistent, Contents, PtrFifo.CountInv, PtrFifo.MutexInv, Refines;
    ByAction(Abs(s), Abs(Do(s, NewVector(v))), MarketExchange.NewVector(v));
  }

  lemma {:induction false} FillRefines(s: State, orders: seq<Order>)
    requires Inv(s) && Enabled(s, Fill(orders)) && MarketExchange.PlaceInv(Abs(s))
    ensures Inv(Do(s, Fill(orders))) && Refines(Abs(s), Abs(Do(s, Fill(orders))), SeenOf(Fill(orders)))
  {
    hide Consistent, Contents, PtrFifo.CountInv, PtrFifo.MutexInv, Refines;
    NothingPending(s);
    ByAction(Abs(s), Abs(Do(s, Fill(orders))), MarketExchange.Fill(orders));
  }

  lemma {:induction false} StepRefines(s: State, a: Action)
    requires Inv(s) && Enabled(s, a) && MarketExchange.PlaceInv(Abs(s))
    ensures Inv(Do(s, a)) && Refines(Abs(s), Abs(Do(s, a)), SeenOf(a))
  {
    hide Inv, Abs, Do, Refines, Enabled, MarketExchange.PlaceInv;
    match a {
      case Stop => StopRefines(s);
      case NewVector(v) => NewVectorRefines(s, v);
      case Fill(orders) => FillRefines(s, orders);
      case RequestStep(t, c) =>
        OneOfTwo(s, t, c);
        if t == HISTORIES { RequestByHistories(s, c); } else { RequestByOrders(s, c); }
      case ResponseStep(t, c) =>
        OneOfTwo(s, t, c);
        if t == HISTORIES { ResponseByHistories(s, c); } else { ResponseByOrders(s, c); }
      case CallPush => CallPushStutters(s);
      case CallPop => CallPopStutters(s);
      case CallTryPop => CallTryPopStutters(s);
      case CallAnswer => CallAnswerStutters(s);
      case PushReturns => PushReturnsStutters(s);
      case PopReturns => PopReturnsStutters(s);
      case TryPopReturns => TryPopReturnsStutters(s);
      case AnswerReturns => AnswerReturnsStutters(s);
    }
    if Abs(Do(s, a)) == Abs(s) {
      Stutters(Abs(s), Abs(Do(s, a)));
    }
  }

  /** No reply is on its way while the orders thread holds a vector. */
  lemma {:induction false} NothingPending(s: State)
    requires Inv(s) && MarketExchange.PlaceInv(Abs(s)) && s.o.Holding?
    ensures Pending(s) == []
  {
    hide Consistent, Contents, PtrFifo.CountInv, PtrFifo.MutexInv;
    var a := Abs(s);
    assert MarketExchange.Elsewhere(a)[|a.request|] == s.o.vec;
  }

  // ---------------------------------------------------------------- whole runs

  ghost predicate IsAbstractRun(actions: seq<MarketExchange.Action>, s: MarketExchange.State) {
    MarketExchange.Run(actions) == Some(s)
  }

  /** An abstract run that ends there, in which just this is visible. */
  ghost predicate Matches(outer: seq<MarketExchange.Action>, s: MarketExchange.State, seen: seq<MarketExchange.Action>) {
    IsAbstractRun(outer, s) && MarketExchange.Visible(outer) == seen
  }

  lemma {:induction false} Extends(outer: seq<MarketExchange.Action>, s: MarketExchange.State,
                                   before: seq<MarketExchange.Action>, s': MarketExchange.State,
                                   now: seq<MarketExchange.Action>)
    requires Matches(outer, s, before) && Refines(s, s', now)
    ensures exists more :: Matches(more, s', before + now)
  {
    if s' == s && now == [] {
      assert before + now == before;
      assert Matches(outer, s', before + now);
    } else {
      var a :| MarketExchange.Enabled(s, a) && s' == MarketExchange.Do(s, a) && now == MarketExchange.VisibleOf(a);
      MarketExchange.RunOneMore(outer, a);
      assert (outer + [a])[..|outer|] == outer;
      assert Matches(outer + [a], s', before + now);
    }
  }

  lemma {:induction false} ExtendsRun(outer: seq<MarketExchange.Action>, s: State, before: seq<MarketExchange.Action>, a: Action)
    requires Inv(s) && Enabled(s, a) && Matches(outer, Abs(s), before)
    ensures MarketExchange.PlaceInv(Abs(s)) && Inv(Do(s, a))
    ensures exists more :: Matches(more, Abs(Do(s, a)), before + SeenOf(a))
  {
    hide Inv, Abs, Do, Enabled, Refines;
    MarketExchange.RunInv(outer);
    hide MarketExchange.PlaceInv, MarketExchange.ContentInv, MarketExchange.ReplyInv;
    StepRefines(s, a);
    Extends(outer, Abs(s), before, Abs(Do(s, a)), SeenOf(a));
  }

  /** Every interleaving of the two threads' semaphore, mutex and ring operations is, seen through the
      abstraction, a run in which each call is one step, with the same vectors, fills, stops and losses
      of patience in the same order. */
  lemma {:induction false} RunRefines(actions: seq<Action>)
    requires Run(actions).Some?
    ensures Inv(Run(actions).value)
    ensures exists outer :: Matches(outer, Abs(Run(actions).value), Seen(actions))
  {
    hide Inv, Abs, Do, Enabled, Matches, SeenOf;
    if actions == [] {
      StartIsAbstract();
      assert Matches([], Abs(Run(actions).value), Seen(actions));
    } else {
      var n := |actions| - 1;
      RunRefines(actions[..n]);
      var s := Run(actions[..n]).value;
      var before :| Matches(before, Abs(s), Seen(actions[..n]));
      ExtendsRun(before, s, Seen(actions[..n]), actions[n]);
      var outer :| Matches(outer, Abs(Do(s, actions[n])), Seen(actions[..n]) + SeenOf(actions[n]));
      assert Matches(outer, Abs(Run(actions).value), Seen(actions));
    }
  }

  lemma {:induction false} StartIsAbstract()
    ensures Inv(Start()) && Matches([], Abs(Start()), [])
  {
    hide Consistent, PtrFifo.CountInv, PtrFifo.MutexInv, Contents;
    FifoStart();
    assert Start().replies + [] == [];
  }

  /** So in every such run: nothing panics; each reply is the vector asked for, with the active markets
      of the orders it was filled from; and while the orders thread holds a vector it is the one the
      histories thread waits for, or that thread has quit. */
  lemma {:induction false} ExchangeIsSafe(actions: seq<Action>)
    requires Run(actions).Some?
    ensures var s := Run(actions).value;
      && Inv(s) && !s.request.panicked && !s.response.panicked
      && (forall i :: 0 <= i < |s.replies| ==>
            s.replies[i].requested == s.replies[i].received
            && s.replies[i].markets == Distinct([], Markets(s.replies[i].orders)))
      && (s.o.Holding? || s.o.Filled? ==> Abs(s).h == MarketExchange.Waiting(s.o.vec) || Abs(s).h.Quit?)
  {
    RunRefines(actions);
    var s := Run(actions).value;
    var outer :| Matches(outer, Abs(s), Seen(actions));
    MarketExchange.RunInv(outer);
    MarketExchange.NoSharedAccess(outer);
    hide Run, MarketExchange.Run, Consistent, Contents, PtrFifo.CountInv;
    assert forall i :: 0 <= i < |s.replies| ==> s.replies[i] == Abs(s).replies[i];
  }
}

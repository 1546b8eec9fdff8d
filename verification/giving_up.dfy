/** What comes of giving up the wait for the response, in every interleaving of the two threads'
    semaphore, mutex and ring operations. */
module GivingUp {
  import opened Wrappers
  import opened UnsafeFifo
  import opened FifoExchange
  import PtrFifo
  import MarketExchange

  /** The vector is worked on by one thread after the other left exactly in the runs in which the wait
      for the response failed; in all others its owner is waiting for it. */
  lemma {:induction false} SharedExactly(actions: seq<Action>)
    requires Run(actions).Some?
    ensures Inv(Run(actions).value)
    ensures var s := Abs(Run(actions).value);
      && (MarketExchange.Shared(s) <==> !s.o.Busy? && GiveUp in actions)
      && (GiveUp !in actions && !s.o.Busy? ==> s.h == MarketExchange.Waiting(s.o.vec))
  {
    RunRefines(actions);
    hide Run, MarketExchange.Run, Inv, Abs, MarketExchange.Shared;
    var outer :| Matches(outer, Abs(Run(actions).value), Seen(actions));
    MarketExchange.SharedExactly(outer);
    MarketExchange.VisibleIsEnough(outer);
    GiveUpIsSeen(actions);
  }

  lemma {:induction false} RunOneMore(actions: seq<Action>, a: Action)
    requires Run(actions).Some?
    ensures Run(actions + [a]) == if Enabled(Run(actions).value, a) then Some(Do(Run(actions).value, a)) else None
  {
    assert (actions + [a])[..|actions|] == actions;
  }

  lemma {:induction false} RunPlaces(actions: seq<Action>)
    requires Run(actions).Some?
    ensures Inv(Run(actions).value) && MarketExchange.PlaceInv(Abs(Run(actions).value))
  {
    RunRefines(actions);
    hide Run, MarketExchange.Run, Inv, Abs;
    var outer :| Matches(outer, Abs(Run(actions).value), Seen(actions));
    MarketExchange.RunInv(outer);
  }

  // ---------------------------------------------------------------- an answered request

  /** The histories thread has quit and its request has been answered. */
  predicate Settled(s: MarketExchange.State) { s.h.Quit? && !MarketExchange.Unanswered(s) }

  lemma {:induction false} SettledStays(s: MarketExchange.State, s': MarketExchange.State, seen: seq<MarketExchange.Action>)
    requires Settled(s) && Refines(s, s', seen)
    ensures Settled(s')
  {
  }

  lemma {:induction false} RunSettled(actions: seq<Action>, after: seq<Action>)
    requires Run(actions).Some? && Run(actions + after).Some?
    ensures Inv(Run(actions).value) && Inv(Run(actions + after).value)
    ensures Settled(Abs(Run(actions).value)) ==> Settled(Abs(Run(actions + after).value))
  {
    hide Inv, Abs, Settled, Do, Enabled, Refines, MarketExchange.PlaceInv;
    if after == [] {
      assert actions + after == actions;
      RunPlaces(actions);
    } else {
      var n := |after| - 1;
      assert (actions + after)[..|actions| + n] == actions + after[..n];
      RunSettled(actions, after[..n]);
      RunPlaces(actions + after[..n]);
      var s := Run(actions + after[..n]).value;
      StepRefines(s, after[n]);
      if Settled(Abs(s)) {
        SettledStays(Abs(s), Abs(Do(s, after[n])), SeenOf(after[n]));
      }
    }
  }

  // ---------------------------------------------------------------- an unanswered one

  /** What the orders thread does next. */
  ghost function OrdersMove(s: State): Action
    requires Inv(s)
  {
    match s.o
    case Away => CallTryPop
    case Polling =>
      if PtrFifo.Finished(s.request.threads[ORDERS]) then TryPopReturns else RequestStep(ORDERS, PtrFifo.Go)
    case _ =>
      if PtrFifo.Finished(s.response.threads[ORDERS]) then AnswerReturns else ResponseStep(ORDERS, PtrFifo.Go)
  }

  /** Steps of the orders thread until it takes a queued request. */
  ghost function Distance(s: State): nat
    requires Inv(s)
  {
    var polling, answering := s.request.threads[ORDERS], s.response.threads[ORDERS];
    match s.o
    case Away => 5
    case Polling =>
      if PtrFifo.Finished(polling) then 6
      else (match polling.pc case Ready => 4 case PopPermit => 3 case PopLocked => 2 case _ => 0)
    case _ =>
      if PtrFifo.Finished(answering) then 7
      else (match answering.pc case PushPost(_) => 8 case PushStored(_) => 9 case _ => 0)
  }

  /** A request is queued, its owner has quit, and the orders thread has nothing in hand. */
  ghost predicate Abandoned(s: State)
    requires Inv(s)
  {
    && Abs(s).h.Quit? && Abs(s).o.Busy? && Abs(s).request != []
    && !s.h.Pushing?
  }

  /** One step nearer, or the request is in hand. */
  ghost predicate Nearer(s: State, s': State)
    requires Inv(s) && Inv(s')
  {
    Abs(s').h.Quit? && (Abs(s').o.Busy? ==> Abandoned(s')) && Distance(s') < Distance(s)
  }

  lemma {:induction false} MoveAway(s: State)
    requires Inv(s) && Abandoned(s) && s.o.Away?
    ensures Enabled(s, OrdersMove(s)) && Inv(Do(s, OrdersMove(s))) && Nearer(s, Do(s, OrdersMove(s)))
  {
    hide Consistent, Contents, PtrFifo.CountInv, PtrFifo.MutexInv;
    CallTryPopStutters(s);
  }

  lemma {:induction false} MoveReturning(s: State)
    requires Inv(s) && Abandoned(s) && s.o.Polling? && PtrFifo.Finished(s.request.threads[ORDERS])
    ensures Enabled(s, OrdersMove(s)) && Inv(Do(s, OrdersMove(s))) && Nearer(s, Do(s, OrdersMove(s)))
  {
    hide Consistent, Contents, PtrFifo.CountInv, PtrFifo.MutexInv;
    TryPopReturnsStutters(s);
  }

  lemma {:induction false} MoveAnswered(s: State)
    requires Inv(s) && Abandoned(s) && s.o.Answering? && PtrFifo.Finished(s.response.threads[ORDERS])
    ensures Enabled(s, OrdersMove(s)) && Inv(Do(s, OrdersMove(s))) && Nearer(s, Do(s, OrdersMove(s)))
  {
    hide Consistent, Contents, PtrFifo.CountInv, PtrFifo.MutexInv;
    AnswerReturnsStutters(s);
  }

  lemma {:induction false} MoveAnswering(s: State)
    requires Inv(s) && Abandoned(s) && s.o.Answering? && !PtrFifo.Finished(s.response.threads[ORDERS])
    ensures Enabled(s, OrdersMove(s)) && Inv(Do(s, OrdersMove(s))) && Nearer(s, Do(s, OrdersMove(s)))
  {
    hide Consistent, Contents, PtrFifo.CountInv, PtrFifo.MutexInv;
    ResponseByOrders(s, PtrFifo.Go);
  }

  /** Nobody else is in the request FIFO, so the permit and the mutex are there for the taking. */
  lemma {:induction false} RequestIsFree(s: State)
    requires Inv(s) && Abandoned(s) && s.o.Polling?
    ensures s.request.threads[ORDERS].pc.Ready? ==> s.request.pop > 0
    ensures s.request.threads[ORDERS].pc.PopPermit? ==> s.request.mutex == None
  {
    hide Consistent;
    if s.request.threads[ORDERS].pc.Ready? {
      PtrFifo.Idle(s.request, MarketExchange.CAPACITY);
    }
  }

  lemma {:induction false} MovePolling(s: State)
    requires Inv(s) && Abandoned(s) && s.o.Polling? && !PtrFifo.Finished(s.request.threads[ORDERS])
    ensures Enabled(s, OrdersMove(s)) && Inv(Do(s, OrdersMove(s))) && Nearer(s, Do(s, OrdersMove(s)))
  {
    hide Consistent, Contents, PtrFifo.CountInv, PtrFifo.MutexInv;
    RequestIsFree(s);
    RequestByOrders(s, PtrFifo.Go);
  }

  lemma {:induction false} MovesNearer(s: State)
    requires Inv(s) && Abandoned(s)
    ensures Enabled(s, OrdersMove(s)) && Inv(Do(s, OrdersMove(s))) && Nearer(s, Do(s, OrdersMove(s)))
  {
    match s.o
    case Away => MoveAway(s);
    case Polling => if PtrFifo.Finished(s.request.threads[ORDERS]) { MoveReturning(s); } else { MovePolling(s); }
    case Answering(_) => if PtrFifo.Finished(s.response.threads[ORDERS]) { MoveAnswered(s); } else { MoveAnswering(s); }
    case _ =>
  }

  ghost predicate SharesAfter(actions: seq<Action>, after: seq<Action>) {
    && Run(actions + after).Some? && Inv(Run(actions + after).value)
    && MarketExchange.Shared(Abs(Run(actions + after).value))
  }

  /** Left to itself the orders thread takes the abandoned request. */
  lemma {:induction false} TakesAbandoned(actions: seq<Action>)
    requires Run(actions).Some? && Inv(Run(actions).value)
    requires var s := Run(actions).value; Abs(s).h.Quit? && (Abs(s).o.Busy? ==> Abandoned(s))
    ensures exists after :: SharesAfter(actions, after)
    decreases Distance(Run(actions).value)
  {
    hide Inv, Abs, Run, Enabled, Do, OrdersMove, Distance;
    var s := Run(actions).value;
    if Abs(s).o.Busy? {
      var a := OrdersMove(s);
      MovesNearer(s);
      RunOneMore(actions, a);
      TakesAbandoned(actions + [a]);
      var after :| SharesAfter(actions + [a], after);
      assert actions + [a] + after == actions + ([a] + after);
      assert SharesAfter(actions, [a] + after);
    } else {
      assert actions + [] == actions;
      assert SharesAfter(actions, []);
    }
  }

  lemma {:induction false} GivenUp(s: State)
    requires Inv(s) && Enabled(s, GiveUp)
    ensures s.h.Popping? && Abs(s).h.Waiting?
    ensures Inv(Do(s, GiveUp)) && Do(s, GiveUp).h.Popping?
    ensures Abs(Do(s, GiveUp)) == MarketExchange.Do(Abs(s), MarketExchange.GiveUpResponse)
  {
    hide Consistent, Contents, PtrFifo.CountInv, PtrFifo.MutexInv;
    ResponseByHistories(s, PtrFifo.Fail);
  }

  /** Giving up the response can lead to a shared vector exactly when the request is unanswered at that
      moment, wherever the two threads stand inside their calls. */
  lemma {:induction false} GivingUpSharesExactly(actions: seq<Action>)
    requires Run(actions).Some? && Enabled(Run(actions).value, GiveUp)
    ensures Inv(Run(actions).value)
    ensures (exists after :: SharesAfter(actions + [GiveUp], after))
            <==> MarketExchange.Unanswered(Abs(Run(actions).value))
  {
    hide Inv, Abs, Run, Enabled, Do;
    var s, quit := Run(actions).value, actions + [GiveUp];
    RunPlaces(actions);
    RunOneMore(actions, GiveUp);
    GivenUp(s);
    if MarketExchange.Unanswered(Abs(s)) {
      TakesAbandoned(quit);
    } else {
      forall after
        ensures !SharesAfter(quit, after)
      {
        if Run(quit + after).Some? {
          RunSettled(quit, after);
        }
      }
    }
  }
}

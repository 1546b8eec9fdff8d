/** The two threads of hoardling.c that share one market vector at a time: the histories thread
    asks through one FIFO, the orders thread fills the vector and answers through another. The
    FIFOs are the bounded queues that PtrFifo.StepRefinesQueue shows them to be. */
module MarketExchange {
  import opened Wrappers
  import opened UnsafeFifo
  import opened Orders
  import opened Histories
  import opened ActiveMarkets

  /** main.c gives both FIFOs this capacity. */
  const CAPACITY: nat := 32

  /** The histories thread: free of any vector, about to push its request, waiting for the
      response, or on its way out after a failed push or pop. */
  datatype HistoriesThread = Working | Requesting(vec: Ptr) | Waiting(vec: Ptr) | Quit

  /** The orders thread: elsewhere, holding a popped vector, or holding it filled. */
  datatype OrdersThread = Busy | Filling(vec: Ptr) | Responding(vec: Ptr)

  /** One response as the histories thread sees it, with the orders the vector was filled from. */
  datatype Reply = Reply(requested: Ptr, received: Ptr, markets: seq<Market>, orders: seq<Order>)

  /** `memory` maps a vector's address to its contents; `filledFrom` records the last fill. */
  datatype State = State(
    h: HistoriesThread, o: OrdersThread, request: seq<Ptr>, response: seq<Ptr>,
    memory: map<Ptr, seq<Market>>, filledFrom: seq<Order>, replies: seq<Reply>)

  const Start := State(Working, Busy, [], [], map[], [], [])

  datatype Action =
    | Stop                        // the thread ends for a reason outside the exchange
    | NewVector(vec: Ptr)         // an empty vector, at any address, also one used before
    | PushRequest | GiveUpRequest
    | PopResponse | GiveUpResponse
    | TryPopRequest
    | Fill(orders: seq<Order>)
    | PushResponse | GiveUpResponding

  predicate Enabled(s: State, a: Action) {
    match a
    case Stop => s.h.Working?
    case NewVector(_) => s.h.Working?
    case PushRequest => s.h.Requesting? && |s.request| < CAPACITY
    case GiveUpRequest => s.h.Requesting?
    case PopResponse => s.h.Waiting? && s.response != []
    case GiveUpResponse => s.h.Waiting?
    case TryPopRequest => s.o.Busy? && s.request != []
    case Fill(_) => s.o.Filling? && s.o.vec in s.memory
    case PushResponse => s.o.Responding? && |s.response| < CAPACITY
    case GiveUpResponding => s.o.Responding?
  }

  function Do(s: State, a: Action): State
    requires Enabled(s, a)
  {
    match a
    case Stop => s.(h := Quit)
    case NewVector(v) => s.(h := Requesting(v), memory := s.memory[v := []])
    case PushRequest => s.(h := Waiting(s.h.vec), request := s.request + [s.h.vec])
    case GiveUpRequest => s.(h := Quit)
    case PopResponse =>
      var v := s.response[0];
      s.(h := Working, response := s.response[1..],
         replies := s.replies + [Reply(s.h.vec, v, if v in s.memory then s.memory[v] else [], s.filledFrom)])
    case GiveUpResponse => s.(h := Quit)
    case TryPopRequest => s.(o := Filling(s.request[0]), request := s.request[1..])
    case Fill(orders) =>
      s.(o := Responding(s.o.vec), filledFrom := orders,
         memory := s.memory[s.o.vec := Distinct(s.memory[s.o.vec], Markets(orders))])
    case PushResponse => s.(o := Busy, response := s.response + [s.o.vec])
    case GiveUpResponding => s.(o := Busy)
  }

  function Run(actions: seq<Action>): Option<State> {
    if actions == [] then Some(Start)
    else
      match Run(actions[..|actions| - 1])
      case None => None
      case Some(s) =>
        var a := actions[|actions| - 1];
        if Enabled(s, a) then Some(Do(s, a)) else None
  }

  /** The places outside the histories thread where a vector can be. */
  function Elsewhere(s: State): seq<Ptr> {
    s.request + (if s.o.Busy? then [] else [s.o.vec]) + s.response
  }

  /** The vector is lent at most once, and only to answer the request being waited for. */
  ghost predicate PlaceInv(s: State) {
    match s.h
    case Working => Elsewhere(s) == []
    case Requesting(_) => Elsewhere(s) == []
    case Waiting(v) => Elsewhere(s) == [] || Elsewhere(s) == [v]
    case Quit => |Elsewhere(s)| <= 1
  }

  ghost predicate Holds(s: State, vec: Ptr, markets: seq<Market>) {
    vec in s.memory && s.memory[vec] == markets
  }

  /** It is empty until it is filled, and filled with the active markets once. */
  ghost predicate ContentInv(s: State) {
    && (s.h.Requesting? ==> Holds(s, s.h.vec, []))
    && (s.request != [] ==> Holds(s, s.request[0], []))
    && (s.o.Filling? ==> Holds(s, s.o.vec, []))
    && (s.o.Responding? ==> Holds(s, s.o.vec, Distinct([], Markets(s.filledFrom))))
    && (s.response != [] ==> Holds(s, s.response[0], Distinct([], Markets(s.filledFrom))))
  }

  /** assert(market_vec == market_vec_ptr) holds for every response taken, and the vector carries
      the active markets of the orders it was filled from. */
  ghost predicate ReplyInv(s: State) {
    forall i :: 0 <= i < |s.replies| ==>
      var r := s.replies[i];
      r.requested == r.received && r.markets == Distinct([], Markets(r.orders))
  }

  lemma {:induction false} StepPlaces(s: State, a: Action)
    requires PlaceInv(s) && Enabled(s, a)
    ensures PlaceInv(Do(s, a))
  {
    hide Distinct, Markets;
    match a
    case PopResponse => assert Elsewhere(s) == s.response;
    case TryPopRequest => assert Elsewhere(s) == s.request;
    case PushRequest => assert s.request == s.response == [];
    case _ =>
  }

  lemma {:induction false} StepContents(s: State, a: Action)
    requires PlaceInv(s) && ContentInv(s) && ReplyInv(s) && Enabled(s, a)
    ensures ContentInv(Do(s, a)) && ReplyInv(Do(s, a))
  {
    match a
    case PopResponse => assert Elsewhere(s) == s.response;
    case TryPopRequest => assert Elsewhere(s) == s.request;
    case _ =>
  }

  /** Every run of the two threads, whatever waits are given up and wherever vectors are allocated. */
  lemma {:induction false} RunInv(actions: seq<Action>)
    ensures var r := Run(actions);
            r.Some? ==> PlaceInv(r.value) && ContentInv(r.value) && ReplyInv(r.value)
  {
    if actions != [] {
      var n := |actions| - 1;
      RunInv(actions[..n]);
      if Run(actions).Some? {
        StepPlaces(Run(actions[..n]).value, actions[n]);
        StepContents(Run(actions[..n]).value, actions[n]);
      }
    }
  }

  // ---------------------------------------------------------------- what the replies carry

  /** The orders of the last Fill. */
  function LastOrders(actions: seq<Action>): seq<Order> {
    if actions == [] then []
    else if actions[|actions| - 1].Fill? then actions[|actions| - 1].orders
    else LastOrders(actions[..|actions| - 1])
  }

  /** The last vector made. */
  function LastVector(actions: seq<Action>): Ptr {
    if actions == [] then 0
    else if actions[|actions| - 1].NewVector? then actions[|actions| - 1].vec
    else LastVector(actions[..|actions| - 1])
  }

  /** It has been filled since. */
  predicate FilledSince(actions: seq<Action>) {
    actions != []
    && (actions[|actions| - 1].Fill?
        || (!actions[|actions| - 1].NewVector? && FilledSince(actions[..|actions| - 1])))
  }

  /** When the responses were popped: how many actions came before each. */
  function Pops(actions: seq<Action>): seq<nat> {
    if actions == [] then []
    else
      var n := |actions| - 1;
      Pops(actions[..n]) + if actions[n] == PopResponse then [n] else []
  }

  /** The right answer to the request under way after these actions: the vector made last, holding the
      region and type of each of the orders it has been filled from since, once each. */
  ghost predicate Answers(r: Reply, before: seq<Action>) {
    && r.requested == r.received == LastVector(before)
    && FilledSince(before) && r.orders == LastOrders(before)
    && AreActive(r.markets, LastOrders(before))
  }

  /** What the threads do by themselves, and the loss of patience with the response; the rest is calls
      that return. */
  function VisibleOf(a: Action): seq<Action> {
    match a
    case Stop => [a]
    case NewVector(_) => [a]
    case Fill(_) => [a]
    case GiveUpResponse => [a]
    case _ => []
  }

  function Visible(actions: seq<Action>): seq<Action> {
    if actions == [] then [] else Visible(actions[..|actions| - 1]) + VisibleOf(actions[|actions| - 1])
  }

  /** That is all it takes to know the vector and the orders of a reply, and whether a response was
      given up. */
  lemma {:induction false} VisibleIsEnough(actions: seq<Action>)
    ensures LastOrders(Visible(actions)) == LastOrders(actions) && LastVector(Visible(actions)) == LastVector(actions)
    ensures FilledSince(Visible(actions)) == FilledSince(actions)
    ensures GiveUpResponse in Visible(actions) <==> GiveUpResponse in actions
  {
    if actions != [] {
      hide LastOrders, LastVector, FilledSince, Visible, VisibleOf;
      var n := |actions| - 1;
      VisibleIsEnough(actions[..n]);
      VisibleOneMore(actions[..n], actions[n]);
      assert actions == actions[..n] + [actions[n]];
      if VisibleOf(actions[n]) == [] {
        InvisibleChangesNothing(actions[..n], actions[n]);
      } else {
        VisibleCounts(actions[..n], Visible(actions[..n]), actions[n]);
      }
    }
  }

  lemma {:induction false} VisibleOneMore(actions: seq<Action>, a: Action)
    ensures Visible(actions + [a]) == if VisibleOf(a) == [] then Visible(actions) else Visible(actions) + [a]
  {
    assert (actions + [a])[..|actions|] == actions;
  }

  lemma {:induction false} InvisibleChangesNothing(actions: seq<Action>, a: Action)
    requires VisibleOf(a) == []
    ensures LastOrders(actions + [a]) == LastOrders(actions) && LastVector(actions + [a]) == LastVector(actions)
    ensures FilledSince(actions + [a]) == FilledSince(actions) && a != GiveUpResponse
  {
    assert (actions + [a])[..|actions|] == actions;
  }

  lemma {:induction false} VisibleCounts(actions: seq<Action>, others: seq<Action>, a: Action)
    requires LastOrders(actions) == LastOrders(others) && LastVector(actions) == LastVector(others)
    requires FilledSince(actions) == FilledSince(others)
    ensures LastOrders(actions + [a]) == LastOrders(others + [a]) && LastVector(actions + [a]) == LastVector(others + [a])
    ensures FilledSince(actions + [a]) == FilledSince(others + [a])
  {
    assert (actions + [a])[..|actions|] == actions;
    assert (others + [a])[..|others|] == others;
  }

  /** The state remembers what the actions say. */
  ghost predicate RecordInv(s: State, actions: seq<Action>) {
    && s.filledFrom == LastOrders(actions)
    && (s.h.Requesting? || s.h.Waiting? ==> s.h.vec == LastVector(actions))
    && (s.o.Responding? || s.response != [] || (s.h.Working? && s.replies != []) ==> FilledSince(actions))
  }

  lemma {:induction false} LastOnes(actions: seq<Action>, a: Action)
    ensures LastOrders(actions + [a]) == if a.Fill? then a.orders else LastOrders(actions)
    ensures LastVector(actions + [a]) == if a.NewVector? then a.vec else LastVector(actions)
    ensures FilledSince(actions + [a]) <==> a.Fill? || (!a.NewVector? && FilledSince(actions))
  {
    assert (actions + [a])[..|actions|] == actions;
  }

  lemma {:induction false} NothingLent(s: State)
    requires PlaceInv(s)
    ensures s.h.Working? || s.h.Requesting? ==> s.request == s.response == [] && s.o.Busy?
  {
    assert |Elsewhere(s)| == |s.request| + (if s.o.Busy? then 0 else 1) + |s.response|;
  }

  lemma {:induction false} StepRecords(s: State, actions: seq<Action>, a: Action)
    requires PlaceInv(s) && RecordInv(s, actions) && Enabled(s, a)
    ensures RecordInv(Do(s, a), actions + [a])
  {
    hide Distinct, Markets, PlaceInv, LastOrders, LastVector, FilledSince;
    LastOnes(actions, a);
    NothingLent(s);
  }

  lemma {:induction false} RunRecords(actions: seq<Action>)
    requires Run(actions).Some?
    ensures RecordInv(Run(actions).value, actions)
  {
    if actions != [] {
      var n := |actions| - 1;
      RunRecords(actions[..n]);
      RunInv(actions[..n]);
      StepRecords(Run(actions[..n]).value, actions[..n], actions[n]);
      assert actions == actions[..n] + [actions[n]];
    }
  }

  lemma {:induction false} PopAnswers(s: State, actions: seq<Action>)
    requires PlaceInv(s) && ContentInv(s) && RecordInv(s, actions) && Enabled(s, PopResponse)
    ensures var rs := Do(s, PopResponse).replies;
            |rs| == |s.replies| + 1 && rs[..|s.replies|] == s.replies && Answers(rs[|s.replies|], actions)
  {
    hide Distinct, Markets, AreActive;
    assert Elsewhere(s) == s.response;
    ActiveExactly(LastOrders(actions));
  }

  ghost predicate AllAnswer(rs: seq<Reply>, pops: seq<nat>, actions: seq<Action>) {
    |rs| == |pops| && forall i :: 0 <= i < |pops| ==> pops[i] <= |actions| && Answers(rs[i], actions[..pops[i]])
  }

  lemma {:induction false} AnswersStay(rs: seq<Reply>, pops: seq<nat>, actions: seq<Action>, a: Action)
    requires AllAnswer(rs, pops, actions)
    ensures AllAnswer(rs, pops, actions + [a])
  {
    hide Answers;
    forall i | 0 <= i < |pops|
      ensures (actions + [a])[..pops[i]] == actions[..pops[i]]
    {
    }
  }

  lemma {:induction false} AnswersOneMore(rs: seq<Reply>, pops: seq<nat>, actions: seq<Action>, rs': seq<Reply>)
    requires AllAnswer(rs, pops, actions)
    requires |rs'| == |rs| + 1 && rs'[..|rs|] == rs && Answers(rs'[|rs|], actions)
    ensures AllAnswer(rs', pops + [|actions|], actions)
  {
    hide Answers;
    assert actions[..|actions|] == actions;
    assert forall i :: 0 <= i < |rs| ==> rs'[i] == rs[i];
  }

  lemma {:induction false} AnswersStill(r: Reply, actions: seq<Action>, a: Action)
    requires Answers(r, actions) && !a.Fill? && !a.NewVector?
    ensures Answers(r, actions + [a])
  {
    hide AreActive;
    LastOnes(actions, a);
  }

  lemma {:induction false} OnlyPopLeads(s: State, a: Action)
    requires PlaceInv(s) && Enabled(s, a) && Do(s, a).h.Working?
    ensures a == PopResponse
  {
    hide PlaceInv, Distinct, Markets;
    NothingLent(s);
  }

  /** A thread that has just got its response has the right one. */
  lemma {:induction false} LastReplyAnswers(actions: seq<Action>)
    requires Run(actions).Some? && Run(actions).value.h.Working? && Run(actions).value.replies != []
    ensures var rs := Run(actions).value.replies; Answers(rs[|rs| - 1], actions)
  {
    hide Answers, ContentInv, ReplyInv, RecordInv, PlaceInv, Do;
    assert actions != [];
    var n := |actions| - 1;
    RunInv(actions[..n]);
    RunRecords(actions[..n]);
    var s := Run(actions[..n]).value;
    OnlyPopLeads(s, actions[n]);
    assert actions == actions[..n] + [actions[n]];
    PopAnswers(s, actions[..n]);
    AnswersStill(Do(s, PopResponse).replies[|s.replies|], actions[..n], PopResponse);
  }

  lemma {:induction false} NoReply(s: State, a: Action)
    requires Enabled(s, a) && a != PopResponse
    ensures Do(s, a).replies == s.replies
  {
    hide Distinct, Markets;
  }

  lemma {:induction false} StepAnswers(s: State, pops: seq<nat>, actions: seq<Action>, a: Action)
    requires PlaceInv(s) && ContentInv(s) && RecordInv(s, actions) && Enabled(s, a)
    requires AllAnswer(s.replies, pops, actions)
    ensures AllAnswer(Do(s, a).replies, pops + (if a == PopResponse then [|actions|] else []), actions + [a])
  {
    hide AllAnswer, Answers, PlaceInv, ContentInv, RecordInv, Do, Enabled;
    if a == PopResponse {
      PopAnswers(s, actions);
      AnswersOneMore(s.replies, pops, actions, Do(s, a).replies);
      AnswersStay(Do(s, a).replies, pops + [|actions|], actions, a);
    } else {
      NoReply(s, a);
      AnswersStay(s.replies, pops, actions, a);
      assert pops + [] == pops;
    }
  }

  /** In every run each response popped is the right answer to the request under way, told from the
      actions alone. */
  lemma {:induction false} RepliesExactly(actions: seq<Action>)
    requires Run(actions).Some?
    ensures AllAnswer(Run(actions).value.replies, Pops(actions), actions)
  {
    if actions != [] {
      hide AllAnswer, PlaceInv, ContentInv, ReplyInv, RecordInv, Do, Enabled;
      var n := |actions| - 1;
      RepliesExactly(actions[..n]);
      RunInv(actions[..n]);
      RunRecords(actions[..n]);
      assert actions == actions[..n] + [actions[n]];
      StepAnswers(Run(actions[..n]).value, Pops(actions[..n]), actions[..n], actions[n]);
    }
  }

  /** While the orders thread has the vector in hand, the histories thread is waiting for that very
      vector or has quit; and neither FIFO ever fills up, so no push has to wait. */
  lemma {:induction false} NoSharedAccess(actions: seq<Action>)
    requires Run(actions).Some?
    ensures var s := Run(actions).value;
      && (!s.o.Busy? ==> s.request == s.response == [] && (s.h == Waiting(s.o.vec) || s.h.Quit?))
      && |s.request| < CAPACITY && |s.response| < CAPACITY
      && |s.request| + |s.response| <= 1
  {
    RunInv(actions);
    var s := Run(actions).value;
    assert |s.request| + |s.response| <= |Elsewhere(s)| <= 1;
    if !s.o.Busy? {
      assert Elsewhere(s)[|s.request|] == s.o.vec;
    }
  }

  /** From every state in which the histories thread is free it can have a vector filled with any orders:
      nothing of what went before is in the way. */
  lemma {:induction false} CanExchange(actions: seq<Action>, v: Ptr, orders: seq<Order>)
    requires Run(actions).Some? && Run(actions).value.h.Working?
    ensures var done := Run(actions + [NewVector(v)] + [PushRequest] + [TryPopRequest] + [Fill(orders)]
                            + [PushResponse] + [PopResponse]);
            done.Some? && done.value.h.Working?
  {
    hide Run, Distinct, Markets;
    RunInv(actions);
    NothingLent(Run(actions).value);
    RunOneMore(actions, NewVector(v));
    RunOneMore(actions + [NewVector(v)], PushRequest);
    RunOneMore(actions + [NewVector(v)] + [PushRequest], TryPopRequest);
    RunOneMore(actions + [NewVector(v)] + [PushRequest] + [TryPopRequest], Fill(orders));
    RunOneMore(actions + [NewVector(v)] + [PushRequest] + [TryPopRequest] + [Fill(orders)], PushResponse);
    RunOneMore(actions + [NewVector(v)] + [PushRequest] + [TryPopRequest] + [Fill(orders)] + [PushResponse], PopResponse);
  }

  // ---------------------------------------------------------------- giving up

  /** The orders thread works on a vector whose owner has gone. */
  predicate Shared(s: State) { s.h.Quit? && !s.o.Busy? }

  /** Stopping between exchanges and giving up the push of a request are harmless: nothing has been
      lent. Only a thread that gave up waiting for the response leaves the vector behind. */
  lemma {:induction false} WhoQuits(actions: seq<Action>)
    requires Run(actions).Some?
    ensures var s := Run(actions).value;
      && (s.h.Quit? <==> Stop in actions || GiveUpRequest in actions || GiveUpResponse in actions)
      && (s.h.Quit? && GiveUpResponse !in actions ==> Elsewhere(s) == [])
  {
    if actions != [] {
      var n := |actions| - 1;
      assert actions == actions[..n] + [actions[n]];
      WhoQuits(actions[..n]);
      RunInv(actions[..n]);
    }
  }

  /** The vector is worked on by one thread after the other left exactly in the runs in which the
      response was given up before it was there. */
  lemma {:induction false} SharedExactly(actions: seq<Action>)
    requires Run(actions).Some?
    ensures var s := Run(actions).value;
      && (Shared(s) <==> !s.o.Busy? && GiveUpResponse in actions)
      && (GiveUpResponse !in actions && !s.o.Busy? ==> s.h == Waiting(s.o.vec))
  {
    WhoQuits(actions);
    NoSharedAccess(actions);
  }

  /** The orders thread has the vector in hand when the histories thread runs out of patience. */
  lemma {:induction false} SharedWitness()
    ensures var r := Run([NewVector(1), PushRequest, TryPopRequest, GiveUpResponse]);
            r.Some? && Shared(r.value) && r.value.o == Filling(1)
  {
    var a := [NewVector(1), PushRequest, TryPopRequest, GiveUpResponse];
    assert a[..3] == [NewVector(1), PushRequest, TryPopRequest] && a[..3][..2] == [NewVector(1), PushRequest];
    assert a[..3][..2][..1] == [NewVector(1)] && a[..3][..2][..1][..0] == [];
    assert Run(a[..3][..2][..1]) == Some(Do(Start, NewVector(1)));
    assert Run(a[..3][..2]).Some? && Run(a[..3]).Some?;
  }

  /** The request has not been answered: it is still queued or being worked on. */
  predicate Unanswered(s: State) { s.request != [] || !s.o.Busy? }

  lemma {:induction false} RunOneMore(actions: seq<Action>, a: Action)
    requires Run(actions).Some?
    ensures Run(actions + [a]) == if Enabled(Run(actions).value, a) then Some(Do(Run(actions).value, a)) else None
  {
    assert (actions + [a])[..|actions|] == actions;
  }

  /** Once the histories thread has quit with its request answered, nothing is ever shared. */
  lemma {:induction false} AnsweredStays(actions: seq<Action>, after: seq<Action>)
    requires Run(actions).Some? && Run(actions).value.h.Quit? && !Unanswered(Run(actions).value)
    ensures var r := Run(actions + after);
            r.Some? ==> r.value.h.Quit? && !Unanswered(r.value) && !Shared(r.value)
  {
    if after == [] {
      assert actions + after == actions;
    } else {
      var n := |after| - 1;
      assert (actions + after)[..|actions| + n] == actions + after[..n];
      AnsweredStays(actions, after[..n]);
    }
  }

  ghost predicate SharesAfter(actions: seq<Action>, after: seq<Action>) {
    Run(actions + after).Some? && Shared(Run(actions + after).value)
  }

  /** Giving up the response can lead to a shared vector exactly when the request is unanswered at
      that moment. */
  lemma {:induction false} GivingUpSharesExactly(actions: seq<Action>)
    requires Run(actions).Some? && Run(actions).value.h.Waiting?
    ensures (exists after :: SharesAfter(actions + [GiveUpResponse], after)) <==> Unanswered(Run(actions).value)
  {
    var s, quit := Run(actions).value, actions + [GiveUpResponse];
    RunOneMore(actions, GiveUpResponse);
    if !s.o.Busy? {
      assert quit + [] == quit;
      assert SharesAfter(quit, []);
    } else if s.request != [] {
      RunOneMore(quit, TryPopRequest);
      assert SharesAfter(quit, [TryPopRequest]);
    } else {
      forall after
        ensures !SharesAfter(quit, after)
      {
        AnsweredStays(quit, after);
      }
    }
  }
}

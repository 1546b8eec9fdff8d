/** Requests against the EVE API: the recursive retry of esi.go and the retry around it in
    history.go, for a server that may answer anything. */
module Esi {
  import opened Wrappers

  /** Errors from outside the package. */
  datatype Foreign = Canceled | DeadlineExceeded | Other(id: int)

  /** Errors as values; `Wrapped` is fmt.Errorf with %w. */
  datatype Error =
    | NoTrailsLeft | ImplicitTimeout | ErrorRateTimeout | ExplicitTimeout
    | EsiError(code: int)
    | External(cause: Foreign)
    | Wrapped(inner: Error)

  /** errors.Is */
  predicate Is(e: Error, target: Error) { e == target || (e.Wrapped? && Is(e.inner, target)) }

  /** errors.As for an *esiError */
  function AsEsiError(e: Error): Option<int> {
    match e
    case EsiError(code) => Some(code)
    case Wrapped(inner) => AsEsiError(inner)
    case _ => None
  }

  /** What comes of one pass through esiFetch before it decides to retry. */
  datatype Answer<T> =
    | NotSent(e: Foreign)                       // timeout clearing, request creation or token failed
    | SendFailed(e: Foreign, ctxEnded: bool)    // client.Do failed
    | Response(code: int, decodes: bool, data: T)

  datatype Result<T> = Ok(data: T) | Err(error: Error)

  datatype Verdict<T> = Final(result: Result<T>) | Retry(fallback: Error)

  /** The chain of tests on one answer. */
  function Judge<T>(a: Answer<T>): Verdict<T> {
    match a
    case NotSent(e) => Final(Err(Wrapped(External(e))))
    case SendFailed(e, ctxEnded) =>
      if ctxEnded then Final(Err(Wrapped(External(e)))) else Retry(Wrapped(External(e)))
    case Response(code, decodes, data) =>
      if code == 500 || code == 503 then Retry(ImplicitTimeout)
      else if code == 429 || code == 420 then Retry(ErrorRateTimeout)
      else if code == 504 then Retry(ExplicitTimeout)
      else if !decodes then Retry(Wrapped(External(Other(code))))
      else if code != 200 then Final(Err(EsiError(code)))
      else Final(Ok(data))
  }

  /** esiFetch with its `retry` closure. `server(k)` is the k-th answer of the whole run; the second
      result is how many answers have been used up. */
  function Fetch<T>(server: nat -> Answer<T>, at: nat, trails: int): (Result<T>, nat)
    decreases if trails < 0 then 0 else trails
  {
    if trails <= 0 then (Err(NoTrailsLeft), at)
    else
      match Judge(server(at))
      case Final(r) => (r, at + 1)
      case Retry(fallback) =>
        var (r, at') := Fetch(server, at + 1, trails - 1);
        if r.Err? && Is(r.error, NoTrailsLeft) then (Err(Wrapped(fallback)), at') else (r, at')
  }

  lemma {:induction false} FallbacksAreNotExhaustion<T>(a: Answer<T>)
    ensures match Judge(a)
            case Final(r) => r.Err? ==> !Is(r.error, NoTrailsLeft)
            case Retry(fallback) => !Is(fallback, NoTrailsLeft) && AsEsiError(fallback) == None
  {
  }

  /** With a trail to spend, "no trails left" stays an internal matter. */
  lemma {:induction false} NeverNoTrailsLeft<T>(server: nat -> Answer<T>, at: nat, trails: nat)
    requires trails >= 1
    ensures var r := Fetch(server, at, trails).0; r.Err? ==> !Is(r.error, NoTrailsLeft)
    decreases trails
  {
    FallbacksAreNotExhaustion(server(at));
    if trails > 1 {
      NeverNoTrailsLeft(server, at + 1, trails - 1);
    }
  }

  predicate Retries<T>(server: nat -> Answer<T>, k: nat) { Judge(server(k)).Retry? }

  /** The same as a loop: try until an answer is final; when none of `trails` is, report the last. */
  method FetchLoop<T(0)>(server: nat -> Answer<T>, at: nat, trails: nat) returns (r: Result<T>, used: nat)
    requires trails >= 1
    ensures (r, at + used) == Fetch(server, at, trails)
    ensures 1 <= used <= trails
    ensures forall k: nat :: at <= k < at + used - 1 ==> Retries(server, k)
    ensures match Judge(server(at + used - 1))
            case Final(result) => r == result
            case Retry(fallback) => used == trails && r == Err(Wrapped(fallback))
  {
    r, used := Err(NoTrailsLeft), 0;
    while used < trails
      invariant used <= trails
      invariant forall k: nat :: at <= k < at + used ==> Retries(server, k)
      invariant used > 0 ==> Retries(server, at + used - 1) && r == Err(Wrapped(Judge(server(at + used - 1)).fallback))
    {
      used := used + 1;
      match Judge(server(at + used - 1))
      case Final(result) =>
        r := result;
        UnrollFinal(server, at, trails, used);
        return;
      case Retry(fallback) =>
        r := Err(Wrapped(fallback));
    }
    UnrollExhausted(server, at, trails);
  }

  lemma {:induction false} UnrollFinal<T>(server: nat -> Answer<T>, at: nat, trails: nat, used: nat)
    requires 1 <= used <= trails && Judge(server(at + used - 1)).Final?
    requires forall k: nat :: at <= k < at + used - 1 ==> Retries(server, k)
    ensures Fetch(server, at, trails) == (Judge(server(at + used - 1)).result, at + used)
    decreases trails
  {
    if used > 1 {
      assert Retries(server, at);
      UnrollFinal(server, at + 1, trails - 1, used - 1);
      NeverNoTrailsLeft(server, at + 1, trails - 1);
    }
  }

  lemma {:induction false} UnrollExhausted<T>(server: nat -> Answer<T>, at: nat, trails: nat)
    requires trails >= 1 && forall k: nat :: at <= k < at + trails ==> Retries(server, k)
    ensures Retries(server, at + trails - 1)
    ensures Fetch(server, at, trails) == (Err(Wrapped(Judge(server(at + trails - 1)).fallback)), at + trails)
    decreases trails
  {
    assert Retries(server, at);
    if trails > 1 {
      UnrollExhausted(server, at + 1, trails - 1);
      NeverNoTrailsLeft(server, at + 1, trails - 1);
    }
  }

  // ---------------------------------------------------------------- one market of a history download

  /** What the block around TryAgain ends with. */
  datatype Outcome<T> = Skip | Days(data: T) | Failed(error: Error)

  /** How many of the first `n` passes sent a request; the others ended before. */
  function Requests<T>(server: nat -> Answer<T>, n: nat): (r: nat)
    ensures r <= n
    ensures r == 0 <==> forall k: nat :: k < n ==> server(k).NotSent?
  {
    if n == 0 then 0 else Requests(server, n - 1) + if server(n - 1).NotSent? then 0 else 1
  }

  /** The block around TryAgain: how a market ends, and the answers and sleeps used up by then.
      `sleep(k)` is the error of the context that cuts the k-th sleep short, if any. */
  function Market<T>(server: nat -> Answer<T>, sleep: nat -> Option<Foreign>, at: nat, slept: nat,
                     trails: nat): (Outcome<T>, nat, nat)
    decreases trails
  {
    var (r, at') := Fetch(server, at, 5);
    if r.Ok? then (Days(r.data), at', slept)
    else if AsEsiError(r.error) == Some(400) || AsEsiError(r.error) == Some(404) then (Skip, at', slept)
    else if trails > 1 && AsEsiError(r.error) == None && !Is(r.error, External(Canceled)) then
      (match sleep(slept)
       case None => Market(server, sleep, at', slept + 1, trails - 1)
       case Some(e) => (Failed(External(e)), at', slept))
    else (Failed(Wrapped(r.error)), at', slept)
  }

  // ---------------------------------------------------------------- the same from the answers alone

  /** Within a round the request is sent again: the sending failed while the context lasted, the server is
      busy, or the body cannot be read. */
  predicate TriedAgain<T>(a: Answer<T>) {
    || (a.SendFailed? && !a.ctxEnded)
    || (a.Response? && (a.code in {500, 503, 429, 420, 504} || !a.decodes))
  }

  /** The server itself declines. */
  predicate Declined<T>(a: Answer<T>) {
    a.Response? && a.decodes && a.code !in {200, 500, 503, 429, 420, 504}
  }

  /** After a break the market may get another round: no data, no error of the server's own, and nobody
      canceled. */
  predicate MayRest<T>(a: Answer<T>) {
    || (a.Response? && (a.code in {500, 503, 429, 420, 504} || !a.decodes))
    || ((a.NotSent? || a.SendFailed?) && a.e != Canceled)
  }

  /** One to five answers, each but the last tried again, and the last one too unless it is the fifth. */
  ghost predicate IsRound<T>(server: nat -> Answer<T>, from: nat, to: nat) {
    && from < to <= from + 5
    && (forall k: nat :: from <= k < to - 1 ==> TriedAgain(server(k)))
    && (TriedAgain(server(to - 1)) ==> to == from + 5)
  }

  /** The error that an answer other than data leaves behind at the end of its round. */
  function ErrorLeft<T>(a: Answer<T>): Error {
    match a
    case NotSent(e) => Wrapped(External(e))
    case SendFailed(e, ctxEnded) => if ctxEnded then Wrapped(External(e)) else Wrapped(Wrapped(External(e)))
    case Response(code, decodes, _) =>
      if code in {500, 503} then Wrapped(ImplicitTimeout)
      else if code in {429, 420} then Wrapped(ErrorRateTimeout)
      else if code == 504 then Wrapped(ExplicitTimeout)
      else if !decodes then Wrapped(Wrapped(External(Other(code))))
      else EsiError(code)
  }

  /** What the last answer used decides; `cut` is the error of a break that was cut short. */
  function Ending<T>(last: Answer<T>, cut: Option<Foreign>): Outcome<T> {
    if last.Response? && last.decodes && last.code == 200 then Days(last.data)
    else if last.Response? && last.decodes && last.code in {400, 404} then Skip
    else if cut.Some? then Failed(External(cut.value))
    else Failed(Wrapped(ErrorLeft(last)))
  }

  /** The rounds of one market from answer `at` and break `slept` on: `ends` are the ends of the rounds.
      Another round is begun exactly if the last answer allows it, trails are left, and the break is not
      cut short. */
  ghost predicate AreRounds<T>(server: nat -> Answer<T>, sleep: nat -> Option<Foreign>, at: nat, slept: nat,
                                     trails: nat, ends: seq<nat>, o: Outcome<T>) {
    && 1 <= |ends| <= trails
    && IsRound(server, at, ends[0])
    && (forall r :: 1 <= r < |ends| ==> FollowedBy(server, sleep, slept, ends, r))
    && var last, n := LastIn(server, ends[|ends| - 1]), |ends|;
       var cut := if MayRest(last) && n < trails then sleep(slept + n - 1) else None;
       (MayRest(last) && n < trails ==> cut.Some?) && o == Ending(last, cut)
  }

  /** After round `r` there was a break, then another round. */
  ghost predicate FollowedBy<T>(server: nat -> Answer<T>, sleep: nat -> Option<Foreign>, slept: nat, ends: seq<nat>, r: int)
    requires 1 <= r < |ends|
  {
    IsRound(server, ends[r - 1], ends[r]) && MayRest(LastIn(server, ends[r - 1])) && sleep(slept + r - 1) == None
  }

  /** The last answer of a round. */
  function LastIn<T>(server: nat -> Answer<T>, end: nat): Answer<T> { if end == 0 then server(0) else server(end - 1) }

  /** What a round comes to, by its last answer. */
  function RoundResult<T>(a: Answer<T>): Result<T> {
    if a.Response? && a.decodes && a.code == 200 then Ok(a.data) else Err(ErrorLeft(a))
  }

  lemma {:induction false} JudgedExactly<T>(a: Answer<T>)
    ensures TriedAgain(a) <==> Judge(a).Retry?
    ensures RoundResult(a) == match Judge(a) case Final(r) => r case Retry(fallback) => Err(Wrapped(fallback))
  {
  }

  lemma {:induction false} FetchIsRound<T>(server: nat -> Answer<T>, at: nat, trails: nat)
    requires trails >= 1
    ensures var (r, to) := Fetch(server, at, trails);
      && at < to <= at + trails && r == RoundResult(server(to - 1))
      && (forall k: nat :: at <= k < to - 1 ==> TriedAgain(server(k)))
      && (TriedAgain(server(to - 1)) ==> to == at + trails)
    decreases trails
  {
    hide Judge, TriedAgain, RoundResult, Is;
    JudgedExactly(server(at));
    if trails > 1 && Judge(server(at)).Retry? {
      FetchIsRound(server, at + 1, trails - 1);
      NeverNoTrailsLeft(server, at + 1, trails - 1);
    } else if trails == 1 && Judge(server(at)).Retry? {
      ItselfOnly();
    }
  }

  lemma {:induction false} ItselfOnly()
    ensures Is(NoTrailsLeft, NoTrailsLeft)
  {
  }

  lemma {:induction false} WrappedError(e: Error)
    ensures AsEsiError(Wrapped(e)) == AsEsiError(e)
    ensures Is(Wrapped(e), External(Canceled)) <==> Is(e, External(Canceled))
  {
  }

  /** Who may rest, in terms of the error left. */
  lemma {:induction false} RestsExactly<T>(a: Answer<T>)
    requires RoundResult(a).Err?
    ensures MayRest(a) <==> AsEsiError(ErrorLeft(a)) == None && !Is(ErrorLeft(a), External(Canceled))
    ensures AsEsiError(ErrorLeft(a)) == if Declined(a) then Some(a.code) else None
  {
    if a.NotSent? || a.SendFailed? {
      WrappedError(External(a.e));
      WrappedError(Wrapped(External(a.e)));
    } else {
      WrappedError(External(Other(a.code)));
      WrappedError(Wrapped(External(Other(a.code))));
    }
  }

  /** A round of the block and what follows it, by its last answer. */
  lemma {:induction false} MarketStep<T>(server: nat -> Answer<T>, sleep: nat -> Option<Foreign>, at: nat, slept: nat,
                                         trails: nat)
    requires trails >= 1
    ensures var to := Fetch(server, at, 5).1;
      var last := LastIn(server, to);
      && IsRound(server, at, to)
      && Market(server, sleep, at, slept, trails)
         == (if MayRest(last) && trails > 1 then
               (match sleep(slept)
                case None => Market(server, sleep, to, slept + 1, trails - 1)
                case Some(e) => (Ending(last, Some(e)), to, slept))
             else (Ending(last, None), to, slept))
  {
    hide Fetch, TriedAgain, ErrorLeft, Is, AsEsiError;
    FetchIsRound(server, at, 5);
    var last := LastIn(server, Fetch(server, at, 5).1);
    if RoundResult(last).Err? {
      RestsExactly(last);
    }
  }

  /** The outcome of a market follows from the answers: there are rounds as described, and these are the
      answers and breaks used. */
  lemma {:induction false} MarketIsRounds<T>(server: nat -> Answer<T>, sleep: nat -> Option<Foreign>, at: nat, slept: nat,
                                             trails: nat) returns (ends: seq<nat>)
    requires trails >= 1
    ensures var (o, passes, sleeps) := Market(server, sleep, at, slept, trails);
      AreRounds(server, sleep, at, slept, trails, ends, o) && ends[|ends| - 1] == passes && slept + |ends| - 1 == sleeps
    decreases trails
  {
    hide Market, MayRest, IsRound, Ending, Fetch;
    MarketStep(server, sleep, at, slept, trails);
    var to := Fetch(server, at, 5).1;
    ends := [to];
    if MayRest(LastIn(server, to)) && trails > 1 && sleep(slept) == None {
      var rest := MarketIsRounds(server, sleep, to, slept + 1, trails - 1);
      ends := [to] + rest;
      RoundsPrepended(server, sleep, at, slept, trails, to, rest, Market(server, sleep, to, slept + 1, trails - 1).0);
    }
  }

  lemma {:induction false} RoundsPrepended<T>(server: nat -> Answer<T>, sleep: nat -> Option<Foreign>, at: nat, slept: nat,
                                              trails: nat, to: nat, rest: seq<nat>, o: Outcome<T>)
    requires trails >= 2 && IsRound(server, at, to) && MayRest(LastIn(server, to)) && sleep(slept) == None
    ensures AreRounds(server, sleep, at, slept, trails, [to] + rest, o)
            <==> AreRounds(server, sleep, to, slept + 1, trails - 1, rest, o)
  {
    hide MayRest, IsRound, Ending, LastIn;
    var ends, next := [to] + rest, slept + 1;
    assert rest != [] ==> ends[|ends| - 1] == rest[|rest| - 1];
    if AreRounds(server, sleep, to, slept + 1, trails - 1, rest, o) {
      forall r | 1 <= r < |ends|
        ensures FollowedBy(server, sleep, slept, ends, r)
      {
        if r > 1 {
          assert FollowedBy(server, sleep, slept + 1, rest, r - 1);
        }
      }
    }
    if AreRounds(server, sleep, at, slept, trails, ends, o) {
      assert |ends| > 1 ==> FollowedBy(server, sleep, slept, ends, 1);
      forall r | 1 <= r < |rest|
        ensures FollowedBy(server, sleep, next, rest, r)
      {
        assert FollowedBy(server, sleep, slept, ends, r + 1);
      }
    }
  }

  lemma {:induction false} RoundIsUnique<T>(server: nat -> Answer<T>, at: nat, to: nat, to': nat)
    requires IsRound(server, at, to) && IsRound(server, at, to')
    ensures to == to'
  {
    hide TriedAgain;
  }

  /** And there are no other rounds that fit the answers. */
  lemma {:induction false} RoundsAreMarket<T>(server: nat -> Answer<T>, sleep: nat -> Option<Foreign>, at: nat, slept: nat,
                                              trails: nat, ends: seq<nat>, o: Outcome<T>)
    requires AreRounds(server, sleep, at, slept, trails, ends, o)
    ensures Market(server, sleep, at, slept, trails) == (o, ends[|ends| - 1], slept + |ends| - 1)
    decreases trails
  {
    hide Market, MayRest, IsRound, Ending, Fetch, LastIn;
    MarketStep(server, sleep, at, slept, trails);
    RoundIsUnique(server, at, ends[0], Fetch(server, at, 5).1);
    if |ends| > 1 {
      assert FollowedBy(server, sleep, slept, ends, 1);
      assert ends == [ends[0]] + ends[1..];
      RoundsPrepended(server, sleep, at, slept, trails, ends[0], ends[1..], o);
      RoundsAreMarket(server, sleep, ends[0], slept + 1, trails - 1, ends[1..], o);
    }
  }

  /** Skipped on a readable 400 or 404, data from a readable 200, a failure on anything else. */
  predicate EndsWith<T(==)>(last: Answer<T>, o: Outcome<T>) {
    && (o.Skip? <==> last.Response? && last.decodes && (last.code == 400 || last.code == 404))
    && (o.Days? <==> last.Response? && last.decodes && last.code == 200)
    && (o.Days? ==> o.data == last.data)
  }

  /** Some rounds fit the answers, the outcome, and the answers and breaks used. */
  ghost predicate Explained<T>(server: nat -> Answer<T>, sleep: nat -> Option<Foreign>, o: Outcome<T>, passes: nat,
                               sleeps: nat) {
    exists ends :: AreRounds(server, sleep, 0, 0, 3, ends, o) && passes == ends[|ends| - 1] && sleeps + 1 == |ends|
  }

  /** A market ends as the rules about rounds say, and no other end fits them. */
  lemma {:induction false} MarketExactly<T>(server: nat -> Answer<T>, sleep: nat -> Option<Foreign>, o: Outcome<T>,
                                            passes: nat, sleeps: nat)
    ensures (o, passes, sleeps) == Market(server, sleep, 0, 0, 3) <==> Explained(server, sleep, o, passes, sleeps)
    ensures Explained(server, sleep, o, passes, sleeps) ==> passes >= 1 && EndsWith(server(passes - 1), o)
  {
    hide AreRounds, Market, EndsWith;
    if (o, passes, sleeps) == Market(server, sleep, 0, 0, 3) {
      var ends := MarketIsRounds(server, sleep, 0, 0, 3);
    }
    if Explained(server, sleep, o, passes, sleeps) {
      var ends :| sleeps + 1 == |ends| && AreRounds(server, sleep, 0, 0, 3, ends, o) && passes == ends[|ends| - 1];
      RoundsAreMarket(server, sleep, 0, 0, 3, ends, o);
      EndOfRounds(server, sleep, ends, o);
    }
  }

  lemma {:induction false} EndingExactly<T>(last: Answer<T>, cut: Option<Foreign>)
    ensures EndsWith(last, Ending(last, cut))
  {
  }

  lemma {:induction false} EndOfRounds<T>(server: nat -> Answer<T>, sleep: nat -> Option<Foreign>, ends: seq<nat>,
                                          o: Outcome<T>)
    requires AreRounds(server, sleep, 0, 0, 3, ends, o)
    ensures 1 <= ends[|ends| - 1]
    ensures EndsWith(server(ends[|ends| - 1] - 1), o)
  {
    hide TriedAgain, MayRest, Ending, EndsWith;
    var n := |ends|;
    assert n > 1 ==> FollowedBy(server, sleep, 0, ends, n - 1);
    var last := LastIn(server, ends[n - 1]);
    var cut := if MayRest(last) && n < 3 then sleep(0 + n - 1) else None;
    EndingExactly(last, cut);
  }

  /** Three rounds of five trails and the breaks between them bound what one market can cost: at most
      15 passes, each of which sends one request at most. */
  method FetchMarket<T(0)>(server: nat -> Answer<T>, sleep: nat -> Option<Foreign>)
    returns (o: Outcome<T>, passes: nat, sleeps: nat)
    ensures 1 <= passes <= 15 && sleeps <= 2 && sleeps < passes
    ensures Requests(server, passes) <= passes
    ensures Requests(server, passes) == 0 <==> forall k: nat :: k < passes ==> server(k).NotSent?
    ensures (o, passes, sleeps) == Market(server, sleep, 0, 0, 3)
    ensures Explained(server, sleep, o, passes, sleeps) && EndsWith(server(passes - 1), o)
  {
    hide Fetch, AsEsiError, Is, Judge, AreRounds, Explained, EndsWith;
    var trails := 3;
    passes, sleeps := 0, 0;
    while true
      invariant 1 <= trails && trails + sleeps == 3
      invariant sleeps <= passes <= 5 * sleeps
      invariant Market(server, sleep, passes, sleeps, trails) == Market(server, sleep, 0, 0, 3)
      decreases trails
    {
      var r, used := FetchLoop(server, passes, 5);
      passes := passes + used;
      if r.Err? && (AsEsiError(r.error) == Some(400) || AsEsiError(r.error) == Some(404)) {
        MarketExactly(server, sleep, Skip, passes, sleeps);
        return Skip, passes, sleeps;
      } else if r.Err? && trails > 1 && AsEsiError(r.error) == None && !Is(r.error, External(Canceled)) {
        var interrupted := sleep(sleeps);
        if interrupted.Some? {
          MarketExactly(server, sleep, Failed(External(interrupted.value)), passes, sleeps);
          return Failed(External(interrupted.value)), passes, sleeps;
        }
        sleeps := sleeps + 1;
        trails := trails - 1;
      } else if r.Err? {
        MarketExactly(server, sleep, Failed(Wrapped(r.error)), passes, sleeps);
        return Failed(Wrapped(r.error)), passes, sleeps;
      } else {
        MarketExactly(server, sleep, Days(r.data), passes, sleeps);
        return Days(r.data), passes, sleeps;
      }
    }
  }

  lemma {:induction false} DownOnce<T>(server: nat -> Answer<T>, at: nat)
    requires forall k: nat :: server(k).Response? && server(k).code == 503
    ensures Fetch(server, at, 5) == (Err(Wrapped(ImplicitTimeout)), at + 5)
  {
    forall k: nat ensures Retries(server, k) {}
    UnrollExhausted(server, at, 5);
  }

  /** Each of its passes sends a request. */
  lemma {:induction false} AllSent<T>(server: nat -> Answer<T>, n: nat)
    requires forall k: nat :: server(k).Response?
    ensures Requests(server, n) == n
  {
    if n > 0 {
      AllSent(server, n - 1);
    }
  }

  /** The bounds are reached: against a server that is always down, fifteen requests and two full
      breaks end with the last request's error. */
  lemma {:induction false} AlwaysDown<T>(server: nat -> Answer<T>, sleep: nat -> Option<Foreign>)
    requires forall k: nat :: server(k).Response? && server(k).code == 503 && sleep(k) == None
    ensures Market(server, sleep, 0, 0, 3) == (Failed(Wrapped(Wrapped(ImplicitTimeout))), 15, 2)
  {
    hide Fetch, Judge;
    DownOnce(server, 0);
    DownOnce(server, 5);
    DownOnce(server, 10);
    assert Market(server, sleep, 5, 1, 2) == Market(server, sleep, 10, 2, 1);
  }

  // ---------------------------------------------------------------- the loop of esi.c

  /** E_OK, E_ESI_ERR and E_ERR. */
  datatype Performed<T> = Success(data: T) | Refused(code: int) | Broken

  datatype Decision<T> = Done(result: Performed<T>) | Again

  predicate RetryCode(code: int) { code == 500 || code == 503 || code == 429 || code == 420 || code == 504 }

  /** What one turn of the loop makes of an answer; bodies are not decoded here. */
  function Decide<T>(a: Answer<T>): Decision<T> {
    match a
    case NotSent(_) => Done(Broken)
    case SendFailed(_, _) => Again
    case Response(code, _, data) =>
      if RetryCode(code) then Again else if code != 200 then Done(Refused(code)) else Done(Success(data))
  }

  /** The outcome of the loop, and the answers used up by then. */
  function Perform<T>(server: nat -> Answer<T>, at: nat, trails: nat): (Performed<T>, nat)
    decreases trails
  {
    if trails == 0 then (Broken, at)
    else
      match Decide(server(at))
      case Done(r) => (r, at + 1)
      case Again => Perform(server, at + 1, trails - 1)
  }

  /** Not sent, or a busy server: whatever the body says. */
  predicate Unserved<T>(a: Answer<T>) { a.SendFailed? || (a.Response? && a.code in {500, 503, 429, 420, 504}) }

  /** How the loop comes out, told from the last answer it used. */
  predicate PerformedAs<T(==)>(last: Answer<T>, r: Performed<T>) {
    && (r.Success? <==> last.Response? && last.code == 200) && (r.Success? ==> r.data == last.data)
    && (r.Refused? <==> last.Response? && last.code !in {200, 500, 503, 429, 420, 504})
    && (r.Refused? ==> r.code == last.code)
  }

  /** esi_perform_request */
  method PerformRequest<T>(server: nat -> Answer<T>, at: nat, trails: nat) returns (r: Performed<T>, used: nat)
    ensures (r, at + used) == Perform(server, at, trails)
    ensures used <= trails
    ensures trails == 0 ==> r == Broken
    ensures trails > 0 ==> used > 0 && PerformedAs(server(at + used - 1), r)
    ensures forall k: nat :: at <= k < at + used - 1 ==> Unserved(server(k))
    ensures used < trails ==> !Unserved(server(at + used - 1))
  {
    var left := trails;
    used := 0;
    while left > 0
      invariant used + left == trails
      invariant forall k: nat :: at <= k < at + used ==> Unserved(server(k))
      invariant Perform(server, at, trails) == Perform(server, at + used, left)
    {
      left := left - 1;
      var a := server(at + used);
      used := used + 1;
      if a.NotSent? {
        return Broken, used;
      }
      if a.SendFailed? || a.code == 500 || a.code == 503 || a.code == 429 || a.code == 420 || a.code == 504 {
        continue;
      }
      if a.code != 200 {
        return Refused(a.code), used;
      }
      return Success(a.data), used;
    }
    r := Broken;
  }

  /** The C result that stands for a Go result. */
  function Counterpart<T>(r: Result<T>): Performed<T> {
    match r
    case Ok(data) => Success(data)
    case Err(e) => if AsEsiError(e).Some? then Refused(AsEsiError(e).value) else Broken
  }

  /** Both programs do the same with the answer. */
  predicate Alike<T(==)>(a: Answer<T>) {
    match Judge(a)
    case Final(r) => Decide(a) == Done(Counterpart(r))
    case Retry(_) => Decide(a) == Again
  }

  /** They differ exactly on a send that failed because the context ended, which C knows nothing of,
      and on an undecodable body where the code alone does not call for a retry. */
  lemma {:induction false} AlikeExactly<T>(a: Answer<T>)
    ensures Alike(a) <==> !(a.SendFailed? && a.ctxEnded) && !(a.Response? && !a.decodes && !RetryCode(a.code))
  {
    if a.NotSent? || a.SendFailed? {
      assert AsEsiError(Wrapped(External(a.e))) == AsEsiError(External(a.e)) == None;
    }
  }

  /** On answers treated alike the C loop ends like the Go recursion, after as many passes. */
  lemma {:induction false} PerformsLikeFetch<T>(server: nat -> Answer<T>, at: nat, trails: nat)
    requires forall k: nat :: at <= k < Perform(server, at, trails).1 ==> Alike(server(k))
    ensures Perform(server, at, trails) == (Counterpart(Fetch(server, at, trails).0), Fetch(server, at, trails).1)
    decreases trails
  {
    if trails > 0 {
      hide Is, AsEsiError, Judge, Decide;
      UsesOne(server, at, trails);
      FallbacksAreNotExhaustion(server(at));
      assert Alike(server(at));
      if Judge(server(at)).Retry? {
        PerformsLikeFetch(server, at + 1, trails - 1);
        Counterparts(server(at), Fetch(server, at + 1, trails - 1).0);
      }
    }
  }

  lemma {:induction false} UsesOne<T>(server: nat -> Answer<T>, at: nat, trails: nat)
    requires trails > 0
    ensures Perform(server, at, trails).1 > at && (Decide(server(at)).Again? ==> Perform(server, at + 1, trails - 1).1 >= at + 1)
    decreases trails
  {
    if trails > 1 {
      UsesOne(server, at + 1, trails - 1);
    }
  }

  /** Replacing an exhausted result by the fallback changes nothing for the C side. */
  lemma {:induction false} Counterparts<T>(a: Answer<T>, r: Result<T>)
    requires Judge(a).Retry?
    ensures r.Err? && Is(r.error, NoTrailsLeft) ==> Counterpart(r) == Counterpart<T>(Err(Wrapped(Judge(a).fallback)))
  {
    if r.Err? && Is(r.error, NoTrailsLeft) {
      ExhaustionIsBroken(r.error);
      FallbacksAreNotExhaustion(a);
      assert AsEsiError(Wrapped(Judge(a).fallback)) == None;
    }
  }

  lemma {:induction false} ExhaustionIsBroken(e: Error)
    requires Is(e, NoTrailsLeft)
    ensures AsEsiError(e) == None
  {
    if e.Wrapped? {
      ExhaustionIsBroken(e.inner);
    }
  }
}

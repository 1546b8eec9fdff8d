/** history.go: the snapshot of all histories with its index of dates, the query for one day, and
    the incremental download that fetches one day directly. Times are Unix seconds. */
module GoHistory {
  import opened Wrappers
  import opened Ints
  import opened Buckets
  import opened Histories
  import opened Esi

  datatype EsiDay = EsiDay(
    date: Option<int>,  // None: the text is not a date
    average: float64, highest: float64, lowest: float64, orderCount: uint64, volume: uint64)

  datatype HistoryDay = HistoryDay(
    regionId: uint64, typeId: uint64, average: float64, highest: float64, lowest: float64,
    orderCount: uint64, volume: uint64)

  datatype SnapDay = SnapDay(date: int, day: HistoryDay)

  type Fetched = Outcome<seq<EsiDay>>

  function ToDay(m: Histories.Market, e: EsiDay): HistoryDay {
    HistoryDay(m.regionId, m.typeId, e.average, e.highest, e.lowest, e.orderCount, e.volume)
  }

  predicate DatesParse(es: seq<EsiDay>) { forall i :: 0 <= i < |es| ==> es[i].date.Some? }

  function SnapDays(m: Histories.Market, es: seq<EsiDay>): seq<SnapDay>
    requires DatesParse(es)
  {
    seq(|es|, i requires 0 <= i < |es| => SnapDay(es[i].date.value, ToDay(m, es[i])))
  }

  /** The days a market's answer holds; skipped markets have none. */
  function DaysOf(answer: Fetched): seq<EsiDay> {
    if answer.Days? then answer.data else []
  }

  /** Every market answers or is skipped, every date is one. */
  ghost predicate Healthy(fetch: nat -> Fetched, n: nat) {
    forall i: nat :: i < n ==> !fetch(i).Failed? && DatesParse(DaysOf(fetch(i)))
  }

  /** The records of the first `n` markets. */
  ghost function FileOf(markets: seq<Histories.Market>, fetch: nat -> Fetched, n: nat): seq<SnapDay>
    requires n <= |markets| && Healthy(fetch, n)
  {
    if n == 0 then [] else FileOf(markets, fetch, n - 1) + SnapDays(markets[n - 1], DaysOf(fetch(n - 1)))
  }

  function SnapKey(s: SnapDay): int { s.date }

  function Strip(s: seq<SnapDay>): seq<HistoryDay> {
    seq(|s|, i requires 0 <= i < |s| => s[i].day)
  }

  /** sort.Sort(ByDate(...)) */
  function SortDates(dates: seq<int>): seq<int> {
    if dates == [] then [] else Insert(SortDates(dates[..|dates| - 1]), dates[|dates| - 1])
  }

  function Insert(dates: seq<int>, d: int): seq<int> {
    if dates == [] || dates[|dates| - 1] <= d then dates + [d]
    else Insert(dates[..|dates| - 1], d) + [dates[|dates| - 1]]
  }

  lemma {:induction false} InsertKeeps(dates: seq<int>, d: int)
    requires StrictlyIncreasing(dates) && d !in dates
    ensures StrictlyIncreasing(Insert(dates, d))
    ensures forall x: int :: x in Insert(dates, d) <==> x in dates || x == d
  {
    if dates != [] {
      var n := |dates| - 1;
      assert dates == dates[..n] + [dates[n]];
      if dates[n] > d {
        InsertKeeps(dates[..n], d);
        assert forall i :: 0 <= i < |Insert(dates[..n], d)| ==> Insert(dates[..n], d)[i] in Insert(dates[..n], d);
      }
    }
  }

  lemma {:induction false} SortKeeps(dates: seq<int>)
    requires forall i, j :: 0 <= i < j < |dates| ==> dates[i] != dates[j]
    ensures StrictlyIncreasing(SortDates(dates))
    ensures forall x: int :: x in SortDates(dates) <==> x in dates
  {
    if dates != [] {
      var n := |dates| - 1;
      SortKeeps(dates[..n]);
      assert dates[n] !in dates[..n];
      InsertKeeps(SortDates(dates[..n]), dates[n]);
      assert dates == dates[..n] + [dates[n]];
    }
  }

  class HistorySnapshot {
    var file: seq<SnapDay>
    var pos: nat
    var dates: seq<int>

    constructor ()
      ensures file == [] && dates == [] && pos == 0
    {
      file, pos, dates := [], 0, [];
    }

    /** `dates` lists the dates in the file, each once. */
    ghost predicate Indexed()
      reads this
    {
      && (forall i, j :: 0 <= i < j < |dates| ==> dates[i] != dates[j])
      && forall x: int :: x in dates <==> exists i :: 0 <= i < |file| && file[i].date == x
    }

    method AddDate(date: int)
      modifies this`dates
      ensures dates == if date in old(dates) then old(dates) else old(dates) + [date]
    {
      for i := 0 to |dates|
        invariant date !in dates[..i] && dates == old(dates)
      {
        if dates[i] == date {
          return;
        }
      }
      assert dates[..|dates|] == dates;
      dates := dates + [date];
    }

    /** The body of the loop over one market's days. */
    method AddDay(s: SnapDay)
      requires Indexed() && pos == |file|
      modifies this
      ensures Indexed() && pos == |file| && file == old(file) + [s]
    {
      AddDate(s.date);
      file, pos := file + [s], pos + 1;
      forall x: int
        ensures x in dates <==> exists i :: 0 <= i < |file| && file[i].date == x
      {
        assert file[|file| - 1].date == s.date;
        if x in old(dates) {
          var i :| 0 <= i < |old(file)| && old(file)[i].date == x;
          assert file[i].date == x;
        }
      }
    }

    /** snapshotSortDates */
    method Sort()
      requires Indexed()
      modifies this`dates
      ensures Indexed() && StrictlyIncreasing(dates)
    {
      SortKeeps(dates);
      dates := SortDates(dates);
    }

    /** GetHistoryDataForDay; `ctxEnded(k)` is the state of the context at the k-th look. */
    method GetHistoryDataForDay(ctxEnded: nat -> bool, requestDate: int) returns (days: Option<seq<HistoryDay>>)
      modifies this`pos
      ensures requestDate !in dates ==> days == Some([])
      ensures requestDate in dates ==>
                days == if exists k: nat :: k <= |file| && ctxEnded(k) then None
                        else Some(Strip(Filter(file, SnapKey, requestDate)))
    {
      if requestDate !in dates {
        return Some([]);
      }
      pos := 0;
      var historyDays: seq<HistoryDay> := [];
      while true
        invariant pos <= |file|
        invariant forall k: nat :: k < pos ==> !ctxEnded(k)
        invariant historyDays == Strip(Filter(file[..pos], SnapKey, requestDate))
        decreases |file| - pos
      {
        if ctxEnded(pos) {
          return None;
        }
        if pos == |file| {
          break;  // io.EOF
        }
        var snapDay := file[pos];
        pos := pos + 1;
        assert file[..pos][..pos - 1] == file[..pos - 1];
        if snapDay.date == requestDate {
          historyDays := historyDays + [snapDay.day];
        }
      }
      assert file[..|file|] == file;
      days := Some(historyDays);
    }
  }

  /** The loop over the days of one market. */
  method AddMarket(snapshot: HistorySnapshot, m: Histories.Market, es: seq<EsiDay>) returns (ok: bool)
    requires snapshot.Indexed() && snapshot.pos == |snapshot.file|
    modifies snapshot
    ensures snapshot.Indexed() && snapshot.pos == |snapshot.file|
    ensures ok <==> DatesParse(es)
    ensures ok ==> snapshot.file == old(snapshot.file) + SnapDays(m, es)
  {
    for i := 0 to |es|
      invariant snapshot.Indexed() && snapshot.pos == |snapshot.file|
      invariant DatesParse(es[..i])
      invariant snapshot.file == old(snapshot.file) + SnapDays(m, es[..i])
    {
      if es[i].date.None? {
        return false;
      }
      snapshot.AddDay(SnapDay(es[i].date.value, ToDay(m, es[i])));
    }
    assert es[..|es|] == es;
    ok := true;
  }

  /** DownloadFullHistoryDump, given how each market ends. */
  method DownloadFull(markets: seq<Histories.Market>, fetch: nat -> Fetched)
    returns (ok: bool, snapshot: HistorySnapshot)
    ensures fresh(snapshot)
    ensures ok <==> Healthy(fetch, |markets|)
    ensures ok ==> snapshot.file == FileOf(markets, fetch, |markets|)
    ensures ok ==> snapshot.Indexed() && StrictlyIncreasing(snapshot.dates)
  {
    hide SnapDays;
    snapshot := new HistorySnapshot();
    for n := 0 to |markets|
      invariant fresh(snapshot) && snapshot.Indexed() && snapshot.pos == |snapshot.file|
      invariant Healthy(fetch, n)
      invariant snapshot.file == FileOf(markets, fetch, n)
    {
      ghost var before := snapshot.file;
      match fetch(n)
      case Skip =>
        NoDays(markets[n]);
        assert before + [] == before;
      case Failed(_) => return false, snapshot;
      case Days(es) =>
        ok := AddMarket(snapshot, markets[n], es);
        if !ok {
          return false, snapshot;
        }
    }
    snapshot.Sort();
    ok := true;
  }

  lemma {:induction false} NoDays(m: Histories.Market)
    ensures SnapDays(m, []) == []
  {
  }

  /** The loop with `break`: the first day of that date, if any. A text before it that is no date is
      an error, one after it is never looked at. */
  function MarketIncrement(m: Histories.Market, es: seq<EsiDay>, date: int): Option<seq<HistoryDay>> {
    if es == [] then Some([])
    else
      var before, last := MarketIncrement(m, es[..|es| - 1], date), es[|es| - 1];
      if before.None? || before.value != [] then before
      else if last.date.None? then None
      else if last.date.value == date then Some([ToDay(m, last)])
      else Some([])
  }

  function AnswerIncrement(m: Histories.Market, answer: Fetched, date: int): Option<seq<HistoryDay>> {
    match answer
    case Skip => Some([])
    case Failed(_) => None
    case Days(es) => MarketIncrement(m, es, date)
  }

  /** What the incremental download of the first `n` markets ends with; None is an error. */
  function IncrementResult(markets: seq<Histories.Market>, fetch: nat -> Fetched, date: int, n: nat): Option<seq<HistoryDay>>
    requires n <= |markets|
  {
    if n == 0 then Some([])
    else
      var before := IncrementResult(markets, fetch, date, n - 1);
      var more := AnswerIncrement(markets[n - 1], fetch(n - 1), date);
      if before.Some? && more.Some? then Some(before.value + more.value) else None
  }

  /** DownloadIncrementalHistoryDump, given how each market ends. */
  method DownloadIncremental(markets: seq<Histories.Market>, fetch: nat -> Fetched, requestDate: int)
    returns (days: Option<seq<HistoryDay>>)
    ensures days == IncrementResult(markets, fetch, requestDate, |markets|)
  {
    var historyDays: seq<HistoryDay> := [];
    for n := 0 to |markets|
      invariant IncrementResult(markets, fetch, requestDate, n) == Some(historyDays)
    {
      match fetch(n)
      case Skip =>
        assert historyDays + [] == historyDays;
      case Failed(_) =>
        ErrorStays(markets, fetch, requestDate, n + 1);
        return None;
      case Days(es) =>
        ghost var before := historyDays;
        var i := 0;
        while i < |es|
          invariant 0 <= i <= |es| && historyDays == before
          invariant MarketIncrement(markets[n], es[..i], requestDate) == Some([])
        {
          assert es[..i + 1][..i] == es[..i];
          if es[i].date.None? {
            FirstStays(markets[n], es, requestDate, i + 1);
            ErrorStays(markets, fetch, requestDate, n + 1);
            return None;
          }
          if es[i].date.value == requestDate {
            historyDays := historyDays + [ToDay(markets[n], es[i])];
            FirstStays(markets[n], es, requestDate, i + 1);
            break;
          }
          i := i + 1;
        }
        assert i == |es| ==> es[..i] == es && historyDays + [] == historyDays;
    }
    days := Some(historyDays);
  }

  lemma {:induction false} FirstStays(m: Histories.Market, es: seq<EsiDay>, date: int, i: nat)
    requires i <= |es| && MarketIncrement(m, es[..i], date) != Some([])
    ensures MarketIncrement(m, es, date) == MarketIncrement(m, es[..i], date)
  {
    if i < |es| {
      assert es[..|es| - 1][..i] == es[..i];
      FirstStays(m, es[..|es| - 1], date, i);
    } else {
      assert es[..i] == es;
    }
  }

  lemma {:induction false} ErrorStays(markets: seq<Histories.Market>, fetch: nat -> Fetched, date: int, n: nat)
    requires n <= |markets| && IncrementResult(markets, fetch, date, n) == None
    ensures IncrementResult(markets, fetch, date, |markets|) == None
    decreases |markets| - n
  {
    if n < |markets| {
      ErrorStays(markets, fetch, date, n + 1);
    }
  }

  // ---------------------------------------------------------------- what the days say

  /** The day is that of the market, with the numbers of the answer. */
  predicate IsDayOf(h: HistoryDay, m: Histories.Market, e: EsiDay) {
    && h.regionId == m.regionId && h.typeId == m.typeId
    && h.average == e.average && h.highest == e.highest && h.lowest == e.lowest
    && h.orderCount == e.orderCount && h.volume == e.volume
  }

  /** How many days the first `n` answers hold. */
  function Before(fetch: nat -> Fetched, n: nat): nat {
    if n == 0 then 0 else Before(fetch, n - 1) + |DaysOf(fetch(n - 1))|
  }

  lemma {:induction false} FileLength(markets: seq<Histories.Market>, fetch: nat -> Fetched, n: nat)
    requires n <= |markets| && Healthy(fetch, n)
    ensures |FileOf(markets, fetch, n)| == Before(fetch, n)
  {
    if n > 0 {
      FileLength(markets, fetch, n - 1);
    }
  }

  /** Every day of every answer has its place in the file, with its date and its numbers; with FileLength
      there are no others. */
  lemma {:induction false} FileIsAnswers(markets: seq<Histories.Market>, fetch: nat -> Fetched, n: nat, i: nat, j: nat)
    requires i < n <= |markets| && Healthy(fetch, n) && j < |DaysOf(fetch(i))|
    ensures var file, e := FileOf(markets, fetch, n), DaysOf(fetch(i))[j];
      && Before(fetch, i) + j < |file|
      && Some(file[Before(fetch, i) + j].date) == e.date && IsDayOf(file[Before(fetch, i) + j].day, markets[i], e)
    decreases n
  {
    hide IsDayOf;
    FileLength(markets, fetch, n - 1);
    if i < n - 1 {
      FileIsAnswers(markets, fetch, n - 1, i, j);
    } else {
      DayIsAnswer(markets[i], DaysOf(fetch(i)), j);
    }
  }

  lemma {:induction false} DayIsAnswer(m: Histories.Market, es: seq<EsiDay>, j: nat)
    requires DatesParse(es) && j < |es|
    ensures |SnapDays(m, es)| == |es|
    ensures Some(SnapDays(m, es)[j].date) == es[j].date && IsDayOf(SnapDays(m, es)[j].day, m, es[j])
  {
  }

  /** The first day of that date in an answer. */
  predicate IsFirstDay(es: seq<EsiDay>, date: int, j: nat) {
    j < |es| && es[j].date == Some(date) && forall k :: 0 <= k < j ==> es[k].date != Some(date)
  }

  predicate Lists(answer: Fetched, date: int) { exists j :: 0 <= j < |DaysOf(answer)| && DaysOf(answer)[j].date == Some(date) }

  /** The markets whose answers list the date, in order. */
  function Listing(fetch: nat -> Fetched, date: int, n: nat): seq<nat> {
    if n == 0 then [] else Listing(fetch, date, n - 1) + if Lists(fetch(n - 1), date) then [n - 1] else []
  }

  /** The day is the market's first of that date in the answer. */
  ghost predicate IsFirstOf(h: HistoryDay, m: Histories.Market, answer: Fetched, date: int) {
    exists j: nat :: IsFirstDay(DaysOf(answer), date, j) && IsDayOf(h, m, DaysOf(answer)[j])
  }

  lemma {:induction false} MarketDay(m: Histories.Market, es: seq<EsiDay>, date: int)
    requires MarketIncrement(m, es, date).Some?
    ensures var r := MarketIncrement(m, es, date).value;
      if Lists(Days(es), date) then |r| == 1 && IsFirstOf(r[0], m, Days(es), date) else r == []
  {
    if es != [] {
      hide IsDayOf;
      var n := |es| - 1;
      MarketDay(m, es[..n], date);
      var before := MarketIncrement(m, es[..n], date).value;
      assert forall k :: 0 <= k < n ==> es[k] == es[..n][k];
      if before != [] {
        var j: nat :| IsFirstDay(es[..n], date, j) && IsDayOf(before[0], m, es[..n][j]);
        assert IsFirstDay(es, date, j) && IsDayOf(before[0], m, es[j]);
        assert DaysOf(Days(es))[j].date == Some(date);
      } else {
        forall k | 0 <= k < n
          ensures es[k].date != Some(date)
        {
          assert DaysOf(Days(es[..n]))[k] == es[k];
        }
        LastListed(m, es, date);
      }
    }
  }

  lemma {:induction false} LastListed(m: Histories.Market, es: seq<EsiDay>, date: int)
    requires es != [] && !exists k :: 0 <= k < |es| - 1 && es[k].date == Some(date)
    ensures Lists(Days(es), date) <==> es[|es| - 1].date == Some(date)
    ensures es[|es| - 1].date == Some(date) ==> IsFirstOf(ToDay(m, es[|es| - 1]), m, Days(es), date)
  {
    if es[|es| - 1].date == Some(date) {
      assert DaysOf(Days(es))[|es| - 1].date == Some(date);
      assert IsFirstDay(es, date, |es| - 1);
    }
  }

  lemma {:induction false} AnswerDay(m: Histories.Market, answer: Fetched, date: int)
    requires AnswerIncrement(m, answer, date).Some?
    ensures var r := AnswerIncrement(m, answer, date).value;
      if Lists(answer, date) then |r| == 1 && IsFirstOf(r[0], m, answer, date) else r == []
  {
    if answer.Days? {
      MarketDay(m, answer.data, date);
    }
  }

  /** Day `k` is the first of that date of market number `listing[k]`. */
  ghost predicate FirstDays(markets: seq<Histories.Market>, fetch: nat -> Fetched, date: int, n: nat,
                            days: seq<HistoryDay>, listing: seq<nat>)
    requires n <= |markets|
  {
    && |days| == |listing|
    && forall k :: 0 <= k < |days| ==>
         listing[k] < n && IsFirstOf(days[k], markets[listing[k]], fetch(listing[k]), date)
  }

  /** What an incremental download that succeeds gives: of each market that lists the date, in order, the
      first such day. */
  lemma {:induction false} IncrementIsAnswers(markets: seq<Histories.Market>, fetch: nat -> Fetched, date: int, n: nat)
    requires n <= |markets| && IncrementResult(markets, fetch, date, n).Some?
    ensures FirstDays(markets, fetch, date, n, IncrementResult(markets, fetch, date, n).value, Listing(fetch, date, n))
  {
    if n > 0 {
      hide AnswerIncrement, IsFirstOf, Lists, FirstDays;
      IncrementIsAnswers(markets, fetch, date, n - 1);
      AnswerDay(markets[n - 1], fetch(n - 1), date);
      var days, listing := IncrementResult(markets, fetch, date, n - 1).value, Listing(fetch, date, n - 1);
      var more := AnswerIncrement(markets[n - 1], fetch(n - 1), date).value;
      FirstDaysGrow(markets, fetch, date, n, days, listing, more, Lists(fetch(n - 1), date));
    } else {
      NoFirstDays(markets, fetch, date);
    }
  }

  lemma {:induction false} NoFirstDays(markets: seq<Histories.Market>, fetch: nat -> Fetched, date: int)
    ensures FirstDays(markets, fetch, date, 0, [], [])
  {
  }

  lemma {:induction false} FirstDaysGrow(markets: seq<Histories.Market>, fetch: nat -> Fetched, date: int, n: nat,
                                         days: seq<HistoryDay>, listing: seq<nat>, more: seq<HistoryDay>, lists: bool)
    requires 0 < n <= |markets| && FirstDays(markets, fetch, date, n - 1, days, listing)
    requires if lists then |more| == 1 && IsFirstOf(more[0], markets[n - 1], fetch(n - 1), date) else more == []
    ensures FirstDays(markets, fetch, date, n, days + more, listing + if lists then [n - 1] else [])
  {
    hide IsFirstOf;
  }

  // ---------------------------------------------------------------- the two downloads agree

  /** What a full download and a query of its snapshot end with; None is an error. */
  ghost function SnapshotResult(markets: seq<Histories.Market>, fetch: nat -> Fetched, date: int): Option<seq<HistoryDay>> {
    if Healthy(fetch, |markets|) then Some(Strip(Filter(FileOf(markets, fetch, |markets|), SnapKey, date))) else None
  }

  /** A date that is not in the index has no records, so the early return loses nothing. */
  lemma {:induction false} NotIndexed(file: seq<SnapDay>, date: int)
    ensures Filter(file, SnapKey, date) == [] <==> !exists i :: 0 <= i < |file| && file[i].date == date
  {
    FilterEmpty(file, SnapKey, date);
    assert forall i :: 0 <= i < |file| ==> SnapKey(file[i]) == file[i].date;
  }

  /** The full download followed by a query that nothing interrupts. */
  method FullThenQuery(markets: seq<Histories.Market>, fetch: nat -> Fetched, date: int)
    returns (days: Option<seq<HistoryDay>>)
    ensures days == SnapshotResult(markets, fetch, date)
  {
    hide FileOf, Filter, Healthy;
    var ok, snapshot := DownloadFull(markets, fetch);
    if !ok {
      return None;
    }
    NotIndexed(snapshot.file, date);
    StripConcat([], []);
    days := snapshot.GetHistoryDataForDay(_ => false, date);
  }

  /** How often a market lists the date. */
  function Listed(es: seq<EsiDay>, date: int): nat {
    if es == [] then 0 else Listed(es[..|es| - 1], date) + if es[|es| - 1].date == Some(date) then 1 else 0
  }

  lemma {:induction false} MarketAgrees(m: Histories.Market, es: seq<EsiDay>, date: int)
    requires DatesParse(es)
    ensures |Filter(SnapDays(m, es), SnapKey, date)| == Listed(es, date)
    ensures var r := MarketIncrement(m, es, date);
      && r.Some? && |r.value| == (if Listed(es, date) == 0 then 0 else 1)
      && (Listed(es, date) <= 1 ==> r.value == Strip(Filter(SnapDays(m, es), SnapKey, date)))
  {
    if es != [] {
      var n := |es| - 1;
      MarketAgrees(m, es[..n], date);
      assert SnapDays(m, es)[..n] == SnapDays(m, es[..n]);
    }
  }

  /** No market lists the date twice. */
  ghost predicate ListedOnce(fetch: nat -> Fetched, date: int, n: nat) {
    forall i: nat :: i < n ==> Listed(DaysOf(fetch(i)), date) <= 1
  }

  lemma {:induction false} StripConcat(a: seq<SnapDay>, b: seq<SnapDay>)
    ensures Strip(a + b) == Strip(a) + Strip(b) && |Strip(a)| == |a|
  {
  }

  /** How many records of that date the first `n` markets leave in the snapshot. */
  function Count(fetch: nat -> Fetched, date: int, n: nat): nat {
    if n == 0 then 0 else Count(fetch, date, n - 1) + Listed(DaysOf(fetch(n - 1)), date)
  }

  lemma {:induction false} QueryLength(markets: seq<Histories.Market>, fetch: nat -> Fetched, date: int, n: nat)
    requires n <= |markets| && Healthy(fetch, n)
    ensures |Filter(FileOf(markets, fetch, n), SnapKey, date)| == Count(fetch, date, n)
  {
    hide Filter, Listed, MarketIncrement;
    if n > 0 {
      QueryLength(markets, fetch, date, n - 1);
      MarketAgrees(markets[n - 1], DaysOf(fetch(n - 1)), date);
      FilterConcat(FileOf(markets, fetch, n - 1), SnapDays(markets[n - 1], DaysOf(fetch(n - 1))), SnapKey, date);
    } else {
      FilterEmpty(FileOf(markets, fetch, n), SnapKey, date);
    }
  }

  lemma {:induction false} AnswerAgrees(m: Histories.Market, answer: Fetched, date: int)
    requires !answer.Failed? && DatesParse(DaysOf(answer))
    ensures var r, es := AnswerIncrement(m, answer, date), DaysOf(answer);
      && r.Some? && |r.value| == (if Listed(es, date) == 0 then 0 else 1)
      && (Listed(es, date) <= 1 ==> r.value == Strip(Filter(SnapDays(m, es), SnapKey, date)))
  {
    MarketAgrees(m, DaysOf(answer), date);
  }

  lemma {:induction false} IncrementLength(markets: seq<Histories.Market>, fetch: nat -> Fetched, date: int, n: nat)
    requires n <= |markets| && Healthy(fetch, n)
    ensures var r := IncrementResult(markets, fetch, date, n);
      && r.Some? && |r.value| <= Count(fetch, date, n)
      && (|r.value| == Count(fetch, date, n) <==> ListedOnce(fetch, date, n))
  {
    hide Listed, AnswerIncrement;
    if n > 0 {
      IncrementLength(markets, fetch, date, n - 1);
      AnswerAgrees(markets[n - 1], fetch(n - 1), date);
      assert ListedOnce(fetch, date, n) <==> ListedOnce(fetch, date, n - 1) && Listed(DaysOf(fetch(n - 1)), date) <= 1;
    }
  }

  lemma {:induction false} ListedOnceAgrees(markets: seq<Histories.Market>, fetch: nat -> Fetched, date: int, n: nat)
    requires n <= |markets| && Healthy(fetch, n) && ListedOnce(fetch, date, n)
    ensures IncrementResult(markets, fetch, date, n) == Some(Strip(Filter(FileOf(markets, fetch, n), SnapKey, date)))
  {
    hide Filter, Listed, AnswerIncrement, Strip;
    if n > 0 {
      var part := SnapDays(markets[n - 1], DaysOf(fetch(n - 1)));
      ListedOnceAgrees(markets, fetch, date, n - 1);
      AnswerAgrees(markets[n - 1], fetch(n - 1), date);
      FilterConcat(FileOf(markets, fetch, n - 1), part, SnapKey, date);
      StripConcat(Filter(FileOf(markets, fetch, n - 1), SnapKey, date), Filter(part, SnapKey, date));
    } else {
      QueryLength(markets, fetch, date, 0);
      StripConcat([], []);
    }
  }

  /** The market fails for good, or a text that is no date comes before any day of that date. */
  ghost predicate Blocked(answer: Fetched, date: int) {
    answer.Failed? || exists j :: 0 <= j < |DaysOf(answer)| && BadDateFirst(DaysOf(answer), date, j)
  }

  predicate BadDateFirst(es: seq<EsiDay>, date: int, j: nat)
    requires j < |es|
  {
    es[j].date.None? && forall k :: 0 <= k < j ==> es[k].date != Some(date)
  }

  lemma {:induction false} MarketBlocked(m: Histories.Market, es: seq<EsiDay>, date: int)
    ensures MarketIncrement(m, es, date) == None <==> exists j :: 0 <= j < |es| && BadDateFirst(es, date, j)
    ensures MarketIncrement(m, es, date) == Some([]) ==> forall k :: 0 <= k < |es| ==> es[k].date != Some(date)
    ensures var r := MarketIncrement(m, es, date);
            r.Some? && r.value != [] ==> exists k :: 0 <= k < |es| && es[k].date == Some(date)
  {
    if es != [] {
      var n := |es| - 1;
      MarketBlocked(m, es[..n], date);
      BlockedPrefix(es, date);
      var before := MarketIncrement(m, es[..n], date);
      if before.Some? && before.value != [] {
        var k :| 0 <= k < n && es[..n][k].date == Some(date);
        assert es[k].date == Some(date) && !BadDateFirst(es, date, n);
      } else if before.Some? {
        assert forall k :: 0 <= k < n ==> es[k].date == es[..n][k].date;
        assert BadDateFirst(es, date, n) <==> es[n].date.None?;
      }
    }
  }

  lemma {:induction false} BlockedPrefix(es: seq<EsiDay>, date: int)
    requires es != []
    ensures var n := |es| - 1;
      (exists j :: 0 <= j < |es| && BadDateFirst(es, date, j)) <==>
      (exists j :: 0 <= j < n && BadDateFirst(es[..n], date, j)) || BadDateFirst(es, date, n)
  {
    var n := |es| - 1;
    forall j | 0 <= j < n
      ensures BadDateFirst(es, date, j) == BadDateFirst(es[..n], date, j)
    {
      assert forall k :: 0 <= k <= j ==> es[..n][k] == es[k];
    }
  }

  lemma {:induction false} IncrementBlocked(markets: seq<Histories.Market>, fetch: nat -> Fetched, date: int, n: nat)
    requires n <= |markets|
    ensures IncrementResult(markets, fetch, date, n) == None <==> exists i: nat :: i < n && Blocked(fetch(i), date)
  {
    hide MarketIncrement;
    if n > 0 {
      IncrementBlocked(markets, fetch, date, n - 1);
      MarketBlocked(markets[n - 1], DaysOf(fetch(n - 1)), date);
    }
  }

  lemma {:induction false} HealthyIsNotBlocked(fetch: nat -> Fetched, date: int, n: nat)
    requires Healthy(fetch, n)
    ensures !exists i: nat :: i < n && Blocked(fetch(i), date)
  {
  }

  /** For every list of markets and every server. Both downloads succeed with the same days exactly
      when every market answers in dates and none lists that date twice. They both fail exactly when
      some market fails or its bad date comes first. The incremental download alone succeeds exactly
      on the other unhealthy servers, and the full download never succeeds alone. */
  lemma {:induction false} DownloadsAgree(markets: seq<Histories.Market>, fetch: nat -> Fetched, date: int)
    ensures var n, full := |markets|, SnapshotResult(markets, fetch, date);
      var increment := IncrementResult(markets, fetch, date, n);
      && (full.Some? && increment == full <==> Healthy(fetch, n) && ListedOnce(fetch, date, n))
      && (increment == None <==> exists i: nat :: i < n && Blocked(fetch(i), date))
      && (full == None <==> !Healthy(fetch, n))
      && (increment == None ==> full == None)
  {
    var n := |markets|;
    IncrementBlocked(markets, fetch, date, n);
    if Healthy(fetch, n) {
      HealthyIsNotBlocked(fetch, date, n);
      QueryLength(markets, fetch, date, n);
      IncrementLength(markets, fetch, date, n);
      StripConcat(Filter(FileOf(markets, fetch, n), SnapKey, date), []);
      if ListedOnce(fetch, date, n) {
        ListedOnceAgrees(markets, fetch, date, n);
      }
    }
  }

  /** The outcomes, errors included, are the same exactly when the server is healthy and lists the
      date once a market, or blocks both. */
  lemma {:induction false} SameOutcomeExactly(markets: seq<Histories.Market>, fetch: nat -> Fetched, date: int)
    ensures SnapshotResult(markets, fetch, date) == IncrementResult(markets, fetch, date, |markets|) <==>
            || (Healthy(fetch, |markets|) && ListedOnce(fetch, date, |markets|))
            || exists i: nat :: i < |markets| && Blocked(fetch(i), date)
  {
    DownloadsAgree(markets, fetch, date);
  }

  /** A day found before a bad date: only the incremental download succeeds. */
  lemma {:induction false} BadDateAfterTheDay(m: Histories.Market, good: EsiDay, bad: EsiDay)
    requires good.date.Some? && bad.date.None?
    ensures var fetch: nat -> Fetched := _ => Days([good, bad]);
      && SnapshotResult([m], fetch, good.date.value) == None
      && IncrementResult([m], fetch, good.date.value, 1) == Some([ToDay(m, good)])
  {
    var fetch: nat -> Fetched := _ => Days([good, bad]);
    assert fetch(0) == Days([good, bad]);
    assert [good, bad][1].date.None?;
    assert [good, bad][..1] == [good] && [good][..0] == [];
    assert MarketIncrement(m, [good], good.date.value) == Some([ToDay(m, good)]);
    assert MarketIncrement(m, [good, bad], good.date.value) == Some([ToDay(m, good)]);
    assert IncrementResult([m], fetch, good.date.value, 0) == Some([]);
    assert [] + [ToDay(m, good)] == [ToDay(m, good)];
  }

  /** The results of querying one date after the other. */
  function QueryAll(file: seq<SnapDay>, dates: seq<int>): seq<HistoryDay> {
    if dates == [] then []
    else QueryAll(file, dates[..|dates| - 1]) + Strip(Filter(file, SnapKey, dates[|dates| - 1]))
  }

  lemma {:induction false} QueryAllIsConcat(file: seq<SnapDay>, dates: seq<int>)
    ensures QueryAll(file, dates) == Strip(Concat(file, SnapKey, dates))
  {
    if dates != [] {
      QueryAllIsConcat(file, dates[..|dates| - 1]);
    }
  }

  /** Going through `Dates` gives the whole file, stably sorted by date. */
  lemma {:induction false} AllDatesGiveEverything(snapshot: HistorySnapshot)
    requires snapshot.Indexed() && StrictlyIncreasing(snapshot.dates)
    ensures var sorted := Concat(snapshot.file, SnapKey, snapshot.dates);
      && QueryAll(snapshot.file, snapshot.dates) == Strip(sorted)
      && IsStableSort(sorted, snapshot.file, SnapKey)
      && multiset(sorted) == multiset(snapshot.file)
  {
    var file, dates := snapshot.file, snapshot.dates;
    QueryAllIsConcat(file, dates);
    forall i | 0 <= i < |file|
      ensures SnapKey(file[i]) in dates
    {
      assert file[i].date == SnapKey(file[i]);
    }
    BucketsAreStableSort(file, SnapKey, dates);
    StableSortIsPermutation(Concat(file, SnapKey, dates), file, SnapKey);
  }
}

/** The initial download of hoardling_histories: every market's history goes to one snapshot file,
    which a sweep over the calendar then splits into one dump a day. */
module DateSweep {
  import opened Wrappers
  import opened Ints
  import opened Bytes
  import opened Crc32
  import opened Dates
  import opened DumpFiles
  import opened Records
  import opened Histories
  import opened Buckets

  /** What history_download ends with for one market, after its retries. */
  datatype Download = Found(bits: seq<Bit>) | NotFound | Failed

  /** Year 0 stands for "no date yet". */
  datatype Window = Window(first: Date, last: Date)

  const NO_DATE := Date(0, 0)

  function Widen(w: Window, bits: seq<Bit>): Window
    requires bits != []
  {
    var f, l := bits[0].date, bits[|bits| - 1].date;
    Window(if w.first.year == 0 || IsBefore(f, w.first) then f else w.first,
           if w.last.year == 0 || IsAfter(l, w.last) then l else w.last)
  }

  function WindowOf(ds: seq<Download>): Window {
    if ds == [] then Window(NO_DATE, NO_DATE)
    else
      var d := ds[|ds| - 1];
      var w := WindowOf(ds[..|ds| - 1]);
      if d.Found? && d.bits != [] then Widen(w, d.bits) else w
  }

  /** All records in the order they are written. */
  function AllBits(ds: seq<Download>): seq<Bit> {
    if ds == [] then []
    else AllBits(ds[..|ds| - 1]) + if ds[|ds| - 1].Found? then ds[|ds| - 1].bits else []
  }

  /** The order of dates as numbers. */
  function Key(d: Date): int { 0x1_0000 * d.year + d.day }

  function BitKey(b: Bit): int { Key(b.date) }

  function OfDate(bits: seq<Bit>, d: Date): seq<Bit> { Filter(bits, BitKey, Key(d)) }

  lemma {:induction false} KeyOrder(a: Date, b: Date)
    ensures IsBefore(a, b) <==> Key(a) < Key(b)
    ensures IsAfter(a, b) <==> Key(a) > Key(b)
    ensures a == b <==> Key(a) == Key(b)
  {
  }

  // ---------------------------------------------------------------- the snapshot

  /** No market fails for good and some record has a date. */
  predicate Snaps(ds: seq<Download>) {
    (forall i :: 0 <= i < |ds| ==> ds[i] != Failed) && WindowOf(ds).first.year != 0 && WindowOf(ds).last.year != 0
  }

  /** The download loop: widen the window, append to the snapshot, close it. */
  method Snapshot(ds: seq<Download>, f: StoredFile) returns (ok: bool, window: Window)
    modifies f
    ensures ok <==> Snaps(ds)
    ensures ok ==> window == WindowOf(ds)
    ensures ok ==> f.bytes == Finished(3, 0, EncodeBits(AllBits(ds)))
  {
    hide Crc, BE, BitFields, Encode;
    var dump := new Dump();
    dump.OpenWrite(f, DUMP_TYPE_INTERNAL, 0);
    window := Window(NO_DATE, NO_DATE);
    for i := 0 to |ds|
      invariant dump.Writing() && dump.file == f && fresh(dump)
      invariant dump.header == Header(DUMP_TYPE_INTERNAL, 0, 0)
      invariant dump.body == EncodeBits(AllBits(ds[..i]))
      invariant window == WindowOf(ds[..i])
      invariant forall j :: 0 <= j < i ==> ds[j] != Failed
    {
      assert ds[..i + 1][..i] == ds[..i];
      if ds[i] == Failed {
        return false, window;
      }
      ghost var before := AllBits(ds[..i]);
      assert before + [] == before;
      assert AllBits(ds[..i + 1]) == before + if ds[i].Found? then ds[i].bits else [];
      if ds[i].Found? && ds[i].bits != [] {
        window := Widen(window, ds[i].bits);
        WriteBits(dump, ds[i].bits);
        EncodeConcat(before, ds[i].bits);
      }
    }
    assert ds[..|ds|] == ds;
    if window.first.year == 0 || window.last.year == 0 {
      return false, window;
    }
    ghost var header := dump.header;
    dump.CloseWrite();
    PatchedHeader(DUMP_TYPE_INTERNAL, 0, EncodeBits(AllBits(ds)));
    ok := true;
  }

  /** Year 0 cannot be told from no date at all: one record of that year at either end, and nothing is
      swept. */
  lemma {:induction false} YearZeroIsNoDate(b: Bit, c: Bit)
    requires b.date.year == 0 || c.date.year == 0
    ensures !Snaps([Found([b, c])])
  {
    assert [Found([b, c])][..0] == [];
    assert WindowOf([Found([b, c])]) == Window(b.date, c.date);
  }

  lemma {:induction false} EncodeOneMore(bits: seq<Bit>, b: Bit)
    ensures EncodeBits(bits + [b]) == EncodeBits(bits) + Encode(BitFields(b))
  {
    hide BitFields, Encode, EncodeBits;
    EncodeLast(bits + [b]);
    assert (bits + [b])[..|bits|] == bits;
  }

  lemma {:induction false} EncodeConcat(a: seq<Bit>, b: seq<Bit>)
    ensures EncodeBits(a + b) == EncodeBits(a) + EncodeBits(b)
  {
    hide EncodeBits;
    EncodeLast(b);
    if b == [] {
      assert a + b == a;
    } else {
      var init, last := b[..|b| - 1], b[|b| - 1];
      assert b == init + [last];
      EncodeConcat(a, init);
      EncodeConcatStep(a, init, last);
    }
  }

  lemma {:induction false} EncodeConcatStep(a: seq<Bit>, b: seq<Bit>, last: Bit)
    requires EncodeBits(a + b) == EncodeBits(a) + EncodeBits(b)
    ensures EncodeBits(a + (b + [last])) == EncodeBits(a) + EncodeBits(b + [last])
  {
    hide BitFields, Encode, EncodeBits;
    assert a + (b + [last]) == a + b + [last];
    EncodeOneMore(a + b, last);
    EncodeOneMore(b, last);
    var x, y, z := EncodeBits(a), EncodeBits(b), Encode(BitFields(last));
    assert x + y + z == x + (y + z);
  }

  // ---------------------------------------------------------------- one day of the sweep

  /** How a snapshot of any length ends: whole records, then what is too short for one. */
  function Whole(f: seq<Byte>): (k: nat)
    requires |f| >= HEADER_SIZE
    ensures HEADER_SIZE + 60 * k <= |f| < HEADER_SIZE + 60 * (k + 1)
  {
    (|f| - HEADER_SIZE) / 60
  }

  /** The file breaks off within the floats of a record. */
  predicate CutInFloats(f: seq<Byte>)
    requires |f| >= HEADER_SIZE
  {
    20 <= (|f| - HEADER_SIZE) % 60 < 44
  }

  lemma {:induction false} NoneOfDate(f: seq<Byte>, d: Date)
    requires |f| >= HEADER_SIZE
    ensures OfDate(Bits(f, HEADER_SIZE, 0), d) == []
  {
  }

  method KeepDate(chunk: seq<Bit>, date: Date) returns (bits: seq<Bit>)
    ensures bits == OfDate(chunk, date)
  {
    bits := [];
    for i := 0 to |chunk|
      invariant bits == OfDate(chunk[..i], date)
    {
      KeyOrder(date, chunk[i].date);
      assert chunk[..i + 1][..i] == chunk[..i];
      if IsEqual(date, chunk[i].date) {
        bits := bits + [chunk[i]];
      }
    }
    assert chunk[..|chunk|] == chunk;
  }

  /** One pass over the snapshot in chunks of `n` records, keeping those of the date. */
  method ReadDay(dump: Dump, date: Date, n: nat) returns (ok: bool, bits: seq<Bit>)
    requires dump.Reading() && |dump.file.bytes| >= HEADER_SIZE && n >= 1
    modifies dump`pos, dump`eof
    ensures ok <==> !CutInFloats(dump.file.bytes)
    ensures ok ==> bits == OfDate(Bits(dump.file.bytes, HEADER_SIZE, Whole(dump.file.bytes)), date)
  {
    hide Bits, Filter;
    bits := [];
    dump.SeekStart();
    var eof := false;
    ghost var f, k, total := dump.file.bytes, 0, Whole(dump.file.bytes);
    NoneOfDate(f, date);
    while !eof
      invariant k <= total
      invariant !eof ==> dump.pos == HEADER_SIZE + 60 * k
      invariant eof ==> k == total && !CutInFloats(f)
      invariant bits == OfDate(Bits(f, HEADER_SIZE, k), date)
      decreases total - k, !eof
    {
      ghost var room := |f| - dump.pos;
      Chunk(|f| - HEADER_SIZE, k);
      var status, chunk := ReadBits(dump, [], n);
      if status == EOF {
        eof := true;
      } else if status == ERR {
        return false, [];
      }
      ghost var l := |chunk|;
      assert chunk == Bits(f, HEADER_SIZE + 60 * k, l);
      BitsSplit(f, HEADER_SIZE, k, l);
      FilterConcat(Bits(f, HEADER_SIZE, k), chunk, BitKey, Key(date));
      var matching := KeepDate(chunk, date);
      bits := bits + matching;
      k := k + l;
    }
    ok := true;
  }

  lemma {:induction false} Chunk(size: nat, k: nat)
    requires k <= size / 60
    ensures (size - 60 * k) / 60 == size / 60 - k
    ensures (size - 60 * k) % 60 == size % 60
  {
  }

  // ---------------------------------------------------------------- the days that are visited

  /** The day on which the 16-bit year wraps. */
  const LAST_DAY := Date(65535, 365)

  /** The guard without which the sweep never gets past its last day. */
  predicate SweepEnds(first: Date, last: Date) {
    IsBefore(last, first) || IsBefore(last, LAST_DAY)
  }

  /** The days the sweep stops at: the first one, whatever it is, then real calendar days. */
  predicate Visited(first: Date, last: Date, d: Date) {
    !IsAfter(d, last) && (d == first || (IsOrdinal(d) && IsBefore(first, d)))
  }

  /** date_incr goes to the next calendar day and skips none. */
  lemma {:induction false} NextSkipsNothing(d: Date, x: Date)
    requires IsBefore(d, LAST_DAY)
    ensures IsOrdinal(Next(d)) && IsBefore(d, Next(d))
    ensures IsOrdinal(x) && IsBefore(d, x) ==> !IsBefore(x, Next(d))
  {
    if d.day >= DaysInYear(d.year) {
      Truncated(d.year + 1);
    }
  }

  function NextTimes(d: Date, k: nat): Date { if k == 0 then d else Next(NextTimes(d, k - 1)) }

  /** Without the guard the condition of the loop stays true forever. */
  lemma {:induction false} OtherwiseForever(first: Date, last: Date, k: nat)
    requires !SweepEnds(first, last)
    ensures !IsAfter(NextTimes(first, k), last)
  {
    if k > 0 {
      OtherwiseForever(first, last, k - 1);
      var d := NextTimes(first, k - 1);
      if d.day >= DaysInYear(d.year) && d.year < UINT16_MAX {
        Truncated(d.year + 1);
      }
    }
  }

  /** A year has no day that late by the count of date_parse, which starts at 0: the last one of 65535
      is 364. So no download dated by date_parse is without the guard. */
  lemma {:induction false} ZeroBasedSweepsEnd(first: Date, last: Date)
    requires last.day < DaysInYear(last.year)
    ensures SweepEnds(first, last)
  {
    assert !IsLeapYear(UINT16_MAX);
  }

  /** With days counted from 1 one record is enough for a sweep that never ends. */
  lemma {:induction false} OneBasedSweepForever(b: Bit)
    requires b.date == LAST_DAY
    ensures var w := WindowOf([Found([b])]);
            Snaps([Found([b])]) && w == Window(LAST_DAY, LAST_DAY) && !SweepEnds(w.first, w.last)
  {
    assert [Found([b])][..0] == [];
  }

  /** The dumps on disk: what was there before, plus one per visited day before `until`. */
  ghost predicate Dumped(dir: map<Date, seq<Byte>>, dir': map<Date, seq<Byte>>, bits: seq<Bit>, first: Date,
                         last: Date, until: int) {
    forall d: Date ::
      && (d in dir ==> d in dir' && dir'[d] == dir[d])
      && (d !in dir && Visited(first, last, d) && Key(d) < until ==>
            d in dir' && dir'[d] == Finished(DUMP_TYPE_HISTORIES, 0, EncodeDay(d, OfDate(bits, d))))
      && (d !in dir && !(Visited(first, last, d) && Key(d) < until) ==> d !in dir')
  }

  /** hoardling_histories_dump: an existing dump is left alone and reported as E_FULL. */
  method WriteDay(dir: map<Date, seq<Byte>>, d: Date, bits: seq<Bit>) returns (full: bool, dir': map<Date, seq<Byte>>)
    requires |bits| < 0x1_0000_0000_0000_0000
    ensures full <==> d in dir
    ensures dir' == if full then dir else dir[d := Finished(DUMP_TYPE_HISTORIES, 0, EncodeDay(d, bits))]
  {
    hide Crc, EncodeDay;
    full := d in dir;
    if full {
      return true, dir;
    }
    var f := new StoredFile();
    var dump := new Dump();
    dump.OpenWrite(f, DUMP_TYPE_HISTORIES, 0);
    WriteHistoryDump(dump, d, bits);
    assert dump.body == EncodeDay(d, bits);
    dump.CloseWrite();
    PatchedHeader(DUMP_TYPE_HISTORIES, 0, EncodeDay(d, bits));
    dir' := dir[d := f.bytes];
  }

  lemma {:induction false} FilterLength(bits: seq<Bit>, k: int)
    ensures |Filter(bits, BitKey, k)| <= |bits|
  {
    if bits != [] {
      FilterLength(bits[..|bits| - 1], k);
    }
  }

  lemma {:induction false} DumpedOneMore(dir: map<Date, seq<Byte>>, dir1: map<Date, seq<Byte>>, bits: seq<Bit>, first: Date,
                      last: Date, d: Date)
    requires Dumped(dir, dir1, bits, first, last, Key(d))
    requires Visited(first, last, d) && IsBefore(d, LAST_DAY)
    ensures Dumped(dir, if d in dir1 then dir1 else dir1[d := Finished(DUMP_TYPE_HISTORIES, 0, EncodeDay(d, OfDate(bits, d)))],
                   bits, first, last, Key(Next(d)))
  {
    hide Finished, EncodeDay, OfDate;
    NextSkipsNothing(d, d);
    KeyOrder(d, Next(d));
    forall x: Date
      ensures Visited(first, last, x) && Key(x) < Key(Next(d)) <==> (Visited(first, last, x) && Key(x) < Key(d)) || x == d
    {
      NextSkipsNothing(d, x);
      KeyOrder(d, x);
      KeyOrder(x, Next(d));
    }
  }

  lemma {:induction false} FirstIsVisited(first: Date, last: Date)
    ensures !IsAfter(first, last) <==> Visited(first, last, first)
  {
  }

  lemma {:induction false} NextIsVisited(first: Date, last: Date, d: Date)
    requires Visited(first, last, d) && IsBefore(d, LAST_DAY)
    ensures !IsAfter(Next(d), last) ==> Visited(first, last, Next(d))
    ensures Key(d) < Key(Next(d)) && Next(d) != first
  {
    NextSkipsNothing(d, d);
    KeyOrder(d, Next(d));
    KeyOrder(first, d);
    KeyOrder(d, first);
  }

  /** The sweep over a snapshot file of any contents: a file that breaks off within the floats of a
      record stops it at the first day, any other gives one dump a day of its whole records. */
  method Sweep(f: StoredFile, window: Window, dir: map<Date, seq<Byte>>)
    returns (ok: bool, dir': map<Date, seq<Byte>>)
    requires |f.bytes| >= HEADER_SIZE && Whole(f.bytes) < 0x1_0000_0000_0000_0000
    requires SweepEnds(window.first, window.last) || CutInFloats(f.bytes)
    ensures ok <==> IsAfter(window.first, window.last) || !CutInFloats(f.bytes)
    ensures !ok ==> dir' == dir
    ensures ok ==> Dumped(dir, dir', Bits(f.bytes, HEADER_SIZE, Whole(f.bytes)),
                          window.first, window.last, Key(window.last) + 1)
  {
    hide Finished, EncodeBits, EncodeDay, Filter, Dumped, Bits, BitAt, Next, IsOrdinal, Whole, Visited, CutInFloats;
    var dump := new Dump();
    dump.OpenRead(f);
    ghost var bits := Bits(f.bytes, HEADER_SIZE, Whole(f.bytes));
    dir' := dir;
    var date := new DateCell(window.first);
    NothingDumped(dir, bits, window.first, window.last);
    FirstIsVisited(window.first, window.last);
    while IsBefore(date.Get(), window.last) || IsEqual(date.Get(), window.last)
      invariant fresh(date) && fresh(dump) && dump.Reading() && dump.file == f && unchanged(f)
      invariant Dumped(dir, dir', bits, window.first, window.last, Key(date.Get()))
      invariant !IsAfter(date.Get(), window.last) ==> Visited(window.first, window.last, date.Get())
      invariant date.Get() == window.first ==> dir' == dir
      invariant date.Get() != window.first ==> !CutInFloats(f.bytes)
      decreases Key(window.last) - Key(date.Get())
    {
      var d := date.Get();
      KeyOrder(d, window.last);
      var day;
      ok, day := ReadDay(dump, d, 10000);
      if !ok {
        return;
      }
      FilterLength(bits, Key(d));
      DumpedOneMore(dir, dir', bits, window.first, window.last, d);
      var full;
      full, dir' := WriteDay(dir', d, day);
      NextIsVisited(window.first, window.last, d);
      date.Incr();
    }
    AllDumped(dir, dir', bits, window.first, window.last, date.Get());
    ok := true;
  }

  lemma {:induction false} SnapshotLayout(f: seq<Byte>, bits: seq<Bit>)
    requires f == Finished(DUMP_TYPE_INTERNAL, 0, EncodeBits(bits))
    ensures |f| == HEADER_SIZE + 60 * |bits| && Whole(f) == |bits|
    ensures Bits(f, HEADER_SIZE, |bits|) == bits
    ensures (|f| - HEADER_SIZE) % 60 == 0
  {
    hide BitAt, EncodeBits, Header;
    var head := f[..HEADER_SIZE];
    BitsRoundTrip(head, bits, []);
    assert f == head + EncodeBits(bits) + [];
    Chunk(60 * |bits|, |bits|);
  }

  lemma {:induction false} NothingDumped(dir: map<Date, seq<Byte>>, bits: seq<Bit>, first: Date, last: Date)
    ensures Dumped(dir, dir, bits, first, last, Key(first))
  {
  }

  lemma {:induction false} AllDumped(dir: map<Date, seq<Byte>>, dir': map<Date, seq<Byte>>, bits: seq<Bit>, first: Date,
                  last: Date, d: Date)
    requires Dumped(dir, dir', bits, first, last, Key(d)) && IsAfter(d, last)
    ensures Dumped(dir, dir', bits, first, last, Key(last) + 1)
  {
    hide Finished, EncodeDay, OfDate;
  }

  // ---------------------------------------------------------------- the partition

  /** The visited days in the order of the sweep. */
  ghost function Days(first: Date, last: Date): seq<Date>
    requires SweepEnds(first, last)
    decreases Key(last) - Key(first)
  {
    if IsAfter(first, last) then []
    else
      KeyOrder(first, last);
      NextSkipsNothing(first, first);
      KeyOrder(first, Next(first));
      [first] + if IsAfter(Next(first), last) then [] else Days(Next(first), last)
  }

  lemma {:induction false} DaysAreVisited(first: Date, last: Date)
    requires SweepEnds(first, last)
    ensures forall d: Date :: d in Days(first, last) <==> Visited(first, last, d)
    ensures forall i, j :: 0 <= i < j < |Days(first, last)| ==> Key(Days(first, last)[i]) < Key(Days(first, last)[j])
    decreases Key(last) - Key(first)
  {
    if !IsAfter(first, last) {
      KeyOrder(first, last);
      NextSkipsNothing(first, first);
      KeyOrder(first, Next(first));
      var rest := if IsAfter(Next(first), last) then [] else Days(Next(first), last);
      if !IsAfter(Next(first), last) {
        DaysAreVisited(Next(first), last);
      }
      forall d: Date
        ensures d in rest <==> Visited(first, last, d) && d != first
      {
        NextSkipsNothing(first, d);
      }
      forall j | 0 <= j < |rest|
        ensures Key(first) < Key(rest[j])
      {
        assert rest[j] in rest;
        KeyOrder(first, rest[j]);
      }
    }
  }

  function Keys(ds: seq<Date>): seq<int> { seq(|ds|, i requires 0 <= i < |ds| => Key(ds[i])) }

  /** Side by side in calendar order the day lists are the whole snapshot, stably sorted by date,
      exactly when every record is dated on a visited day. */
  lemma {:induction false} SweepPartitions(bits: seq<Bit>, first: Date, last: Date)
    requires SweepEnds(first, last)
    ensures IsStableSort(Concat(bits, BitKey, Keys(Days(first, last))), bits, BitKey)
            <==> forall i :: 0 <= i < |bits| ==> Visited(first, last, bits[i].date)
  {
    var ks := Keys(Days(first, last));
    DaysAreVisited(first, last);
    assert StrictlyIncreasing(ks);
    BucketsAreStableSort(bits, BitKey, ks);
    forall i | 0 <= i < |bits|
      ensures BitKey(bits[i]) in ks <==> Visited(first, last, bits[i].date)
    {
      KeyInDays(Days(first, last), bits[i].date);
    }
  }

  lemma {:induction false} KeyInDays(ds: seq<Date>, d: Date)
    ensures Key(d) in Keys(ds) <==> d in ds
  {
    if d in ds {
      var i :| 0 <= i < |ds| && ds[i] == d;
      assert Keys(ds)[i] == Key(d);
    }
    if Key(d) in Keys(ds) {
      var i :| 0 <= i < |ds| && Keys(ds)[i] == Key(d);
      KeyOrder(ds[i], d);
    }
  }

  ghost predicate Sorted(bits: seq<Bit>) {
    forall i, j :: 0 <= i < j < |bits| ==> !IsAfter(bits[i].date, bits[j].date)
  }

  /** What the server sends: histories in order of date, no date in year 0. */
  ghost predicate WellOrdered(ds: seq<Download>) {
    forall i :: 0 <= i < |ds| && ds[i].Found? ==>
      Sorted(ds[i].bits) && forall j :: 0 <= j < |ds[i].bits| ==> ds[i].bits[j].date.year != 0
  }

  ghost predicate Covers(w: Window, bits: seq<Bit>) {
    forall i :: 0 <= i < |bits| ==> !IsBefore(bits[i].date, w.first) && !IsAfter(bits[i].date, w.last)
  }

  /** first_day and last_day bound every record, though only the ends of each history are looked at. */
  lemma {:induction false} WindowCovers(ds: seq<Download>)
    requires WellOrdered(ds)
    ensures Covers(WindowOf(ds), AllBits(ds))
    ensures AllBits(ds) == [] <==> WindowOf(ds).first.year == 0
    ensures AllBits(ds) == [] <==> WindowOf(ds).last.year == 0
    ensures AllBits(ds) != [] ==> !IsAfter(WindowOf(ds).first, WindowOf(ds).last)
  {
    if ds != [] {
      var n := |ds| - 1;
      WindowCovers(ds[..n]);
      if ds[n].Found? && ds[n].bits != [] {
        WidenCovers(WindowOf(ds[..n]), AllBits(ds[..n]), ds[n].bits);
      } else {
        assert AllBits(ds[..n]) + [] == AllBits(ds[..n]);
      }
    }
  }

  lemma {:induction false} WidenCovers(w: Window, before: seq<Bit>, bits: seq<Bit>)
    requires Covers(w, before) && (before == [] <==> w.first.year == 0) && (before == [] <==> w.last.year == 0)
    requires before != [] ==> !IsAfter(w.first, w.last)
    requires bits != [] && Sorted(bits) && forall j :: 0 <= j < |bits| ==> bits[j].date.year != 0
    ensures Covers(Widen(w, bits), before + bits)
    ensures Widen(w, bits).first.year != 0 && Widen(w, bits).last.year != 0
    ensures !IsAfter(Widen(w, bits).first, Widen(w, bits).last)
  {
    var w' := Widen(w, bits);
    forall i | 0 <= i < |bits|
      ensures !IsBefore(bits[i].date, w'.first) && !IsAfter(bits[i].date, w'.last)
    {
      assert !IsAfter(bits[0].date, bits[i].date) && !IsAfter(bits[i].date, bits[|bits| - 1].date);
    }
  }

  function FirstOf(d: Download): Date
    requires HasBits(d)
  {
    d.bits[0].date
  }

  function LastOf(d: Download): Date
    requires HasBits(d)
  {
    d.bits[|d.bits| - 1].date
  }

  /** Some history begins with the date, none before it. */
  ghost predicate IsEarliest(d: Date, ds: seq<Download>) {
    && (exists i :: 0 <= i < |ds| && HasBits(ds[i]) && FirstOf(ds[i]) == d)
    && forall i :: 0 <= i < |ds| && HasBits(ds[i]) ==> !IsBefore(FirstOf(ds[i]), d)
  }

  /** Some history ends with the date, none after it. */
  ghost predicate IsLatest(d: Date, ds: seq<Download>) {
    && (exists i :: 0 <= i < |ds| && HasBits(ds[i]) && LastOf(ds[i]) == d)
    && forall i :: 0 <= i < |ds| && HasBits(ds[i]) ==> !IsAfter(LastOf(ds[i]), d)
  }

  /** The window is made of dates that some history really begins and ends with. */
  ghost predicate Attained(w: Window, ds: seq<Download>) { IsEarliest(w.first, ds) && IsLatest(w.last, ds) }

  predicate HasBits(d: Download) { d.Found? && d.bits != [] }

  lemma {:induction false} WindowAttained(ds: seq<Download>)
    requires forall i :: 0 <= i < |ds| && HasBits(ds[i]) ==>
               FirstOf(ds[i]).year != 0 && LastOf(ds[i]).year != 0
    ensures if exists i :: 0 <= i < |ds| && HasBits(ds[i]) then Attained(WindowOf(ds), ds)
            else WindowOf(ds) == Window(NO_DATE, NO_DATE)
  {
    if ds != [] {
      hide HasBits, Attained;
      var n := |ds| - 1;
      assert forall i :: 0 <= i < n ==> ds[..n][i] == ds[i];
      WindowAttained(ds[..n]);
      if exists i :: 0 <= i < n && HasBits(ds[i]) {
        var i :| 0 <= i < n && HasBits(ds[i]);
        assert HasBits(ds[..n][i]);
        YearsAttained(ds[..n]);
        AttainedOneMore(ds);
      } else if HasBits(ds[n]) {
        AttainedFirst(ds);
      } else {
        NotWidened(ds);
      }
    }
  }

  lemma {:induction false} YearsAttained(ds: seq<Download>)
    requires Attained(WindowOf(ds), ds)
    requires forall i :: 0 <= i < |ds| && HasBits(ds[i]) ==>
               FirstOf(ds[i]).year != 0 && LastOf(ds[i]).year != 0
    ensures WindowOf(ds).first.year != 0 && WindowOf(ds).last.year != 0
  {
    hide WindowOf, HasBits;
  }

  lemma {:induction false} NotWidened(ds: seq<Download>)
    requires ds != [] && !HasBits(ds[|ds| - 1])
    ensures WindowOf(ds) == WindowOf(ds[..|ds| - 1])
  {
  }

  lemma {:induction false} AttainedFirst(ds: seq<Download>)
    requires ds != [] && HasBits(ds[|ds| - 1]) && WindowOf(ds[..|ds| - 1]) == Window(NO_DATE, NO_DATE)
    requires forall i :: 0 <= i < |ds| - 1 ==> !HasBits(ds[i])
    ensures Attained(WindowOf(ds), ds)
  {
  }

  lemma {:induction false} EarliestOneMore(d: Date, d': Date, ds: seq<Download>)
    requires ds != [] && IsEarliest(d, ds[..|ds| - 1])
    requires d' == if HasBits(ds[|ds| - 1]) && IsBefore(FirstOf(ds[|ds| - 1]), d) then FirstOf(ds[|ds| - 1]) else d
    ensures IsEarliest(d', ds)
  {
    hide HasBits, FirstOf;
    var n := |ds| - 1;
    var i :| 0 <= i < n && HasBits(ds[..n][i]) && FirstOf(ds[..n][i]) == d;
    assert HasBits(ds[i]) && FirstOf(ds[i]) == d;
    assert forall k :: 0 <= k < n ==> ds[..n][k] == ds[k];
  }

  lemma {:induction false} LatestOneMore(d: Date, d': Date, ds: seq<Download>)
    requires ds != [] && IsLatest(d, ds[..|ds| - 1])
    requires d' == if HasBits(ds[|ds| - 1]) && IsAfter(LastOf(ds[|ds| - 1]), d) then LastOf(ds[|ds| - 1]) else d
    ensures IsLatest(d', ds)
  {
    hide HasBits, LastOf;
    var n := |ds| - 1;
    var i :| 0 <= i < n && HasBits(ds[..n][i]) && LastOf(ds[..n][i]) == d;
    assert HasBits(ds[i]) && LastOf(ds[i]) == d;
    assert forall k :: 0 <= k < n ==> ds[..n][k] == ds[k];
  }

  lemma {:induction false} AttainedOneMore(ds: seq<Download>)
    requires ds != [] && Attained(WindowOf(ds[..|ds| - 1]), ds[..|ds| - 1])
    requires HasBits(ds[|ds| - 1]) ==> WindowOf(ds[..|ds| - 1]).first.year != 0 && WindowOf(ds[..|ds| - 1]).last.year != 0
    ensures Attained(WindowOf(ds), ds)
  {
    hide IsEarliest, IsLatest;
    var w, w' := WindowOf(ds[..|ds| - 1]), WindowOf(ds);
    EarliestOneMore(w.first, w'.first, ds);
    LatestOneMore(w.last, w'.last, ds);
  }

  /** How many records the first `i` markets have. */
  function Before(ds: seq<Download>, i: nat): nat
    requires i <= |ds|
  {
    if i == 0 then 0 else Before(ds, i - 1) + if ds[i - 1].Found? then |ds[i - 1].bits| else 0
  }

  lemma {:induction false} CountBits(ds: seq<Download>)
    ensures |AllBits(ds)| == Before(ds, |ds|)
  {
    if ds != [] {
      CountBits(ds[..|ds| - 1]);
      SameBefore(ds, |ds| - 1, |ds| - 1);
    }
  }

  /** Every record of every market has its place in the snapshot, and with CountBits there are no others. */
  lemma {:induction false} EachHasItsPlace(ds: seq<Download>, i: nat, j: nat)
    requires i < |ds| && ds[i].Found? && j < |ds[i].bits|
    ensures Before(ds, i) + j < |AllBits(ds)| && AllBits(ds)[Before(ds, i) + j] == ds[i].bits[j]
  {
    var n := |ds| - 1;
    SameBefore(ds, n, i);
    if i < n {
      EachHasItsPlace(ds[..n], i, j);
    } else {
      CountBits(ds[..n]);
    }
  }

  lemma {:induction false} SameBefore(ds: seq<Download>, n: nat, i: nat)
    requires i <= n <= |ds|
    ensures Before(ds[..n], i) == Before(ds, i)
  {
    if i > 0 {
      SameBefore(ds, n, i - 1);
    }
  }

  ghost predicate Recorded(ds: seq<Download>, b: Bit) {
    exists i :: 0 <= i < |ds| && ds[i].Found? && b in ds[i].bits
  }

  lemma {:induction false} BitsAreRecorded(ds: seq<Download>, b: Bit)
    ensures b in AllBits(ds) <==> Recorded(ds, b)
  {
    if ds != [] {
      var n := |ds| - 1;
      BitsAreRecorded(ds[..n], b);
      if Recorded(ds[..n], b) {
        var i :| 0 <= i < n && ds[..n][i].Found? && b in ds[..n][i].bits;
        assert ds[i].Found? && b in ds[i].bits;
      }
      if Recorded(ds, b) {
        var i :| 0 <= i < |ds| && ds[i].Found? && b in ds[i].bits;
        assert i < n ==> ds[..n][i].Found? && b in ds[..n][i].bits;
      }
    }
  }

  /** Some record is not after the day and some is not before it; a day that is none of the calendar has
      no record before it. */
  ghost predicate Spanned(ds: seq<Download>, d: Date) {
    && (exists b :: Recorded(ds, b) && !IsAfter(b.date, d))
    && (exists b :: Recorded(ds, b) && !IsBefore(b.date, d))
    && (IsOrdinal(d) || forall b :: Recorded(ds, b) ==> !IsBefore(b.date, d))
  }

  /** Both ends of the window are dates of records. */
  lemma {:induction false} EndsAreRecorded(ds: seq<Download>) returns (f: Bit, l: Bit)
    requires WellOrdered(ds) && AllBits(ds) != []
    ensures Recorded(ds, f) && f.date == WindowOf(ds).first
    ensures Recorded(ds, l) && l.date == WindowOf(ds).last
  {
    WindowCovers(ds);
    WindowAttained(ds);
    var i :| 0 <= i < |ds| && HasBits(ds[i]) && FirstOf(ds[i]) == WindowOf(ds).first;
    var j :| 0 <= j < |ds| && HasBits(ds[j]) && LastOf(ds[j]) == WindowOf(ds).last;
    f, l := ds[i].bits[0], ds[j].bits[|ds[j].bits| - 1];
  }

  /** The days that are visited, told from the records alone. */
  lemma {:induction false} VisitedExactly(ds: seq<Download>, d: Date)
    requires WellOrdered(ds) && AllBits(ds) != []
    ensures Visited(WindowOf(ds).first, WindowOf(ds).last, d) <==> Spanned(ds, d)
  {
    hide WindowOf, AllBits, Recorded, IsOrdinal;
    var f, l := EndsAreRecorded(ds);
    WindowCovers(ds);
    forall b | Recorded(ds, b)
      ensures !IsBefore(b.date, f.date) && !IsAfter(b.date, l.date)
    {
      BitsAreRecorded(ds, b);
      var i :| 0 <= i < |AllBits(ds)| && AllBits(ds)[i] == b;
    }
  }

  /** The dumps an initial download leaves, told from the downloads alone. */
  ghost predicate DumpedFor(dir: map<Date, seq<Byte>>, dir': map<Date, seq<Byte>>, ds: seq<Download>) {
    forall d: Date ::
      && (d in dir ==> d in dir' && dir'[d] == dir[d])
      && (d !in dir ==> (d in dir' <==> Spanned(ds, d)))
      && (d !in dir && d in dir' ==> dir'[d] == Finished(2, 0, EncodeDay(d, OfDate(AllBits(ds), d))))
  }

  lemma {:induction false} SnapsExactly(ds: seq<Download>)
    requires WellOrdered(ds)
    ensures Snaps(ds) <==> (forall i :: 0 <= i < |ds| ==> ds[i] != Failed) && exists b :: Recorded(ds, b)
  {
    WindowCovers(ds);
    if AllBits(ds) != [] {
      BitsAreRecorded(ds, AllBits(ds)[0]);
    } else if b :| Recorded(ds, b) {
      BitsAreRecorded(ds, b);
    }
  }

  lemma {:induction false} DumpsExactly(ds: seq<Download>, dir: map<Date, seq<Byte>>, dir': map<Date, seq<Byte>>)
    requires WellOrdered(ds) && AllBits(ds) != []
    requires Dumped(dir, dir', AllBits(ds), WindowOf(ds).first, WindowOf(ds).last, Key(WindowOf(ds).last) + 1)
    ensures DumpedFor(dir, dir', ds)
  {
    hide WindowOf, AllBits, Finished, EncodeDay, OfDate, Spanned;
    var w := WindowOf(ds);
    forall d: Date
      ensures Visited(w.first, w.last, d) && Key(d) < Key(w.last) + 1 <==> Spanned(ds, d)
    {
      VisitedExactly(ds, d);
      KeyOrder(d, w.last);
    }
    hide Visited;
  }

  /** The whole initial download, for every list of answers: a sorted history loses no record of a
      real calendar day, and a record of another day survives only if it is of the first day. */
  lemma {:induction false} NothingLost(ds: seq<Download>)
    requires WellOrdered(ds) && AllBits(ds) != [] && IsBefore(WindowOf(ds).last, LAST_DAY)
    ensures var w, bits := WindowOf(ds), AllBits(ds);
            IsStableSort(Concat(bits, BitKey, Keys(Days(w.first, w.last))), bits, BitKey)
            <==> forall i :: 0 <= i < |bits| ==> IsOrdinal(bits[i].date) || bits[i].date == w.first
  {
    var w, bits := WindowOf(ds), AllBits(ds);
    WindowCovers(ds);
    SweepPartitions(bits, w.first, w.last);
    forall i | 0 <= i < |bits|
      ensures Visited(w.first, w.last, bits[i].date) <==> IsOrdinal(bits[i].date) || bits[i].date == w.first
    {
      assert !IsBefore(bits[i].date, w.first) && !IsAfter(bits[i].date, w.last);
      KeyOrder(bits[i].date, w.first);
    }
  }

  /** The zero-based days of date_parse fall through on every January 1st but the first day:
      a history of 2023-12-31 and 2024-01-01 as it would store them. */
  lemma {:induction false} ZeroBasedNewYearIsLost(b: Bit, c: Bit)
    requires b.date == Date(2023, 364) && c.date == Date(2024, 0)
    ensures var w := WindowOf([Found([b, c])]);
            SweepEnds(w.first, w.last) && !Visited(w.first, w.last, c.date)
  {
    assert [Found([b, c])][..0] == [];
  }

  /** The initial download as a whole: it stops without a dump when a market fails for good or
      nothing was found, and otherwise leaves the dumps of the sweep. */
  method InitialDownload(ds: seq<Download>, dir: map<Date, seq<Byte>>) returns (ok: bool, dir': map<Date, seq<Byte>>)
    requires |AllBits(ds)| < 0x1_0000_0000_0000_0000
    requires Snaps(ds) ==> SweepEnds(WindowOf(ds).first, WindowOf(ds).last)
    ensures ok <==> Snaps(ds)
    ensures !ok ==> dir' == dir
    ensures ok ==> Dumped(dir, dir', AllBits(ds), WindowOf(ds).first, WindowOf(ds).last, Key(WindowOf(ds).last) + 1)
    ensures WellOrdered(ds) ==>
              (ok <==> (forall i :: 0 <= i < |ds| ==> ds[i] != Failed) && exists b :: Recorded(ds, b))
    ensures WellOrdered(ds) && ok ==> DumpedFor(dir, dir', ds)
  {
    hide Finished, EncodeBits, Dumped, DumpedFor, WellOrdered, Recorded;
    var f := new StoredFile();
    var window;
    ok, window := Snapshot(ds, f);
    dir' := dir;
    if ok {
      SnapshotLayout(f.bytes, AllBits(ds));
      ok, dir' := Sweep(f, window, dir);
    }
    if WellOrdered(ds) {
      SnapsExactly(ds);
      if ok {
        WindowCovers(ds);
        DumpsExactly(ds, dir, dir');
      }
    }
  }
}

/** emdtojson.py, an independent reader of the dump format. An uncaught exception of the script is
    the result None. */
module EmdToJson {
  import opened Wrappers
  import opened Ints
  import opened Bytes
  import opened Crc32
  import opened DumpFiles
  import opened Records
  import Orders
  import Histories
  import Utf8
  import opened Dates
  import DateSweep

  /** The format strings of the script. */
  const HEADER_FORMAT: seq<Kind> := [U8, U8, U32, U64]  // and 32 bytes of art
  const LOC_FORMAT: seq<Kind> := [U64, U64, U64, U64, F32]
  const ORDER_FORMAT: seq<Kind> := [U8, I8, U32, U64, U64, U64, U64, U64, U64, U64, U64, U64, F64]
  const DAY_FORMAT: seq<Kind> := [U16, U16, U64]
  const ENTRY_FORMAT: seq<Kind> := [U64, U64, F64, F64, F64, U64, U64]

  /** The dictionaries the script builds. A name is kept as the UTF-8 it was decoded from. */
  datatype Loc = Loc(id: int, typeId: int, ownerId: int, systemId: int, security: int, name: seq<Byte>)

  datatype OrderEntry = OrderEntry(
    isBuyOrder: int, duration: int, range: int, issued: int, minVolume: int, volumeRemain: int, volumeTotal: int,
    locationId: int, systemId: int, typeId: int, regionId: int, orderId: int, price: int)

  datatype StatEntry = StatEntry(
    regionId: int, typeId: int, average: int, highest: int, lowest: int, orderCount: int, volume: int)

  /** The assignment from the unpacked tuple to the names. */
  function LocNamed(vs: seq<int>, name: seq<Byte>): Loc
    requires |vs| == 5
  {
    Loc(vs[0], vs[1], vs[2], vs[3], vs[4], name)
  }

  function OrderNamed(vs: seq<int>): OrderEntry
    requires |vs| == 13
  {
    OrderEntry(vs[0], vs[2], vs[1], vs[3], vs[4], vs[5], vs[6], vs[7], vs[8], vs[9], vs[10], vs[11], vs[12])
  }

  function StatNamed(vs: seq<int>): StatEntry
    requires |vs| == 7
  {
    StatEntry(vs[0], vs[1], vs[2], vs[3], vs[4], vs[5], vs[6])
  }

  function OrdersNamed(rows: seq<seq<int>>): seq<OrderEntry>
    requires forall i :: 0 <= i < |rows| ==> |rows[i]| == 13
  {
    seq(|rows|, i requires 0 <= i < |rows| => OrderNamed(rows[i]))
  }

  function StatsNamed(rows: seq<seq<int>>): seq<StatEntry>
    requires forall i :: 0 <= i < |rows| ==> |rows[i]| == 7
  {
    seq(|rows|, i requires 0 <= i < |rows| => StatNamed(rows[i]))
  }

  datatype Data =
    | Locations(locs: seq<Loc>)
    | OrderTable(orders: seq<OrderEntry>)
    | HistoryDay(year: int, day: int, stats: seq<StatEntry>)
    | NoData

  datatype Json = Json(
    version: int, kind: int, checksum: int, expiration: int, art: seq<Byte>, data: Data, checksumMatches: bool)

  // ---------------------------------------------------------------- what the script computes

  /** The input with the checksum of what has been unpacked from it. */
  datatype Input = Input(rest: seq<Byte>, checksum: uint32)

  /** unpack: the values of the next bytes, which are folded into the checksum. */
  function Taken(ks: seq<Kind>, input: Input): (r: Option<(seq<int>, Input)>)
    ensures r.Some? ==> |r.value.0| == |ks|
  {
    var size := SizeOf(ks);
    if |input.rest| < size then None
    else Some((Decode(ks, input.rest[..size]), Input(input.rest[size..], Crc(input.checksum, input.rest[..size]))))
  }

  /** unpack("!Q") */
  function CountOf(input: Input): Option<(uint64, Input)> {
    match Taken([U64], input)
    case None => None
    case Some((vs, input')) =>
      DecodeInRange([U64], input.rest[..SizeOf([U64])]);
      Some((vs[0], input'))
  }

  /** `n` rows of one format. */
  function RowsOf(ks: seq<Kind>, input: Input, n: nat): (r: Option<(seq<seq<int>>, Input)>)
    ensures r.Some? ==> |r.value.0| == n && forall i :: 0 <= i < n ==> |r.value.0[i]| == |ks|
  {
    if n == 0 then Some(([], input))
    else
      match RowsOf(ks, input, n - 1)
      case None => None
      case Some((rows, input')) =>
        match Taken(ks, input')
        case None => None
        case Some((row, input'')) => Some((rows + [row], input''))
  }

  /** A row that cannot be read ends the script whatever is still to come. */
  lemma {:induction false} RowsStop(ks: seq<Kind>, input: Input, i: nat, n: nat)
    requires i <= n && RowsOf(ks, input, i) == None
    ensures RowsOf(ks, input, n) == None
    decreases n
  {
    hide Taken;
    if i < n {
      RowsStop(ks, input, i, n - 1);
    }
  }

  /** unpack_order_table */
  function OrderTableOf(input: Input): Option<(Data, Input)> {
    match CountOf(input)
    case None => None
    case Some((n, input')) =>
      match RowsOf(ORDER_FORMAT, input', n)
      case None => None
      case Some((rows, input'')) => Some((OrderTable(OrdersNamed(rows)), input''))
  }

  function DayHeadOf(input: Input): Option<((uint16, uint16, uint64), Input)> {
    match Taken(DAY_FORMAT, input)
    case None => None
    case Some((vs, input')) =>
      DecodeInRange(DAY_FORMAT, input.rest[..SizeOf(DAY_FORMAT)]);
      assert InRange(DAY_FORMAT[0], vs[0]) && InRange(DAY_FORMAT[1], vs[1]) && InRange(DAY_FORMAT[2], vs[2]);
      Some(((vs[0], vs[1], vs[2]), input'))
  }

  /** unpack_history_day */
  function HistoryDayOf(input: Input): Option<(Data, Input)> {
    match DayHeadOf(input)
    case None => None
    case Some(((year, day, n), input')) =>
      match RowsOf(ENTRY_FORMAT, input', n)
      case None => None
      case Some((rows, input'')) => Some((HistoryDay(year, day, StatsNamed(rows)), input''))
  }

  /** A length that file.read takes. */
  const MAX_READ: nat := 0x7FFF_FFFF_FFFF_FFFF

  /** unpack_string: the bytes of the string pass by the checksum; a string cut short is accepted. */
  function StringOf(input: Input): Option<(seq<Byte>, Input)> {
    match CountOf(input)
    case None => None
    case Some((n, input')) =>
      var k := if n <= |input'.rest| then n else |input'.rest|;
      if n <= MAX_READ && Utf8.Valid(input'.rest[..k]) then Some((input'.rest[..k], input'.(rest := input'.rest[k..])))
      else None
  }

  function LocOf(input: Input): Option<(Loc, Input)> {
    match Taken(LOC_FORMAT, input)
    case None => None
    case Some((vs, input')) =>
      match StringOf(input')
      case None => None
      case Some((name, input'')) => Some((LocNamed(vs, name), input''))
  }

  function LocsOf(input: Input, n: nat): Option<(seq<Loc>, Input)> {
    if n == 0 then Some(([], input))
    else
      match LocsOf(input, n - 1)
      case None => None
      case Some((locs, input')) =>
        match LocOf(input')
        case None => None
        case Some((loc, input'')) => Some((locs + [loc], input''))
  }

  lemma {:induction false} LocsStop(input: Input, i: nat, n: nat)
    requires i <= n && LocsOf(input, i) == None
    ensures LocsOf(input, n) == None
    decreases n
  {
    hide LocOf;
    if i < n {
      LocsStop(input, i, n - 1);
    }
  }

  /** unpack_loc_table */
  function LocTableOf(input: Input): Option<(Data, Input)> {
    match CountOf(input)
    case None => None
    case Some((n, input')) =>
      match LocsOf(input', n)
      case None => None
      case Some((locs, input'')) => Some((Locations(locs), input''))
  }

  /** The data of a body, with the rest of the input and the checksum. */
  function DataOf(kind: int, input: Input): Option<(Data, Input)> {
    if kind == DUMP_TYPE_LOCATIONS then LocTableOf(input)
    else if kind == DUMP_TYPE_ORDERS then OrderTableOf(input)
    else if kind == DUMP_TYPE_HISTORIES then HistoryDayOf(input)
    else Some((NoData, input))
  }

  /** The whole script. */
  function JsonOf(stdin: seq<Byte>): Option<Json> {
    if |stdin| < HEADER_SIZE || !Utf8.Valid(stdin[14..HEADER_SIZE]) then None
    else
      HeaderFormat();
      DecodeInRange(HEADER_FORMAT, stdin[..14]);
      var vs := Decode(HEADER_FORMAT, stdin[..14]);
      match DataOf(vs[1], Input(stdin[HEADER_SIZE..], 0))
      case None => None
      case Some((data, input)) =>
        Some(Json(vs[0], vs[1], vs[2], vs[3], stdin[14..HEADER_SIZE], data, input.checksum == vs[2]))
  }

  lemma {:induction false} HeaderFormat()
    ensures SizeOf(HEADER_FORMAT) == 14 && SizeOf([U64]) == 8 && SizeOf(DAY_FORMAT) == 12
  {
    assert HEADER_FORMAT[..3] == [U8, U8, U32] && HEADER_FORMAT[..3][..2] == [U8, U8];
    assert SizeOf([U8, U8]) == 2 && SizeOf([U8, U8, U32]) == 6;
    assert SizeOf([U64]) == 8;
    assert DAY_FORMAT[..2] == [U16, U16] && SizeOf([U16, U16]) == 4;
  }

  /** The input and the one-element list `checksum`, both updated in place. */
  class Reader {
    var rest: seq<Byte>
    var checksum: uint32

    constructor (stdin: seq<Byte>)
      ensures Here() == Input(stdin, 0)
    {
      rest, checksum := stdin, 0;
    }

    function Here(): Input
      reads this
    {
      Input(rest, checksum)
    }

    method Unpack(ks: seq<Kind>) returns (r: Option<seq<int>>)
      modifies this
      ensures r.Some? <==> |old(rest)| >= SizeOf(ks)
      ensures r.None? <==> Taken(ks, old(Here())).None?
      ensures r.Some? ==> Taken(ks, old(Here())) == Some((r.value, Here()))
    {
      hide Crc, Decode;
      var size := SizeOf(ks);
      var raw := if size <= |rest| then rest[..size] else rest;
      rest := rest[|raw|..];
      checksum := Crc(checksum, raw);
      r := if |raw| == size then Some(Decode(ks, raw)) else None;
    }

    method UnpackCount() returns (r: Option<uint64>)
      modifies this
      ensures r.None? <==> CountOf(old(Here())).None?
      ensures r.Some? ==> CountOf(old(Here())) == Some((r.value, Here()))
    {
      hide Crc, Decode;
      ghost var s := rest;
      var vs := Unpack([U64]);
      if vs == None {
        return None;
      }
      DecodeInRange([U64], s[..SizeOf([U64])]);
      r := Some(vs.value[0]);
    }

    method UnpackString() returns (r: Option<seq<Byte>>)
      modifies this
      ensures r.None? <==> StringOf(old(Here())).None?
      ensures r.Some? ==> StringOf(old(Here())) == Some((r.value, Here()))
    {
      hide CountOf, Utf8.Valid;
      var n := UnpackCount();
      if n == None || n.value > MAX_READ {
        return None;
      }
      var k := if n.value <= |rest| then n.value else |rest|;
      var raw := rest[..k];
      rest := rest[k..];
      r := if Utf8.Valid(raw) then Some(raw) else None;
    }

    method UnpackLoc() returns (r: Option<Loc>)
      modifies this
      ensures r.None? <==> LocOf(old(Here())).None?
      ensures r.Some? ==> LocOf(old(Here())) == Some((r.value, Here()))
    {
      hide StringOf, Taken;
      var values := Unpack(LOC_FORMAT);
      if values == None {
        return None;
      }
      var name := UnpackString();
      r := if name == None then None else Some(LocNamed(values.value, name.value));
    }

    method UnpackLocTable() returns (r: Option<Data>)
      modifies this
      ensures r.None? <==> LocTableOf(old(Here())).None?
      ensures r.Some? ==> LocTableOf(old(Here())) == Some((r.value, Here()))
    {
      hide CountOf, LocOf;
      var n := UnpackCount();
      if n == None {
        return None;
      }
      var locs: seq<Loc> := [];
      ghost var start := Here();
      for i := 0 to n.value
        invariant LocsOf(start, i) == Some((locs, Here()))
      {
        var loc := UnpackLoc();
        if loc == None {
          LocsStop(start, i + 1, n.value);
          return None;
        }
        locs := locs + [loc.value];
      }
      r := Some(Locations(locs));
    }

    /** The loop that the other tables share: `n` rows of one format. */
    method UnpackRows(ks: seq<Kind>, n: nat) returns (r: Option<seq<seq<int>>>)
      modifies this
      ensures r.None? <==> RowsOf(ks, old(Here()), n).None?
      ensures r.Some? ==> RowsOf(ks, old(Here()), n) == Some((r.value, Here()))
    {
      hide Taken;
      var rows: seq<seq<int>> := [];
      ghost var start := Here();
      for i := 0 to n
        invariant RowsOf(ks, start, i) == Some((rows, Here()))
      {
        var row := Unpack(ks);
        if row == None {
          RowsStop(ks, start, i + 1, n);
          return None;
        }
        rows := rows + [row.value];
      }
      r := Some(rows);
    }

    method UnpackOrderTable() returns (r: Option<Data>)
      modifies this
      ensures r.None? <==> OrderTableOf(old(Here())).None?
      ensures r.Some? ==> OrderTableOf(old(Here())) == Some((r.value, Here()))
    {
      hide CountOf, RowsOf;
      var n := UnpackCount();
      if n == None {
        return None;
      }
      var rows := UnpackRows(ORDER_FORMAT, n.value);
      r := if rows == None then None else Some(OrderTable(OrdersNamed(rows.value)));
    }

    method UnpackHistoryDay() returns (r: Option<Data>)
      modifies this
      ensures r.None? <==> HistoryDayOf(old(Here())).None?
      ensures r.Some? ==> HistoryDayOf(old(Here())) == Some((r.value, Here()))
    {
      hide Crc, Decode, RowsOf;
      ghost var s := rest;
      var vs := Unpack(DAY_FORMAT);
      if vs == None {
        return None;
      }
      DecodeInRange(DAY_FORMAT, s[..SizeOf(DAY_FORMAT)]);
      assert InRange(DAY_FORMAT[0], vs.value[0]) && InRange(DAY_FORMAT[1], vs.value[1]);
      assert InRange(DAY_FORMAT[2], vs.value[2]);
      hide Taken;
      var rows := UnpackRows(ENTRY_FORMAT, vs.value[2]);
      r := if rows == None then None else Some(HistoryDay(vs.value[0], vs.value[1], StatsNamed(rows.value)));
    }
  }

  /** The script's main part; the header has a checksum list of its own. */
  method Convert(stdin: seq<Byte>) returns (json: Option<Json>)
    ensures json == JsonOf(stdin)
  {
    hide OrderTableOf, HistoryDayOf, LocTableOf, Decode, SizeOf, Utf8.Valid;
    if |stdin| < HEADER_SIZE {
      return None;
    }
    HeaderFormat();
    DecodeInRange(HEADER_FORMAT, stdin[..14]);
    var vs := Decode(HEADER_FORMAT, stdin[..14]);
    var art := stdin[14..HEADER_SIZE];
    if !Utf8.Valid(art) {
      return None;
    }
    var reader := new Reader(stdin[HEADER_SIZE..]);
    var data;
    if vs[1] == 0 {
      data := reader.UnpackLocTable();
    } else if vs[1] == 1 {
      data := reader.UnpackOrderTable();
    } else if vs[1] == 2 {
      data := reader.UnpackHistoryDay();
    } else {
      data := Some(NoData);
    }
    json := match data
      case None => None
      case Some(d) => Some(Json(vs[0], vs[1], vs[2], vs[3], art, d, reader.checksum == vs[2]));
  }

  // ---------------------------------------------------------------- the checksum

  /** From `a` to `b` some bytes were consumed, and the checksum took in exactly these. */
  ghost predicate Consumes(a: Input, b: Input) {
    && |b.rest| <= |a.rest| && a.rest[|a.rest| - |b.rest|..] == b.rest
    && b.checksum == Crc(a.checksum, a.rest[..|a.rest| - |b.rest|])
  }

  lemma {:induction false} ConsumesNothing(a: Input)
    ensures Consumes(a, a)
  {
    hide Crc;
    Streaming(a.checksum, [], []);
    assert a.rest[..0] == [];
  }

  lemma {:induction false} ConsumesMore(a: Input, b: Input, c: Input)
    requires Consumes(a, b) && Consumes(b, c)
    ensures Consumes(a, c)
  {
    hide Crc;
    var x, y := a.rest[..|a.rest| - |b.rest|], b.rest[..|b.rest| - |c.rest|];
    Streaming(a.checksum, x, y);
    assert x + y == a.rest[..|a.rest| - |c.rest|];
  }

  lemma {:induction false} TakenConsumes(ks: seq<Kind>, input: Input)
    requires Taken(ks, input).Some?
    ensures Consumes(input, Taken(ks, input).value.1)
  {
    hide Crc, Decode;
  }

  lemma {:induction false} RowsConsume(ks: seq<Kind>, input: Input, n: nat)
    requires RowsOf(ks, input, n).Some?
    ensures |RowsOf(ks, input, n).value.0| == n && Consumes(input, RowsOf(ks, input, n).value.1)
  {
    hide Taken, Consumes;
    if n == 0 {
      ConsumesNothing(input);
    } else {
      RowsConsume(ks, input, n - 1);
      var before := RowsOf(ks, input, n - 1).value.1;
      TakenConsumes(ks, before);
      ConsumesMore(input, before, RowsOf(ks, input, n).value.1);
    }
  }

  /** For orders and histories the checksum is that of exactly the bytes consumed. */
  lemma {:induction false} DataConsumes(kind: int, input: Input)
    requires kind != DUMP_TYPE_LOCATIONS && DataOf(kind, input).Some?
    ensures Consumes(input, DataOf(kind, input).value.1)
  {
    hide RowsOf, Consumes, Crc, Decode;
    if kind == DUMP_TYPE_ORDERS {
      TakenConsumes([U64], input);
      var middle := CountOf(input).value.1;
      RowsConsume(ORDER_FORMAT, middle, CountOf(input).value.0);
      ConsumesMore(input, middle, DataOf(kind, input).value.1);
    } else if kind == DUMP_TYPE_HISTORIES {
      TakenConsumes(DAY_FORMAT, input);
      var middle := DayHeadOf(input).value.1;
      RowsConsume(ENTRY_FORMAT, middle, DayHeadOf(input).value.0.2);
      ConsumesMore(input, middle, DataOf(kind, input).value.1);
    } else {
      ConsumesNothing(input);
    }
  }

  // ---------------------------------------------------------------- against the C writers

  function ValueRows(rows: seq<seq<Field>>): seq<seq<int>> {
    seq(|rows|, i requires 0 <= i < |rows| => Values(rows[i]))
  }

  lemma {:induction false} TakenRoundTrip(fs: seq<Field>, tail: seq<Byte>, checksum: uint32)
    ensures Taken(Kinds(fs), Input(Encode(fs) + tail, checksum))
            == Some((Values(fs), Input(tail, Crc(checksum, Encode(fs)))))
  {
    hide Crc, Encode, Decode;
    RoundTrip(fs);
    assert (Encode(fs) + tail)[..|Encode(fs)|] == Encode(fs);
    assert (Encode(fs) + tail)[|Encode(fs)|..] == tail;
  }

  lemma {:induction false} RowsRoundTrip(ks: seq<Kind>, rows: seq<seq<Field>>, tail: seq<Byte>, checksum: uint32)
    requires forall i :: 0 <= i < |rows| ==> Kinds(rows[i]) == ks
    ensures RowsOf(ks, Input(EncodeRows(rows) + tail, checksum), |rows|)
            == Some((ValueRows(rows), Input(tail, Crc(checksum, EncodeRows(rows)))))
  {
    hide Kinds, Values, Encode, Taken, Crc;
    if rows == [] {
      assert [] + tail == tail;
      Streaming(checksum, [], []);
    } else {
      var n := |rows| - 1;
      RowsRoundTrip(ks, rows[..n], Encode(rows[n]) + tail, checksum);
      assert EncodeRows(rows) + tail == EncodeRows(rows[..n]) + (Encode(rows[n]) + tail);
      TakenRoundTrip(rows[n], tail, Crc(checksum, EncodeRows(rows[..n])));
      Streaming(checksum, EncodeRows(rows[..n]), Encode(rows[n]));
      assert ValueRows(rows) == ValueRows(rows[..n]) + [Values(rows[n])];
    }
  }

  /** What the C program writes into a header is what the script takes out of it. */
  lemma {:induction false} HeaderRoundTrip(kind: Byte, checksum: uint32, expiration: uint64, body: seq<Byte>)
    ensures var s := Header(kind, checksum, expiration) + body;
      && SizeOf(HEADER_FORMAT) == 14 && s[14..HEADER_SIZE] == ASCII_ART && s[HEADER_SIZE..] == body
      && Decode(HEADER_FORMAT, s[..14]) == [DUMP_VERSION as int, kind as int, checksum as int, expiration as int]
  {
    hide Encode, Decode, SizeOf, Header;
    HeaderFormat();
    var fs: seq<Field> := [(U8, DUMP_VERSION), (U8, kind), (U32, checksum), (U64, expiration)];
    RoundTrip(fs);
    assert Kinds(fs) == HEADER_FORMAT && Values(fs) == [DUMP_VERSION as int, kind as int, checksum as int, expiration as int];
    HeaderIsFields(kind, checksum, expiration, fs);
    var h := Header(kind, checksum, expiration);
    assert (h + body)[..14] == h[..14] == Encode(fs);
    assert (h + body)[14..HEADER_SIZE] == h[14..] == ASCII_ART;
    assert (h + body)[HEADER_SIZE..] == body;
  }

  lemma {:induction false} HeaderIsFields(kind: Byte, checksum: uint32, expiration: uint64, fs: seq<Field>)
    requires fs == [(U8, DUMP_VERSION), (U8, kind), (U32, checksum), (U64, expiration)]
    ensures Header(kind, checksum, expiration) == Encode(fs) + ASCII_ART
  {
    hide BE, Encode, ASCII_ART;
    Shifts8(DUMP_VERSION);
    Shifts8(kind);
    EncodeNothing();
    EncodeMore(fs, 0);
    EncodeMore(fs, 1);
    EncodeMore(fs, 2);
    EncodeMore(fs, 3);
    assert fs[..0] == [] && fs[..4] == fs;
    assert [] + [DUMP_VERSION] + [kind] == [DUMP_VERSION, kind];
  }

  lemma {:induction false} EncodeMore(fs: seq<Field>, i: nat)
    requires i < |fs|
    ensures Encode(fs[..i + 1]) == Encode(fs[..i]) + EncodeField(fs[i])
  {
    assert fs[..i + 1][..i] == fs[..i];
  }

  ghost predicate HasArt(s: seq<Byte>) {
    && |s| == 32
    && s[0] == 224 && s[1] == 174 && s[2] == 135 && s[3] == 125 && s[4] == 218 && s[5] == 191 && s[6] == 218
    && s[7] == 176 && s[8] == 219 && s[9] == 163 && s[10] == 45 && s[11] == 218 && s[12] == 176 && s[13] == 219
    && s[14] == 163 && s[15] == 126 && s[16] == 226 && s[17] == 128 && s[18] == 148
    && forall k :: 19 <= k < 32 ==> s[k] == 0
  }

  lemma {:induction false} HeaderHasArt()
    ensures HasArt(ASCII_ART)
  {
  }

  lemma {:induction false} ArtDecodes(s: seq<Byte>)
    requires HasArt(s)
    ensures Utf8.Valid(s)
  {
    Utf8.ZerosAreValid(s, 19);
    assert Utf8.ValidFrom(s, 16);
    assert Utf8.ValidFrom(s, 15);
    assert Utf8.ValidFrom(s, 13);
    assert Utf8.ValidFrom(s, 11);
    assert Utf8.ValidFrom(s, 10);
    assert Utf8.ValidFrom(s, 8);
    assert Utf8.ValidFrom(s, 6);
    assert Utf8.ValidFrom(s, 4);
    assert Utf8.ValidFrom(s, 3);
  }

  /** The art of the header decodes. */
  lemma {:induction false} ArtIsValid()
    ensures Utf8.Valid(ASCII_ART)
  {
    hide HasArt, Utf8.Valid;
    HeaderHasArt();
    ArtDecodes(ASCII_ART);
  }

  lemma {:induction false} CountRoundTrip(n: uint64, tail: seq<Byte>, checksum: uint32)
    ensures CountOf(Input(BE(n, 8) + tail, checksum)) == Some((n, Input(tail, Crc(checksum, BE(n, 8)))))
  {
    hide BE, Encode, Crc, Decode;
    var fs: seq<Field> := [(U64, n)];
    TakenRoundTrip(fs, tail, checksum);
    assert Kinds(fs) == [U64] && Values(fs) == [n as int];
    EncodeMore(fs, 0);
    EncodeNothing();
    assert fs[..0] == [] && fs[..1] == fs;
    assert Encode(fs) == BE(n, 8);
  }

  /** What the script shows of an order under each name. */
  function OrderShown(o: Orders.Order): OrderEntry {
    OrderEntry(if o.isBuyOrder then 1 else 0, o.duration, o.range, o.issued, o.minVolume, o.volumeRemain, o.volumeTotal,
               o.locationId, o.systemId, o.typeId, o.regionId, o.orderId, o.price)
  }

  function OrdersShown(orders: seq<Orders.Order>): seq<OrderEntry> {
    seq(|orders|, i requires 0 <= i < |orders| => OrderShown(orders[i]))
  }

  lemma {:induction false} OrderNames(o: Orders.Order)
    ensures |Values(Orders.Fields(o))| == 13 && OrderNamed(Values(Orders.Fields(o))) == OrderShown(o)
  {
  }

  lemma {:induction false} OrdersNames(orders: seq<Orders.Order>)
    ensures forall i :: 0 <= i < |orders| ==> |ValueRows(Orders.Rows(orders))[i]| == 13
    ensures OrdersNamed(ValueRows(Orders.Rows(orders))) == OrdersShown(orders)
  {
    hide OrderNamed, OrderShown, Orders.Fields, Values;
    forall i | 0 <= i < |orders|
      ensures |ValueRows(Orders.Rows(orders))[i]| == 13
      ensures OrderNamed(ValueRows(Orders.Rows(orders))[i]) == OrderShown(orders[i])
    {
      OrderNames(orders[i]);
    }
  }

  function StatShown(b: Histories.Bit): StatEntry {
    StatEntry(b.market.regionId, b.market.typeId, b.stats.average, b.stats.highest, b.stats.lowest,
              b.stats.orderCount, b.stats.volume)
  }

  function StatsShown(bits: seq<Histories.Bit>): seq<StatEntry> {
    seq(|bits|, i requires 0 <= i < |bits| => StatShown(bits[i]))
  }

  lemma {:induction false} StatNames(b: Histories.Bit)
    ensures |Values(Histories.EntryFields(b))| == 7 && StatNamed(Values(Histories.EntryFields(b))) == StatShown(b)
  {
  }

  lemma {:induction false} StatsNames(bits: seq<Histories.Bit>)
    ensures forall i :: 0 <= i < |bits| ==> |ValueRows(Histories.EntryRows(bits))[i]| == 7
    ensures StatsNamed(ValueRows(Histories.EntryRows(bits))) == StatsShown(bits)
  {
    hide StatNamed, StatShown, Histories.EntryFields, Values;
    forall i | 0 <= i < |bits|
      ensures |ValueRows(Histories.EntryRows(bits))[i]| == 7
      ensures StatNamed(ValueRows(Histories.EntryRows(bits))[i]) == StatShown(bits[i])
    {
      StatNames(bits[i]);
    }
  }

  lemma {:induction false} OrderTableRoundTrip(orders: seq<Orders.Order>)
    requires |orders| < 0x1_0000_0000_0000_0000
    ensures var body := Orders.EncodeTable(orders);
      OrderTableOf(Input(body, 0)) == Some((OrderTable(OrdersShown(orders)), Input([], Checksum(body))))
  {
    hide Crc, CountOf, RowsOf, EncodeRows, BE;
    var rows := Orders.Rows(orders);
    CountRoundTrip(|orders|, EncodeRows(rows), 0);
    forall i | 0 <= i < |rows| ensures Kinds(rows[i]) == ORDER_FORMAT {}
    RowsRoundTrip(ORDER_FORMAT, rows, [], Crc(0, BE(|orders|, 8)));
    OrdersNames(orders);
    assert EncodeRows(rows) + [] == EncodeRows(rows);
    Streaming(0, BE(|orders|, 8), EncodeRows(rows));
  }

  /** Every order table the C program closes is recovered by the script, checksum and all. */
  lemma {:induction false} OrderDumpRoundTrip(orders: seq<Orders.Order>, expiration: uint64)
    requires |orders| < 0x1_0000_0000_0000_0000
    ensures var body := Orders.EncodeTable(orders);
      JsonOf(Finished(DUMP_TYPE_ORDERS, expiration, body))
      == Some(Json(1, 1, Checksum(body), expiration, ASCII_ART, OrderTable(OrdersShown(orders)), true))
  {
    hide Crc, Header, Decode, OrderTableOf, Orders.EncodeTable, Utf8.Valid;
    ArtIsValid();
    var body := Orders.EncodeTable(orders);
    HeaderRoundTrip(DUMP_TYPE_ORDERS, Checksum(body), expiration, body);
    OrderTableRoundTrip(orders);
  }

  /** Whatever stands in the header for it, the checksum of an order dump is compared with that of the body. */
  lemma {:induction false} ChecksumIsCompared(orders: seq<Orders.Order>, c: uint32, expiration: uint64)
    requires |orders| < 0x1_0000_0000_0000_0000
    ensures var body := Orders.EncodeTable(orders);
      var j := JsonOf(Header(1, c, expiration) + body);
      j.Some? && j.value.checksum == c && (j.value.checksumMatches <==> c == Crc(0, body))
  {
    hide Crc, Header, Decode, OrderTableOf, Orders.EncodeTable, Utf8.Valid;
    ArtIsValid();
    HeaderRoundTrip(1, c, expiration, Orders.EncodeTable(orders));
    OrderTableRoundTrip(orders);
  }

  /** A dump of no known type is shown without data, and no byte of its body counts for the checksum. */
  lemma {:induction false} UnknownType(kind: Byte, c: uint32, expiration: uint64, body: seq<Byte>)
    requires kind > 2
    ensures JsonOf(Header(kind, c, expiration) + body)
            == Some(Json(1, kind, c, expiration, ASCII_ART, NoData, c == 0))
  {
    hide Crc, Header, Decode, Utf8.Valid;
    ArtIsValid();
    HeaderRoundTrip(kind, c, expiration, body);
  }

  /** A length of 2^63 or more ends the script, however many bytes follow. */
  lemma {:induction false} LongNameStops(n: uint64, tail: seq<Byte>, checksum: uint32)
    ensures StringOf(Input(BE(n, 8) + tail, checksum)).Some?
            <==> n < 0x8000_0000_0000_0000 && Utf8.Valid(if n <= |tail| then tail[..n] else tail)
  {
    hide BE, CountOf, Utf8.Valid;
    CountRoundTrip(n, tail, checksum);
    assert tail[..|tail|] == tail;
  }

  /** Column by column: each name the script shows stands for the same field of the order. */
  lemma {:induction false} OrderColumns(orders: seq<Orders.Order>, expiration: uint64, i: nat)
    requires |orders| < 0x1_0000_0000_0000_0000 && i < |orders|
    ensures var j := JsonOf(Finished(1, expiration, Orders.EncodeTable(orders)));
      && j.Some? && j.value.data.OrderTable? && |j.value.data.orders| == |orders|
      && var e, o := j.value.data.orders[i], orders[i];
         && e.isBuyOrder == (if o.isBuyOrder then 1 else 0) && e.range == o.range && e.duration == o.duration
         && e.issued == o.issued && e.minVolume == o.minVolume && e.volumeRemain == o.volumeRemain
         && e.volumeTotal == o.volumeTotal && e.locationId == o.locationId && e.systemId == o.systemId
         && e.typeId == o.typeId && e.regionId == o.regionId && e.orderId == o.orderId && e.price == o.price
  {
    hide JsonOf, Finished, Orders.EncodeTable;
    OrderDumpRoundTrip(orders, expiration);
  }

  lemma {:induction false} DayHeadRoundTrip(d: Date, n: uint64, tail: seq<Byte>, checksum: uint32)
    ensures var head := Encode(Histories.DateFields(d)) + BE(n, 8);
            DayHeadOf(Input(head + tail, checksum)) == Some(((d.year, d.day, n), Input(tail, Crc(checksum, head))))
  {
    hide BE, Encode, Crc, Decode;
    var fs: seq<Field> := [(U16, d.year), (U16, d.day), (U64, n)];
    TakenRoundTrip(fs, tail, checksum);
    assert Kinds(fs) == DAY_FORMAT && Values(fs) == [d.year as int, d.day as int, n as int];
    assert fs[..2] == Histories.DateFields(d) && fs[..3] == fs;
    EncodeMore(fs, 2);
  }

  lemma {:induction false} HistoryDayRoundTrip(d: Date, bits: seq<Histories.Bit>)
    requires |bits| < 0x1_0000_0000_0000_0000
    ensures var body := Histories.EncodeDay(d, bits);
      HistoryDayOf(Input(body, 0))
      == Some((HistoryDay(d.year, d.day, StatsShown(bits)), Input([], Checksum(body))))
  {
    hide Crc, DayHeadOf, RowsOf, Encode, EncodeRows, BE;
    var rows, head := Histories.EntryRows(bits), Encode(Histories.DateFields(d)) + BE(|bits|, 8);
    DayHeadRoundTrip(d, |bits|, EncodeRows(rows), 0);
    forall i | 0 <= i < |rows| ensures Kinds(rows[i]) == ENTRY_FORMAT {}
    RowsRoundTrip(ENTRY_FORMAT, rows, [], Crc(0, head));
    StatsNames(bits);
    assert EncodeRows(rows) + [] == EncodeRows(rows);
    Streaming(0, head, EncodeRows(rows));
  }

  /** And so is every day of history. */
  lemma {:induction false} DayDumpRoundTrip(d: Date, bits: seq<Histories.Bit>, expiration: uint64)
    requires |bits| < 0x1_0000_0000_0000_0000
    ensures var body := Histories.EncodeDay(d, bits);
      JsonOf(Finished(DUMP_TYPE_HISTORIES, expiration, body))
      == Some(Json(1, 2, Checksum(body), expiration, ASCII_ART,
                   HistoryDay(d.year, d.day, StatsShown(bits)), true))
  {
    hide Crc, Header, Decode, HistoryDayOf, Histories.EncodeDay, Utf8.Valid;
    ArtIsValid();
    var body := Histories.EncodeDay(d, bits);
    HeaderRoundTrip(DUMP_TYPE_HISTORIES, Checksum(body), expiration, body);
    HistoryDayRoundTrip(d, bits);
  }

  /** Column by column, for a day of history. */
  lemma {:induction false} StatColumns(d: Date, bits: seq<Histories.Bit>, expiration: uint64, i: nat)
    requires |bits| < 0x1_0000_0000_0000_0000 && i < |bits|
    ensures var j := JsonOf(Finished(2, expiration, Histories.EncodeDay(d, bits)));
      && j.Some? && j.value.data.HistoryDay? && |j.value.data.stats| == |bits|
      && j.value.data.year == d.year && j.value.data.day == d.day
      && var e, m, t := j.value.data.stats[i], bits[i].market, bits[i].stats;
         && e.regionId == m.regionId && e.typeId == m.typeId && e.average == t.average && e.highest == t.highest
         && e.lowest == t.lowest && e.orderCount == t.orderCount && e.volume == t.volume
  {
    hide JsonOf, Finished, Histories.EncodeDay;
    DayDumpRoundTrip(d, bits, expiration);
  }

  datatype LocRecord = LocRecord(
    id: uint64, typeId: uint64, ownerId: uint64, systemId: uint64, security: uint32, name: seq<Byte>)

  /** What dump_write_loc puts out before the length and bytes of the name. */
  function LocFields(l: LocRecord): seq<Field> {
    [(U64, l.id), (U64, l.typeId), (U64, l.ownerId), (U64, l.systemId), (F32, l.security)]
  }

  lemma {:induction false} LocKinds(l: LocRecord)
    ensures Kinds(LocFields(l)) == LOC_FORMAT
    ensures Values(LocFields(l)) == [l.id as int, l.typeId as int, l.ownerId as int, l.systemId as int, l.security as int]
  {
  }

  ghost predicate IsLoc(l: LocRecord) { |l.name| < 0x8000_0000_0000_0000 && Utf8.Valid(l.name) }

  /** The script's dictionary says of the location what it is. */
  predicate SameLoc(e: Loc, l: LocRecord) {
    && e.id == l.id && e.typeId == l.typeId && e.ownerId == l.ownerId && e.systemId == l.systemId
    && e.security == l.security && e.name == l.name
  }

  function Shown(l: LocRecord): (e: Loc)
    ensures SameLoc(e, l)
  {
    Loc(l.id, l.typeId, l.ownerId, l.systemId, l.security, l.name)
  }

  /** All of the record but the name. */
  function LocHead(l: LocRecord): seq<Byte>
    requires IsLoc(l)
  {
    Encode(LocFields(l)) + BE(|l.name|, 8)
  }

  lemma {:induction false} LocReadsBack(l: LocRecord, tail: seq<Byte>, checksum: uint32)
    requires IsLoc(l)
    ensures LocOf(Input(LocHead(l) + l.name + tail, checksum))
            == Some((Shown(l), Input(tail, Crc(checksum, LocHead(l)))))
  {
    hide Crc, Encode, Utf8.Valid, Taken, CountOf, BE;
    var rest := BE(|l.name|, 8) + (l.name + tail);
    assert LocHead(l) + l.name + tail == Encode(LocFields(l)) + rest;
    LocKinds(l);
    TakenRoundTrip(LocFields(l), rest, checksum);
    CountRoundTrip(|l.name|, l.name + tail, Crc(checksum, Encode(LocFields(l))));
    Streaming(checksum, Encode(LocFields(l)), BE(|l.name|, 8));
    assert (l.name + tail)[..|l.name|] == l.name && (l.name + tail)[|l.name|..] == tail;
  }

  ghost predicate AreLocs(ls: seq<LocRecord>) { forall i :: 0 <= i < |ls| ==> IsLoc(ls[i]) }

  ghost function EncodeLocs(ls: seq<LocRecord>): seq<Byte>
    requires AreLocs(ls)
  {
    if ls == [] then [] else EncodeLocs(ls[..|ls| - 1]) + (LocHead(ls[|ls| - 1]) + ls[|ls| - 1].name)
  }

  /** The same without the names. */
  ghost function LocHeads(ls: seq<LocRecord>): seq<Byte>
    requires AreLocs(ls)
  {
    if ls == [] then [] else LocHeads(ls[..|ls| - 1]) + LocHead(ls[|ls| - 1])
  }

  function LocRows(ls: seq<LocRecord>): seq<Loc> {
    seq(|ls|, i requires 0 <= i < |ls| => Shown(ls[i]))
  }

  /** Location records are recovered, but the checksum that comes with them leaves the names out. */
  lemma {:induction false} LocsReadBack(ls: seq<LocRecord>, tail: seq<Byte>, checksum: uint32)
    requires AreLocs(ls)
    ensures LocsOf(Input(EncodeLocs(ls) + tail, checksum), |ls|)
            == Some((LocRows(ls), Input(tail, Crc(checksum, LocHeads(ls)))))
  {
    hide Crc, LocOf, LocHead, IsLoc;
    if ls == [] {
      assert [] + tail == tail;
      Streaming(checksum, [], []);
    } else {
      var n := |ls| - 1;
      var last := LocHead(ls[n]) + ls[n].name;
      LocsReadBack(ls[..n], last + tail, checksum);
      assert EncodeLocs(ls) + tail == EncodeLocs(ls[..n]) + (last + tail);
      assert last + tail == LocHead(ls[n]) + ls[n].name + tail;
      LocReadsBack(ls[n], tail, Crc(checksum, LocHeads(ls[..n])));
      Streaming(checksum, LocHeads(ls[..n]), LocHead(ls[n]));
      assert LocRows(ls) == LocRows(ls[..n]) + [Shown(ls[n])];
    }
  }

  // ---------------------------------------------------------------- location tables that are cut short

  lemma {:induction false} TakenShort(ks: seq<Kind>, input: Input)
    ensures Taken(ks, input).Some? <==> |input.rest| >= SizeOf(ks)
  {
    hide Crc, Decode;
  }

  lemma {:induction false} LocSize()
    ensures SizeOf(LOC_FORMAT) == 36 && SizeOf([U64]) == 8
  {
    HeaderFormat();
    assert LOC_FORMAT[..4] == [U64, U64, U64, U64] && LOC_FORMAT[..4][..3] == [U64, U64, U64];
    assert LOC_FORMAT[..4][..3][..2] == [U64, U64] && LOC_FORMAT[..4][..3][..2][..1] == [U64];
    assert SizeOf([U64, U64]) == 16 && SizeOf([U64, U64, U64]) == 24 && SizeOf([U64, U64, U64, U64]) == 32;
  }

  lemma {:induction false} HeadSize(l: LocRecord)
    requires IsLoc(l)
    ensures |LocHead(l)| == 44 && |Encode(LocFields(l))| == 36
  {
    hide Encode, Decode;
    LocSize();
    LocKinds(l);
    RoundTrip(LocFields(l));
  }

  /** A record cut within its head cannot be read. */
  lemma {:induction false} HeadCut(l: LocRecord, j: nat, checksum: uint32)
    requires IsLoc(l) && j < |LocHead(l)|
    ensures LocOf(Input(LocHead(l)[..j], checksum)) == None
  {
    hide Crc, Encode, Utf8.Valid, Taken, BE, SizeOf;
    LocSize();
    HeadSize(l);
    var input := Input(LocHead(l)[..j], checksum);
    TakenShort(LOC_FORMAT, input);
    if j >= 36 {
      var rest := BE(|l.name|, 8)[..j - 36];
      assert input.rest == Encode(LocFields(l)) + rest;
      LocKinds(l);
    TakenRoundTrip(LocFields(l), rest, checksum);
      TakenShort([U64], Input(rest, Crc(checksum, Encode(LocFields(l)))));
    }
  }

  /** A record cut within its name is read with what is left of it, if that is UTF-8. */
  lemma {:induction false} NameCut(l: LocRecord, j: nat, checksum: uint32)
    requires IsLoc(l) && j <= |l.name|
    ensures LocOf(Input(LocHead(l) + l.name[..j], checksum))
            == if Utf8.Valid(l.name[..j]) then Some((Shown(l.(name := l.name[..j])), Input([], Crc(checksum, LocHead(l))))) else None
  {
    hide Crc, Encode, Utf8.Valid, Taken, CountOf, BE;
    var name := l.name[..j];
    var rest := BE(|l.name|, 8) + name;
    assert LocHead(l) + name == Encode(LocFields(l)) + rest;
    LocKinds(l);
    TakenRoundTrip(LocFields(l), rest, checksum);
    CountRoundTrip(|l.name|, name, Crc(checksum, Encode(LocFields(l))));
    Streaming(checksum, Encode(LocFields(l)), BE(|l.name|, 8));
    assert name[..|name|] == name && name[|name|..] == [];
  }

  /** Where the name of the last record begins. */
  ghost function LastNameAt(ls: seq<LocRecord>): (at: int)
    requires AreLocs(ls) && ls != []
  {
    |EncodeLocs(ls)| - |ls[|ls| - 1].name|
  }

  lemma {:induction false} LastNameIsInside(ls: seq<LocRecord>)
    requires AreLocs(ls) && ls != []
    ensures var before, last := EncodeLocs(ls[..|ls| - 1]), ls[|ls| - 1];
      && LastNameAt(ls) == |before| + |LocHead(last)| > 0
      && EncodeLocs(ls) == before + LocHead(last) + last.name
  {
    HeadSize(ls[|ls| - 1]);
    hide Encode, LocHead, IsLoc;
    var before, last := EncodeLocs(ls[..|ls| - 1]), ls[|ls| - 1];
    assert before + (LocHead(last) + last.name) == before + LocHead(last) + last.name;
  }

  /** What the reader makes of a table of |ls| records of which only `k` bytes are there. */
  ghost function CutTable(ls: seq<LocRecord>, k: nat, checksum: uint32): Option<(seq<Loc>, Input)>
    requires AreLocs(ls) && ls != [] && k <= |EncodeLocs(ls)|
  {
    var n := |ls| - 1;
    if k < LastNameAt(ls) then None
    else
      LastNameIsInside(ls);
      var name := ls[n].name[..k - LastNameAt(ls)];
      if Utf8.Valid(name)
      then Some((LocRows(ls[..n]) + [Shown(ls[n].(name := name))], Input([], Crc(checksum, LocHeads(ls)))))
      else None
  }

  /** For every table and every place to cut it: the reader accepts exactly a cut within the name of the
      last record, and there at a boundary of UTF-8; it then gives the name as cut and raises nothing,
      with the very checksum of the whole table. */
  lemma {:induction false} TableCutExactly(ls: seq<LocRecord>, k: nat, checksum: uint32)
    requires AreLocs(ls) && ls != [] && k <= |EncodeLocs(ls)|
    ensures LocsOf(Input(EncodeLocs(ls)[..k], checksum), |ls|) == CutTable(ls, k, checksum)
    decreases |ls|
  {
    hide Crc, LocOf, LocHead, IsLoc, Encode, Utf8.Valid;
    var n := |ls| - 1;
    LastNameIsInside(ls);
    if k < |EncodeLocs(ls[..n])| {
      assert n > 0 && EncodeLocs(ls)[..k] == EncodeLocs(ls[..n])[..k];
      TableCutExactly(ls[..n], k, checksum);
      NothingIsNoLoc(Crc(checksum, LocHeads(ls[..n])));
    } else {
      LastCut(ls, k, checksum);
    }
  }

  /** The same for a cut within the last record. */
  lemma {:induction false} LastCut(ls: seq<LocRecord>, k: nat, checksum: uint32)
    requires AreLocs(ls) && ls != [] && |EncodeLocs(ls[..|ls| - 1])| <= k <= |EncodeLocs(ls)|
    ensures LocsOf(Input(EncodeLocs(ls)[..k], checksum), |ls|) == CutTable(ls, k, checksum)
  {
    hide Crc, LocOf, LocHead, IsLoc, Encode, Utf8.Valid, LocRows;
    var n := |ls| - 1;
    var before, last := EncodeLocs(ls[..n]), ls[n];
    LastNameIsInside(ls);
    var tail := (LocHead(last) + last.name)[..k - |before|];
    assert EncodeLocs(ls)[..k] == before + tail;
    LocsReadBack(ls[..n], tail, checksum);
    hide EncodeLocs;
    var middle := Crc(checksum, LocHeads(ls[..n]));
    if k < LastNameAt(ls) {
      assert tail == LocHead(last)[..k - |before|];
      HeadCut(last, k - |before|, middle);
    } else {
      var j := k - LastNameAt(ls);
      assert tail == LocHead(last) + last.name[..j];
      NameCut(last, j, middle);
      Streaming(checksum, LocHeads(ls[..n]), LocHead(last));
    }
  }

  lemma {:induction false} NothingIsNoLoc(checksum: uint32)
    ensures LocOf(Input([], checksum)) == None
  {
    hide Crc, Utf8.Valid, SizeOf;
    LocSize();
    TakenShort(LOC_FORMAT, Input([], checksum));
  }

  // ---------------------------------------------------------------- what the checksum of locations is worth

  /** The body of a table with a count, and how it reads. */
  lemma {:induction false} LocTableReadsBack(ls: seq<LocRecord>)
    requires AreLocs(ls) && |ls| < 0x1_0000_0000_0000_0000
    ensures LocTableOf(Input(BE(|ls|, 8) + EncodeLocs(ls), 0))
            == Some((Locations(LocRows(ls)), Input([], Crc(0, BE(|ls|, 8) + LocHeads(ls)))))
  {
    hide Crc, CountOf, LocsOf, EncodeLocs, LocHeads, BE;
    CountRoundTrip(|ls|, EncodeLocs(ls), 0);
    LocsReadBack(ls, [], Crc(0, BE(|ls|, 8)));
    assert EncodeLocs(ls) + [] == EncodeLocs(ls);
    Streaming(0, BE(|ls|, 8), LocHeads(ls));
  }

  /** Whatever the names, tables with the same heads get the same checksum. */
  lemma {:induction false} NamesAreNotChecked(ls: seq<LocRecord>, ls': seq<LocRecord>, checksum: uint32)
    requires AreLocs(ls) && AreLocs(ls') && LocHeads(ls) == LocHeads(ls') && |ls| == |ls'|
    ensures LocsOf(Input(EncodeLocs(ls), checksum), |ls|).Some? && LocsOf(Input(EncodeLocs(ls'), checksum), |ls'|).Some?
    ensures LocsOf(Input(EncodeLocs(ls), checksum), |ls|).value.1.checksum
            == LocsOf(Input(EncodeLocs(ls'), checksum), |ls'|).value.1.checksum
  {
    hide Crc, LocsOf, EncodeLocs, LocHeads;
    LocsReadBack(ls, [], checksum);
    LocsReadBack(ls', [], checksum);
    assert EncodeLocs(ls) + [] == EncodeLocs(ls) && EncodeLocs(ls') + [] == EncodeLocs(ls');
  }

  lemma {:induction false} NamelessHeads(ls: seq<LocRecord>)
    requires AreLocs(ls)
    ensures |EncodeLocs(ls)| >= |LocHeads(ls)|
    ensures |EncodeLocs(ls)| == |LocHeads(ls)| <==> forall i :: 0 <= i < |ls| ==> ls[i].name == []
    ensures EncodeLocs(ls) == LocHeads(ls) <==> |EncodeLocs(ls)| == |LocHeads(ls)|
  {
    hide LocHead, IsLoc;
    if ls != [] {
      var n := |ls| - 1;
      NamelessHeads(ls[..n]);
      assert forall i :: 0 <= i < n ==> ls[..n][i] == ls[i];
      if ls[n].name == [] {
        assert LocHead(ls[n]) + ls[n].name == LocHead(ls[n]);
      }
    }
  }

  /** The bytes that the checksum has seen are all the bytes consumed exactly when no name has any. */
  lemma {:induction false} ChecksumOfConsumed(ls: seq<LocRecord>, checksum: uint32)
    requires AreLocs(ls)
    ensures var r := LocsOf(Input(EncodeLocs(ls), checksum), |ls|);
      && r.Some? && r.value.1 == Input([], Crc(checksum, LocHeads(ls)))
      && (LocHeads(ls) == EncodeLocs(ls) <==> forall i :: 0 <= i < |ls| ==> ls[i].name == [])
  {
    hide Crc, LocsOf, EncodeLocs, LocHeads;
    LocsReadBack(ls, [], checksum);
    assert EncodeLocs(ls) + [] == EncodeLocs(ls);
    NamelessHeads(ls);
  }

  /** Two tables that differ in one letter of a name, and that the checksum does not tell apart. */
  lemma {:induction false} UnseenName(loc: LocRecord)
    ensures var ls, ls' := [loc.(name := [97])], [loc.(name := [98])];
      && AreLocs(ls) && AreLocs(ls') && LocRows(ls) != LocRows(ls') && EncodeLocs(ls) != EncodeLocs(ls')
      && LocTableOf(Input(BE(1, 8) + EncodeLocs(ls), 0)).Some? && LocTableOf(Input(BE(1, 8) + EncodeLocs(ls'), 0)).Some?
      && LocTableOf(Input(BE(1, 8) + EncodeLocs(ls), 0)).value.1 == LocTableOf(Input(BE(1, 8) + EncodeLocs(ls'), 0)).value.1
  {
    hide Crc, Encode, BE, LocTableOf, Values;
    var l, l' := loc.(name := [97]), loc.(name := [98]);
    assert Utf8.ValidFrom([97], 1) && Utf8.ValidFrom([98], 1);
    assert IsLoc(l) && IsLoc(l');
    assert [l][..0] == [] && [l'][..0] == [];
    assert LocHeads([l]) == LocHead(l) && LocHeads([l']) == LocHead(l');
    assert EncodeLocs([l]) == LocHead(l) + [97] && EncodeLocs([l']) == LocHead(l') + [98];
    assert EncodeLocs([l])[|LocHead(l)|] == 97 && EncodeLocs([l'])[|LocHead(l)|] == 98;
    assert LocRows([l])[0].name == [97] && LocRows([l'])[0].name == [98];
    LocTableReadsBack([l]);
    LocTableReadsBack([l']);
  }

  /** From the downloads to the script: the dump of a visited day shows that day's records of all
      markets, in download order. */
  lemma {:induction false} SweptDayReadsBack(ds: seq<DateSweep.Download>, dir: map<Date, seq<Byte>>,
                                             dir': map<Date, seq<Byte>>, d: Date)
    requires |DateSweep.AllBits(ds)| < 0x1_0000_0000_0000_0000
    requires var w := DateSweep.WindowOf(ds);
             DateSweep.Dumped(dir, dir', DateSweep.AllBits(ds), w.first, w.last, DateSweep.Key(w.last) + 1)
             && DateSweep.Visited(w.first, w.last, d) && d !in dir
    ensures d in dir' && JsonOf(dir'[d]).Some?
    ensures var j, day := JsonOf(dir'[d]).value, DateSweep.OfDate(DateSweep.AllBits(ds), d);
      j.checksumMatches && j.data == HistoryDay(d.year, d.day, StatsShown(day))
  {
    hide JsonOf, Finished, Histories.EncodeDay, Histories.EntryRows;
    var day := DateSweep.OfDate(DateSweep.AllBits(ds), d);
    DateSweep.FilterLength(DateSweep.AllBits(ds), DateSweep.Key(d));
    DateSweep.KeyOrder(d, DateSweep.WindowOf(ds).last);
    DayDumpRoundTrip(d, day, 0);
  }

  /** The thirteen numbers of a row determine the order, the seven of a day's entry its record. */
  lemma {:induction false} RowsAreFaithful(o: Orders.Order, o': Orders.Order, b: Histories.Bit, b': Histories.Bit)
    ensures Values(Orders.Fields(o)) == Values(Orders.Fields(o')) ==> o == o'
    ensures Values(Histories.EntryFields(b)) == Values(Histories.EntryFields(b')) ==>
              b.market == b'.market && b.stats == b'.stats
  {
    var v, v' := Values(Orders.Fields(o)), Values(Orders.Fields(o'));
    if v == v' {
      assert v[0] == v'[0] && v[1] == v'[1] && v[2] == v'[2] && v[3] == v'[3] && v[4] == v'[4] && v[5] == v'[5];
      assert v[6] == v'[6];
      assert v[7] == v'[7] && v[8] == v'[8] && v[9] == v'[9] && v[10] == v'[10] && v[11] == v'[11] && v[12] == v'[12];
    }
    var w, w' := Values(Histories.EntryFields(b)), Values(Histories.EntryFields(b'));
    if w == w' {
      assert w[0] == w'[0] && w[1] == w'[1] && w[2] == w'[2] && w[3] == w'[3] && w[4] == w'[4] && w[5] == w'[5];
      assert w[6] == w'[6];
    }
  }
}

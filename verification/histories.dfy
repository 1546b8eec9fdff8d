/** Daily market statistics: the records of histories.c and the two files they are written to. */
module Histories {
  import opened Wrappers
  import opened Ints
  import opened Bytes
  import opened Crc32
  import opened Dates
  import opened DumpFiles
  import opened Records

  datatype Market = Market(regionId: uint64, typeId: uint64)

  datatype Stats = Stats(average: float64, highest: float64, lowest: float64, orderCount: uint64, volume: uint64)

  datatype Bit = Bit(date: Date, market: Market, stats: Stats)

  /** Bytes of a record in the snapshot. */
  const BIT_SIZE: nat := 60

  function DateFields(d: Date): seq<Field> { [(U16, d.year), (U16, d.day)] }

  /** A market and its statistics, as dump_write_history_market and dump_write_history_stats. */
  function EntryFields(b: Bit): seq<Field> {
    [(U64, b.market.regionId), (U64, b.market.typeId), (F64, b.stats.average), (F64, b.stats.highest),
     (F64, b.stats.lowest), (U64, b.stats.orderCount), (U64, b.stats.volume)]
  }

  function BitFields(b: Bit): seq<Field> { DateFields(b.date) + EntryFields(b) }

  const BIT_KINDS: seq<Kind> := [U16, U16, U64, U64, F64, F64, F64, U64, U64]

  /** The record of nine values read back. */
  function BitOf(vs: seq<int>): Bit
    requires |vs| == 9 && forall i :: 0 <= i < 9 ==> InRange(BIT_KINDS[i], vs[i])
  {
    assert InRange(BIT_KINDS[0], vs[0]) && InRange(BIT_KINDS[1], vs[1]) && InRange(BIT_KINDS[2], vs[2]);
    assert InRange(BIT_KINDS[3], vs[3]) && InRange(BIT_KINDS[4], vs[4]) && InRange(BIT_KINDS[5], vs[5]);
    assert InRange(BIT_KINDS[6], vs[6]) && InRange(BIT_KINDS[7], vs[7]) && InRange(BIT_KINDS[8], vs[8]);
    Bit(Date(vs[0], vs[1]), Market(vs[2], vs[3]), Stats(vs[4], vs[5], vs[6], vs[7], vs[8]))
  }

  /** Where each field of a record begins. */
  lemma {:induction false} BitOffsets()
    ensures SizeOf(BIT_KINDS[..0]) == 0 && SizeOf(BIT_KINDS[..1]) == 2 && SizeOf(BIT_KINDS[..2]) == 4
    ensures SizeOf(BIT_KINDS[..3]) == 12 && SizeOf(BIT_KINDS[..4]) == 20 && SizeOf(BIT_KINDS[..5]) == 28
    ensures SizeOf(BIT_KINDS[..6]) == 36 && SizeOf(BIT_KINDS[..7]) == 44 && SizeOf(BIT_KINDS[..8]) == 52
    ensures SizeOf(BIT_KINDS) == BIT_SIZE
  {
    hide SizeOf;
    assert SizeOf(BIT_KINDS[..0]) == 0 by { Nothing(); assert BIT_KINDS[..0] == []; }
    SizeGrows(BIT_KINDS, 0);
    SizeGrows(BIT_KINDS, 1);
    SizeGrows(BIT_KINDS, 2);
    SizeGrows(BIT_KINDS, 3);
    SizeGrows(BIT_KINDS, 4);
    SizeGrows(BIT_KINDS, 5);
    SizeGrows(BIT_KINDS, 6);
    SizeGrows(BIT_KINDS, 7);
    SizeGrows(BIT_KINDS, 8);
    assert BIT_KINDS[..9] == BIT_KINDS;
  }

  lemma {:induction false} Nothing()
    ensures SizeOf([]) == 0
  {
  }

  /** A record cut short within its floats is an error; cut short anywhere else it is the end of
      the file, and what there was of it is dropped. */
  lemma {:induction false} BitShortage(room: nat)
    requires room < BIT_SIZE
    ensures SizeOf(BIT_KINDS) == BIT_SIZE
    ensures Shortage(BIT_KINDS, room) == if 20 <= room < 44 then ERR else EOF
  {
    hide SizeOf, Shortage;
    BitOffsets();
    assert BIT_KINDS[..9] == BIT_KINDS;
    var i := if room < 2 then 0 else if room < 4 then 1 else if room < 12 then 2 else if room < 20 then 3
             else if room < 28 then 4 else if room < 36 then 5 else if room < 44 then 6 else if room < 52 then 7 else 8;
    ShortageAt(BIT_KINDS, i, room);
  }

  function BitAt(s: seq<Byte>): Bit
    requires |s| == BIT_SIZE
  {
    BitOffsets();
    DecodeInRange(BIT_KINDS, s);
    BitOf(Decode(BIT_KINDS, s))
  }

  lemma {:induction false} BitRoundTrip(b: Bit)
    ensures |Encode(BitFields(b))| == BIT_SIZE && BitAt(Encode(BitFields(b))) == b
  {
    hide Encode, Decode, SizeOf;
    BitOffsets();
    RoundTrip(BitFields(b));
    assert Kinds(BitFields(b)) == BIT_KINDS;
  }

  lemma {:induction false} BitField(b: Bit, i: nat, at: nat)
    requires i < 9 && at == SizeOf(BIT_KINDS[..i])
    ensures at + Size(BIT_KINDS[i]) <= |Encode(BitFields(b))|
    ensures Encode(BitFields(b))[at..at + Size(BIT_KINDS[i])] == EncodeField(BitFields(b)[i])
  {
    hide Encode, EncodeField, SizeOf;
    assert Kinds(BitFields(b)) == BIT_KINDS;
    FieldAt(BitFields(b), i);
  }

  /** 60 bytes: which number stands where. */
  lemma {:induction false} BitLayout(b: Bit)
    ensures var s := Encode(BitFields(b));
      && |s| == 60 && s[0..2] == BE(b.date.year, 2) && s[2..4] == BE(b.date.day, 2)
      && s[4..12] == BE(b.market.regionId, 8) && s[12..20] == BE(b.market.typeId, 8)
      && s[20..28] == BE(b.stats.average, 8) && s[28..36] == BE(b.stats.highest, 8)
      && s[36..44] == BE(b.stats.lowest, 8) && s[44..52] == BE(b.stats.orderCount, 8)
      && s[52..60] == BE(b.stats.volume, 8)
  {
    hide Encode, SizeOf, BE;
    BitOffsets();
    BitRoundTrip(b);
    BitField(b, 0, 0);
    BitField(b, 1, 2);
    BitField(b, 2, 4);
    BitField(b, 3, 12);
    BitField(b, 4, 20);
    BitField(b, 5, 28);
    BitField(b, 6, 36);
    BitField(b, 7, 44);
    BitField(b, 8, 52);
  }

  function BitRows(bits: seq<Bit>): seq<seq<Field>> {
    seq(|bits|, i requires 0 <= i < |bits| => BitFields(bits[i]))
  }

  function EncodeBits(bits: seq<Bit>): seq<Byte> { EncodeRows(BitRows(bits)) }

  lemma {:induction false} EncodeLast(bits: seq<Bit>)
    ensures bits == [] ==> EncodeBits(bits) == []
    ensures bits != [] ==> EncodeBits(bits) == EncodeBits(bits[..|bits| - 1]) + Encode(BitFields(bits[|bits| - 1]))
  {
    hide BitFields, Encode;
    if bits != [] {
      assert BitRows(bits)[..|bits| - 1] == BitRows(bits[..|bits| - 1]);
    }
  }

  function Slice(bytes: seq<Byte>, pos: nat): seq<Byte>
    requires pos + BIT_SIZE <= |bytes|
  {
    bytes[pos..pos + BIT_SIZE]
  }

  /** The `k` records that start at `pos`. */
  function Bits(bytes: seq<Byte>, pos: nat, k: nat): (bits: seq<Bit>)
    requires pos + 60 * k <= |bytes|
    ensures |bits| == k
  {
    seq(k, i requires 0 <= i < k => BitAt(Slice(bytes, pos + 60 * i)))
  }

  lemma {:induction false} EncodedAt(bits: seq<Bit>, i: nat)
    requires i < |bits|
    ensures |EncodeBits(bits)| == 60 * |bits|
    ensures Slice(EncodeBits(bits), 60 * i) == Encode(BitFields(bits[i]))
  {
    hide BitFields, EncodeBits, Encode;
    var n := |bits| - 1;
    EncodeLast(bits);
    BitRoundTrip(bits[n]);
    EncodedLength(bits[..n]);
    if i < n {
      EncodedAt(bits[..n], i);
    }
  }

  lemma {:induction false} EncodedLength(bits: seq<Bit>)
    ensures |EncodeBits(bits)| == 60 * |bits|
  {
    hide BitFields, EncodeBits, Encode;
    EncodeLast(bits);
    if bits != [] {
      BitRoundTrip(bits[|bits| - 1]);
      EncodedLength(bits[..|bits| - 1]);
    }
  }

  lemma {:induction false} SliceInside(head: seq<Byte>, body: seq<Byte>, tail: seq<Byte>, i: nat)
    requires i + BIT_SIZE <= |body|
    ensures Slice(head + body + tail, |head| + i) == Slice(body, i)
  {
    var s := head + body + tail;
    forall j | 0 <= j < BIT_SIZE
      ensures Slice(s, |head| + i)[j] == Slice(body, i)[j]
    {
    }
  }

  /** Reading a body of records gives back the records written, wherever it lies in a file. */
  lemma {:induction false} BitsRoundTrip(head: seq<Byte>, bits: seq<Bit>, tail: seq<Byte>)
    ensures |EncodeBits(bits)| == 60 * |bits|
    ensures Bits(head + EncodeBits(bits) + tail, |head|, |bits|) == bits
  {
    hide BitFields, Encode, BitAt, EncodeBits;
    EncodedLength(bits);
    var bytes := head + EncodeBits(bits) + tail;
    forall i | 0 <= i < |bits|
      ensures BitAt(Slice(bytes, |head| + 60 * i)) == bits[i]
    {
      EncodedAt(bits, i);
      SliceInside(head, EncodeBits(bits), tail, 60 * i);
      BitRoundTrip(bits[i]);
    }
  }

  lemma {:induction false} BitsSplit(bytes: seq<Byte>, pos: nat, k: nat, l: nat)
    requires pos + 60 * (k + l) <= |bytes|
    ensures Bits(bytes, pos, k + l) == Bits(bytes, pos, k) + Bits(bytes, pos + 60 * k, l)
  {
    hide BitAt, Slice;
  }

  method WriteBits(dump: Dump, bits: seq<Bit>)
    requires dump.Writing()
    modifies dump`pos, dump`checksum, dump`body, dump.file
    ensures dump.Writing() && dump.file == old(dump.file) && dump.header == old(dump.header)
    ensures dump.body == old(dump.body) + EncodeBits(bits)
  {
    hide Crc, BitFields, Encode, EncodeBits;
    EncodeLast(bits[..0]);
    for i := 0 to |bits|
      invariant dump.Writing() && dump.file == old(dump.file) && dump.header == old(dump.header)
      invariant dump.body == old(dump.body) + EncodeBits(bits[..i])
    {
      WriteFields(dump, BitFields(bits[i]));
      EncodeLast(bits[..i + 1]);
      assert bits[..i + 1][..i] == bits[..i];
    }
    assert bits[..|bits|] == bits;
  }

  method ReadBit(dump: Dump) returns (status: Status, bit: Bit)
    requires dump.Reading() && dump.pos <= |dump.file.bytes|
    modifies dump`pos, dump`eof
    ensures var room := |dump.file.bytes| - old(dump.pos);
            status == if room >= BIT_SIZE then OK else if 20 <= room < 44 then ERR else EOF
    ensures status == OK ==> dump.pos == old(dump.pos) + BIT_SIZE
                             && bit == BitAt(dump.file.bytes[old(dump.pos)..dump.pos])
  {
    hide SizeOf, Shortage, Decode;
    BitOffsets();
    var vs;
    status, vs := ReadFields(dump, BIT_KINDS);
    if |dump.file.bytes| < old(dump.pos) + BIT_SIZE {
      BitShortage(|dump.file.bytes| - old(dump.pos));
    }
    if status != OK {
      return status, Bit(Date(0, 0), Market(0, 0), Stats(0, 0, 0, 0, 0));
    }
    DecodeInRange(BIT_KINDS, dump.file.bytes[old(dump.pos)..dump.pos]);
    bit := BitOf(vs);
  }

  /** dump_read_history_bit_vec: push up to `n` records, fewer when the file ends. */
  method ReadBits(dump: Dump, bitVec: seq<Bit>, n: nat) returns (status: Status, filled: seq<Bit>)
    requires dump.Reading() && dump.pos <= |dump.file.bytes|
    modifies dump`pos, dump`eof
    ensures var room := |dump.file.bytes| - old(dump.pos);
            var k := if room / 60 < n then room / 60 else n;
            && filled == bitVec + Bits(dump.file.bytes, old(dump.pos), k)
            && status == (if k == n then OK else if 20 <= room % 60 < 44 then ERR else EOF)
            && (status == OK ==> dump.pos == old(dump.pos) + 60 * n)
  {
    hide BitAt;
    filled := bitVec;
    ghost var p := dump.pos;
    for i := 0 to n
      invariant dump.pos == p + 60 * i <= |dump.file.bytes|
      invariant filled == bitVec + Bits(dump.file.bytes, p, i)
    {
      var bit;
      status, bit := ReadBit(dump);
      if status == OK {
        filled := filled + [bit];
      } else {
        Remainder(|dump.file.bytes| - p, i);
        return;
      }
    }
    status := OK;
  }

  lemma {:induction false} Remainder(room: nat, i: nat)
    requires 60 * i <= room < 60 * (i + 1)
    ensures room / 60 == i && room % 60 == room - 60 * i
  {
  }

  /** The body of a day's dump: date, count, then market and statistics of each record. */
  function EncodeDay(d: Date, bits: seq<Bit>): seq<Byte> {
    Encode(DateFields(d)) + BE(|bits|, 8) + EncodeRows(EntryRows(bits))
  }

  function EntryRows(bits: seq<Bit>): seq<seq<Field>> {
    seq(|bits|, i requires 0 <= i < |bits| => EntryFields(bits[i]))
  }

  lemma {:induction false} EntryBytes(b: Bit)
    ensures |Encode(DateFields(b.date))| == 4 && |Encode(EntryFields(b))| == 56
    ensures Encode(BitFields(b)) == Encode(DateFields(b.date)) + Encode(EntryFields(b))
  {
    BitRoundTrip(b);
    hide Encode, EncodeField, EntryFields;
    EncodeAppends(DateFields(b.date), EntryFields(b));
    DateSize(b.date);
  }

  lemma {:induction false} DateSize(d: Date)
    ensures |Encode(DateFields(d))| == 4
    ensures Encode(DateFields(d)) == BE(d.year, 2) + BE(d.day, 2)
  {
    hide BE;
    assert DateFields(d)[..1] == [(U16, d.year)] && DateFields(d)[..1][..0] == [];
    assert Encode(DateFields(d)[..1]) == BE(d.year, 2);
  }

  /** Date and count, then the entries at multiples of 56 bytes: each is the record without its date. */
  lemma {:induction false} DayLayout(d: Date, bits: seq<Bit>, i: nat)
    requires i < |bits|
    ensures var t := EncodeDay(d, bits);
      && |t| == 12 + 56 * |bits| && t[..2] == BE(d.year, 2) && t[2..4] == BE(d.day, 2) && t[4..12] == BE(|bits|, 8)
      && |Encode(BitFields(bits[i]))| == 60
      && t[12 + 56 * i..12 + 56 * i + 56] == Encode(BitFields(bits[i]))[4..]
  {
    hide Encode, EntryFields, BitFields, DateFields, BE, EncodeRows;
    DateSize(d);
    EntryBytes(bits[i]);
    forall r | 0 <= r < |bits|
      ensures |Encode(EntryRows(bits)[r])| == 56
    {
      EntryBytes(bits[r]);
    }
    RowAt(EntryRows(bits), 56, i);
    var head, rows := Encode(DateFields(d)) + BE(|bits|, 8), EncodeRows(EntryRows(bits));
    assert (head + rows)[12 + 56 * i..12 + 56 * i + 56] == rows[56 * i..56 * i + 56];
  }

  method WriteHistoryDump(dump: Dump, d: Date, bits: seq<Bit>)
    requires dump.Writing() && |bits| < 0x1_0000_0000_0000_0000
    modifies dump`pos, dump`checksum, dump`body, dump.file
    ensures dump.Writing() && dump.file == old(dump.file) && dump.header == old(dump.header)
    ensures dump.body == old(dump.body) + EncodeDay(d, bits)
  {
    hide Crc, BE, DateFields, EntryFields, Encode;
    WriteFields(dump, DateFields(d));
    dump.WriteUint64(|bits|);
    for i := 0 to |bits|
      invariant dump.Writing() && dump.file == old(dump.file) && dump.header == old(dump.header)
      invariant dump.body == old(dump.body) + (Encode(DateFields(d)) + BE(|bits|, 8) + EncodeRows(EntryRows(bits)[..i]))
    {
      WriteFields(dump, EntryFields(bits[i]));
      assert EntryRows(bits)[..i + 1][..i] == EntryRows(bits)[..i];
    }
    assert EntryRows(bits)[..|bits|] == EntryRows(bits);
  }
}

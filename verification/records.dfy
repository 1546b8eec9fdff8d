/** Fixed-layout records: lists of typed fields, as the C writers put them out one by one and as
    Python's struct module describes them by a format string. */
module Records {
  import opened Wrappers
  import opened Ints
  import opened Bytes
  import opened DumpFiles
  import opened Crc32

  /** The format characters B, b, H, I, Q, f and d. */
  datatype Kind = U8 | I8 | U16 | U32 | U64 | F32 | F64

  function Size(k: Kind): nat {
    match k
    case U8 => 1
    case I8 => 1
    case U16 => 2
    case U32 => 4
    case U64 => 8
    case F32 => 4
    case F64 => 8
  }

  predicate IsFloat(k: Kind) { k == F32 || k == F64 }

  predicate InRange(k: Kind, v: int) {
    match k
    case U8 => 0 <= v < 0x100
    case I8 => -0x80 <= v < 0x80
    case U16 => 0 <= v < 0x1_0000
    case U32 => 0 <= v < 0x1_0000_0000
    case U64 => 0 <= v < 0x1_0000_0000_0000_0000
    case F32 => 0 <= v < 0x1_0000_0000
    case F64 => 0 <= v < 0x1_0000_0000_0000_0000
  }

  type Field = f: (Kind, int) | InRange(f.0, f.1) witness (U8, 0)

  /** A field's bytes; a signed byte goes out in two's complement. */
  function EncodeField(f: Field): (s: seq<Byte>)
    ensures |s| == Size(f.0)
  {
    BE(if f.0 == I8 then f.1 % 0x100 else f.1, Size(f.0))
  }

  function DecodeField(k: Kind, s: seq<Byte>): int {
    var n := FromBE(s);
    if k == I8 && n >= 0x80 then n - 0x100 else n
  }

  function Encode(fs: seq<Field>): seq<Byte> {
    if fs == [] then [] else Encode(fs[..|fs| - 1]) + EncodeField(fs[|fs| - 1])
  }

  function SizeOf(ks: seq<Kind>): nat {
    if ks == [] then 0 else SizeOf(ks[..|ks| - 1]) + Size(ks[|ks| - 1])
  }

  /** struct.unpack with the big-endian format `ks`. */
  function Decode(ks: seq<Kind>, s: seq<Byte>): (vs: seq<int>)
    requires |s| == SizeOf(ks)
    ensures |vs| == |ks|
  {
    if ks == [] then []
    else
      var z := |s| - Size(ks[|ks| - 1]);
      Decode(ks[..|ks| - 1], s[..z]) + [DecodeField(ks[|ks| - 1], s[z..])]
  }

  function Kinds(fs: seq<Field>): seq<Kind> { seq(|fs|, i requires 0 <= i < |fs| => fs[i].0) }

  function Values(fs: seq<Field>): seq<int> { seq(|fs|, i requires 0 <= i < |fs| => fs[i].1) }

  lemma {:induction false} FieldRoundTrip(f: Field)
    ensures DecodeField(f.0, EncodeField(f)) == f.1
  {
    Powers();
    FromBEofBE(if f.0 == I8 then f.1 % 0x100 else f.1, Size(f.0));
  }

  lemma {:induction false} EncodeSplit(fs: seq<Field>)
    requires fs != []
    ensures var n := |fs| - 1;
      && Encode(fs) == Encode(fs[..n]) + EncodeField(fs[n])
      && Kinds(fs) != [] && Kinds(fs)[..n] == Kinds(fs[..n]) && Kinds(fs)[n] == fs[n].0
      && Values(fs) == Values(fs[..n]) + [fs[n].1]
  {
    hide EncodeField;
  }

  lemma {:induction false} DecodeSplit(ks: seq<Kind>, a: seq<Byte>, b: seq<Byte>)
    requires ks != [] && |a| == SizeOf(ks[..|ks| - 1]) && |b| == Size(ks[|ks| - 1])
    ensures |a + b| == SizeOf(ks)
    ensures Decode(ks, a + b) == Decode(ks[..|ks| - 1], a) + [DecodeField(ks[|ks| - 1], b)]
  {
    hide DecodeField, Size;
    assert (a + b)[..|a|] == a && (a + b)[|a|..] == b;
  }

  /** Unpacking with the format of the fields written gives their values back. */
  lemma {:induction false} RoundTrip(fs: seq<Field>)
    ensures |Encode(fs)| == SizeOf(Kinds(fs))
    ensures Decode(Kinds(fs), Encode(fs)) == Values(fs)
  {
    if fs != [] {
      hide Encode, Decode, EncodeField, DecodeField, Kinds, Values;
      var n := |fs| - 1;
      RoundTrip(fs[..n]);
      EncodeSplit(fs);
      FieldRoundTrip(fs[n]);
      KindsLength(fs);
      DecodeSplit(Kinds(fs), Encode(fs[..n]), EncodeField(fs[n]));
    }
  }

  lemma {:induction false} KindsLength(fs: seq<Field>)
    ensures |Kinds(fs)| == |fs|
  {
  }

  /** Each field stands behind the sizes of those before it. */
  lemma {:induction false} FieldAt(fs: seq<Field>, i: nat)
    requires i < |fs|
    ensures SizeOf(Kinds(fs)[..i]) + Size(fs[i].0) <= |Encode(fs)| && i < |Kinds(fs)|
    ensures Encode(fs)[SizeOf(Kinds(fs)[..i])..SizeOf(Kinds(fs)[..i]) + Size(fs[i].0)] == EncodeField(fs[i])
  {
    hide Encode, EncodeField, SizeOf, Size, Values, Kinds, Decode;
    var n := |fs| - 1;
    KindsLength(fs);
    KindsLength(fs[..n]);
    EncodeSplit(fs);
    if i < n {
      FieldAt(fs[..n], i);
      assert Kinds(fs[..n])[..i] == Kinds(fs)[..i];
      var a, b := SizeOf(Kinds(fs)[..i]), SizeOf(Kinds(fs)[..i]) + Size(fs[i].0);
      InFront(Encode(fs[..n]), EncodeField(fs[n]), a, b);
    } else {
      RoundTrip(fs[..n]);
      AtTheEnd(Encode(fs[..n]), EncodeField(fs[n]));
    }
  }

  lemma {:induction false} InFront(s: seq<Byte>, t: seq<Byte>, a: nat, b: nat)
    requires a <= b <= |s|
    ensures (s + t)[a..b] == s[a..b]
  {
  }

  lemma {:induction false} AtTheEnd(s: seq<Byte>, t: seq<Byte>)
    ensures (s + t)[|s|..|s| + |t|] == t
  {
  }

  /** The fields of a record, written one dump_write at a time. */
  method WriteFields(dump: Dump, fs: seq<Field>)
    requires dump.Writing()
    modifies dump`pos, dump`checksum, dump`body, dump.file
    ensures dump.Writing() && dump.file == old(dump.file) && dump.header == old(dump.header)
    ensures dump.body == old(dump.body) + Encode(fs)
  {
    hide Crc, EncodeField;
    for i := 0 to |fs|
      invariant dump.Writing() && dump.file == old(dump.file) && dump.header == old(dump.header)
      invariant dump.body == old(dump.body) + Encode(fs[..i])
    {
      WriteField(dump, fs[i]);
      assert fs[..i + 1][..i] == fs[..i];
    }
    assert fs[..|fs|] == fs;
  }

  method WriteField(dump: Dump, f: Field)
    requires dump.Writing()
    modifies dump`pos, dump`checksum, dump`body, dump.file
    ensures dump.Writing() && dump.file == old(dump.file) && dump.header == old(dump.header)
    ensures dump.body == old(dump.body) + EncodeField(f)
  {
    hide Crc, BE;
    var (k, v) := f;
    match k
    case U8 => dump.WriteUint8(v);
    case I8 => dump.WriteUint8(v % 0x100);
    case U16 => dump.WriteUint16(v);
    case U32 => dump.WriteUint32(v);
    case U64 => dump.WriteUint64(v);
    case F32 => dump.WriteUint32(v);
    case F64 => dump.WriteUint64(v);
  }

  /** Records one after the other. */
  function EncodeRows(rows: seq<seq<Field>>): seq<Byte> {
    if rows == [] then [] else EncodeRows(rows[..|rows| - 1]) + Encode(rows[|rows| - 1])
  }

  lemma {:induction false} EncodeAppends(a: seq<Field>, b: seq<Field>)
    ensures Encode(a + b) == Encode(a) + Encode(b)
  {
    hide Encode, EncodeField, Kinds, Values;
    if b == [] {
      EncodeNothing();
      assert a + b == a && Encode(a) + [] == Encode(a);
    } else {
      var n := |b| - 1;
      EncodeAppends(a, b[..n]);
      EncodeOneMore(b[..n], b[n]);
      EncodeOneMore(a + b[..n], b[n]);
      assert b == b[..n] + [b[n]] && a + b == a + b[..n] + [b[n]];
      var x, y, z := Encode(a), Encode(b[..n]), EncodeField(b[n]);
      assert x + y + z == x + (y + z);
    }
  }

  lemma {:induction false} EncodeNothing()
    ensures Encode([]) == []
  {
  }

  lemma {:induction false} EncodeOneMore(fs: seq<Field>, f: Field)
    ensures Encode(fs + [f]) == Encode(fs) + EncodeField(f)
  {
    assert (fs + [f])[..|fs|] == fs;
  }

  lemma {:induction false} RowFrom(rows: seq<seq<Field>>, i: nat)
    requires i < |rows|
    ensures var a, b := |EncodeRows(rows[..i])|, |EncodeRows(rows[..i])| + |Encode(rows[i])|;
            b <= |EncodeRows(rows)| && EncodeRows(rows)[a..b] == Encode(rows[i])
  {
    hide Encode;
    var n := |rows| - 1;
    if i < n {
      RowFrom(rows[..n], i);
      assert rows[..n][..i] == rows[..i];
      var a := |EncodeRows(rows[..i])|;
      InFront(EncodeRows(rows[..n]), Encode(rows[n]), a, a + |Encode(rows[i])|);
    } else {
      AtTheEnd(EncodeRows(rows[..n]), Encode(rows[n]));
    }
  }

  /** Rows of one size stand at multiples of it. */
  lemma {:induction false} RowAt(rows: seq<seq<Field>>, size: nat, i: nat)
    requires i < |rows| && forall r :: 0 <= r < |rows| ==> |Encode(rows[r])| == size
    ensures |EncodeRows(rows)| == size * |rows| && 0 <= size * i <= size * i + size <= |EncodeRows(rows)|
    ensures EncodeRows(rows)[size * i..size * i + size] == Encode(rows[i])
  {
    hide Encode, EncodeRows;
    RowsSize(rows, size);
    RowsSize(rows[..i], size);
    RowFrom(rows, i);
  }

  lemma {:induction false} RowsSize(rows: seq<seq<Field>>, size: nat)
    requires forall r :: 0 <= r < |rows| ==> |Encode(rows[r])| == size
    ensures |EncodeRows(rows)| == size * |rows|
  {
    hide Encode;
    if rows != [] {
      var n := |rows| - 1;
      assert forall r :: 0 <= r < n ==> rows[..n][r] == rows[r];
      RowsSize(rows[..n], size);
      OneRowMore(size, n);
    }
  }

  lemma {:induction false} OneRowMore(size: nat, n: nat)
    ensures size * (n + 1) == size * n + size
  {
  }

  /** What reading fields one by one reports when `room` bytes are not enough: a float that does not
      fit is an error, any other field the end of the file. */
  function Shortage(ks: seq<Kind>, room: nat): Status
    requires room < SizeOf(ks)
  {
    var n := |ks| - 1;
    if room < SizeOf(ks[..n]) then Shortage(ks[..n], room)
    else if IsFloat(ks[n]) then ERR else EOF
  }

  lemma {:induction false} ShortageAt(ks: seq<Kind>, i: nat, room: nat)
    requires i < |ks| && SizeOf(ks[..i]) <= room < SizeOf(ks[..i + 1])
    ensures room < SizeOf(ks)
    ensures Shortage(ks, room) == if ks[i] == F32 || ks[i] == F64 then ERR else EOF
  {
    var n := |ks| - 1;
    if i == n {
      assert ks[..i + 1] == ks;
    } else {
      assert ks[..n][..i] == ks[..i] && ks[..n][..i + 1] == ks[..i + 1];
      ShortageAt(ks[..n], i, room);
    }
  }

  method ReadField(dump: Dump, k: Kind) returns (status: Status, v: int)
    requires dump.Reading()
    modifies dump`pos, dump`eof
    ensures status == OK <==> old(dump.pos) + Size(k) <= |dump.file.bytes|
    ensures status == OK ==>
              dump.pos == old(dump.pos) + Size(k)
              && v == DecodeField(k, dump.file.bytes[old(dump.pos)..dump.pos])
    ensures status != OK ==> status == if IsFloat(k) then ERR else EOF
  {
    match k
    case U16 => status, v := dump.ReadUint16();
    case U64 => status, v := dump.ReadUint64();
    case F32 => status, v := dump.ReadFloat32();
    case F64 => status, v := dump.ReadFloat64();
    case _ =>
      var buf;
      status, buf := dump.Read(Size(k));
      v := if status == OK then DecodeField(k, buf) else 0;
  }

  /** The fields of a record, read one dump_read at a time until one fails. */
  method ReadFields(dump: Dump, ks: seq<Kind>) returns (status: Status, vs: seq<int>)
    requires dump.Reading()
    modifies dump`pos, dump`eof
    ensures old(dump.pos) + SizeOf(ks) <= |dump.file.bytes| ==>
              status == OK && dump.pos == old(dump.pos) + SizeOf(ks)
              && vs == Decode(ks, dump.file.bytes[old(dump.pos)..dump.pos])
    ensures old(dump.pos) <= |dump.file.bytes| < old(dump.pos) + SizeOf(ks) ==>
              status == Shortage(ks, |dump.file.bytes| - old(dump.pos))
  {
    hide Decode, DecodeField, Size, Shortage;
    vs := [];
    ghost var p := dump.pos;
    assert ks[..0] == [] && (p <= |dump.file.bytes| ==> dump.file.bytes[p..p] == []);
    DecodeNothing();
    for i := 0 to |ks|
      invariant dump.pos == p + SizeOf(ks[..i])
      invariant p <= |dump.file.bytes| ==> dump.pos <= |dump.file.bytes|
      invariant dump.pos <= |dump.file.bytes| ==> vs == Decode(ks[..i], dump.file.bytes[p..dump.pos])
    {
      var v;
      ghost var q := dump.pos;
      status, v := ReadField(dump, ks[i]);
      SizeGrows(ks, i);
      if status != OK {
        if p <= |dump.file.bytes| {
          ShortageAt(ks, i, |dump.file.bytes| - p);
        }
        SizeOfPrefix(ks, i + 1);
        return;
      }
      DecodeGrows(dump.file.bytes, p, q, ks, i);
      vs := vs + [v];
    }
    assert ks[..|ks|] == ks;
    status := OK;
  }

  lemma {:induction false} DecodeNothing()
    ensures Decode([], []) == []
  {
  }

  lemma {:induction false} SizeGrows(ks: seq<Kind>, i: nat)
    requires i < |ks|
    ensures SizeOf(ks[..i + 1]) == SizeOf(ks[..i]) + Size(ks[i])
  {
    assert ks[..i + 1][..i] == ks[..i];
  }

  lemma {:induction false} DecodeGrows(bytes: seq<Byte>, p: nat, q: nat, ks: seq<Kind>, i: nat)
    requires i < |ks| && q == p + SizeOf(ks[..i]) && q + Size(ks[i]) <= |bytes|
    ensures SizeOf(ks[..i + 1]) == SizeOf(ks[..i]) + Size(ks[i])
    ensures Decode(ks[..i + 1], bytes[p..q + Size(ks[i])])
            == Decode(ks[..i], bytes[p..q]) + [DecodeField(ks[i], bytes[q..q + Size(ks[i])])]
  {
    hide Decode, DecodeField, Size;
    SizeGrows(ks, i);
    assert ks[..i + 1][..i] == ks[..i] && ks[..i + 1][i] == ks[i];
    DecodeSplit(ks[..i + 1], bytes[p..q], bytes[q..q + Size(ks[i])]);
    assert bytes[p..q] + bytes[q..q + Size(ks[i])] == bytes[p..q + Size(ks[i])];
  }

  lemma {:induction false} SizeOfPrefix(ks: seq<Kind>, i: nat)
    requires i <= |ks|
    ensures SizeOf(ks[..i]) <= SizeOf(ks)
  {
    if i == |ks| {
      assert ks[..i] == ks;
    } else {
      var n := |ks| - 1;
      assert ks[..n][..i] == ks[..i];
      SizeOfPrefix(ks[..n], i);
    }
  }

  lemma {:induction false} FieldInRange(k: Kind, s: seq<Byte>)
    requires |s| == Size(k)
    ensures InRange(k, DecodeField(k, s))
  {
    Powers();
    BEofFromBE(s);
  }

  lemma {:induction false} DecodeAtInRange(ks: seq<Kind>, s: seq<Byte>, i: nat)
    requires |s| == SizeOf(ks) && i < |ks|
    ensures |Decode(ks, s)| == |ks| && InRange(ks[i], Decode(ks, s)[i])
  {
    hide Decode, DecodeField, InRange, Size, SizeOf;
    var n := |ks| - 1;
    var z := |s| - SizeOfLast(ks);
    assert s[..z] + s[z..] == s;
    DecodeSplit(ks, s[..z], s[z..]);
    if i < n {
      DecodeAtInRange(ks[..n], s[..z], i);
    } else {
      FieldInRange(ks[n], s[z..]);
    }
  }

  lemma {:induction false} DecodeInRange(ks: seq<Kind>, s: seq<Byte>)
    requires |s| == SizeOf(ks)
    ensures |Decode(ks, s)| == |ks|
    ensures forall i :: 0 <= i < |ks| ==> InRange(ks[i], Decode(ks, s)[i])
  {
    hide Decode, InRange, SizeOf;
    forall i | 0 <= i < |ks|
      ensures InRange(ks[i], Decode(ks, s)[i])
    {
      DecodeAtInRange(ks, s, i);
    }
  }

  function SizeOfLast(ks: seq<Kind>): (k: nat)
    requires ks != []
    ensures k == Size(ks[|ks| - 1]) && SizeOf(ks) == SizeOf(ks[..|ks| - 1]) + k
  {
    Size(ks[|ks| - 1])
  }
}

/** The checksum on 32-bit words, bit by bit, as the sample code in section 8 of RFC 1952 works it out
    for its table, and with it the check value by which this CRC-32 is known. */
module Crc32Words {
  import opened Ints
  import opened Bytes
  import opened Crc32

  function Byte0(w: bv32): bv8 { (w & 0xff) as bv8 }
  function Byte1(w: bv32): bv8 { ((w >> 8) & 0xff) as bv8 }
  function Byte2(w: bv32): bv8 { ((w >> 16) & 0xff) as bv8 }
  function Byte3(w: bv32): bv8 { ((w >> 24) & 0xff) as bv8 }

  function Join(low: bv8, high: nat): nat { low as nat + 256 * high }

  /** The number a word stands for. */
  function Num(w: bv32): uint32 {
    Join(Byte0(w), Join(Byte1(w), Join(Byte2(w), Byte3(w) as nat)))
  }

  function ShiftWord(c: bv32): bv32 { if c & 1 == 1 then 0xedb88320 ^ (c >> 1) else c >> 1 }

  function ShiftsWord(c: bv32, k: nat): bv32 { if k == 0 then c else ShiftWord(ShiftsWord(c, k - 1)) }

  /** The register after the first `n` bytes. */
  function FoldWord(c: bv32, s: seq<bv8>, n: nat): bv32
    requires n <= |s|
  {
    if n == 0 then c else ShiftsWord(FoldWord(c, s, n - 1) ^ (s[n - 1] as bv32), 8)
  }

  function CrcWord(s: seq<bv8>): bv32 { !FoldWord(0xffff_ffff, s, |s|) }

  function Numbers(s: seq<bv8>): seq<Byte> { seq(|s|, i requires 0 <= i < |s| => s[i] as int) }

  // ---------------------------------------------------------------- words and numbers

  lemma {:induction false} HalveByte(x: bv8)
    ensures x as nat == 2 * ((x >> 1) as nat) + (x & 1) as nat
  {
  }

  lemma {:induction false} CarryByte(x: bv8, y: bv8)
    ensures ((x >> 1) | ((y & 1) << 7)) as nat == (x >> 1) as nat + 128 * ((y & 1) as nat)
  {
  }

  lemma {:induction false} HalveJoin(x: bv8, y: bv8, h: nat, g: nat)
    requires h == 2 * g + (y & 1) as nat
    ensures Join(x, h) == 2 * Join((x >> 1) | ((y & 1) << 7), g) + (x & 1) as nat
  {
    HalveByte(x);
    CarryByte(x, y);
  }

  lemma {:induction false} ShiftedBytes(w: bv32)
    ensures Byte0(w >> 1) == (Byte0(w) >> 1) | ((Byte1(w) & 1) << 7)
    ensures Byte1(w >> 1) == (Byte1(w) >> 1) | ((Byte2(w) & 1) << 7)
    ensures Byte2(w >> 1) == (Byte2(w) >> 1) | ((Byte3(w) & 1) << 7)
    ensures Byte3(w >> 1) == Byte3(w) >> 1
    ensures Byte0(w) & 1 == 1 <==> w & 1 == 1
  {
  }

  lemma {:induction false} LowBit(x: bv8)
    ensures (x & 1) as nat == if x & 1 == 1 then 1 else 0
  {
  }

  lemma {:induction false} HalveWord(w: bv32)
    ensures Num(w) == 2 * Num(w >> 1) + if w & 1 == 1 then 1 else 0
  {
    hide Byte0, Byte1, Byte2, Byte3, Join;
    ShiftedBytes(w);
    var b0, b1, b2, b3 := Byte0(w), Byte1(w), Byte2(w), Byte3(w);
    HalveByte(b3);
    HalveJoin(b2, b3, b3 as nat, (b3 >> 1) as nat);
    var h2, g2 := Join(b2, b3 as nat), Join(Byte2(w >> 1), Byte3(w >> 1) as nat);
    HalveJoin(b1, b2, h2, g2);
    HalveJoin(b0, b1, Join(b1, h2), Join(Byte1(w >> 1), g2));
    LowBit(b0);
  }

  function Low(x: bv8): nat { if x & 1 == 1 then 1 else 0 }

  function HalfOf(x: bv8): bv8 { x >> 1 }

  function Both(x: bv8, y: bv8): bv8 { x ^ y }

  function Value(x: bv8): nat { x as nat }

  lemma {:induction false} Halved(x: bv8)
    ensures Value(x) == 2 * Value(HalfOf(x)) + Low(x) && Low(x) < 2
  {
    HalveByte(x);
    LowBit(x);
  }

  lemma {:induction false} BothHalved(x: bv8, y: bv8)
    ensures Both(HalfOf(x), HalfOf(y)) == HalfOf(Both(x, y))
    ensures Low(Both(x, y)) == Differ(Low(x), Low(y))
  {
  }

  lemma {:induction false} BothZero(x: bv8, y: bv8)
    requires Value(x) + Value(y) == 0
    ensures Xor(Value(x), Value(y)) == Value(Both(x, y))
  {
    XorZero(0);
  }

  lemma {:induction false} XorValues(x: bv8, y: bv8)
    ensures Xor(Value(x), Value(y)) == Value(Both(x, y))
    decreases Value(x) + Value(y)
  {
    hide Xor, Differ, Low, HalfOf, Both, Value;
    if Value(x) + Value(y) == 0 {
      BothZero(x, y);
    } else {
      Halved(x);
      Halved(y);
      Halved(Both(x, y));
      BothHalved(x, y);
      XorValues(HalfOf(x), HalfOf(y));
      XorBits(Value(HalfOf(x)), Value(HalfOf(y)), Low(x), Low(y));
    }
  }

  /** On a byte. */
  lemma {:induction false} XorByte(x: bv8, y: bv8)
    ensures Xor(x as nat, y as nat) == (x ^ y) as nat
  {
    hide Xor;
    XorValues(x, y);
  }

  /** Side by side, `k` bits of one above those of another. */
  lemma {:induction false} XorJoins(x: nat, y: nat, h: nat, g: nat, k: nat)
    requires x < Pow2(k) && y < Pow2(k)
    ensures Xor(x + Pow2(k) * h, y + Pow2(k) * g) == Xor(x, y) + Pow2(k) * Xor(h, g)
    decreases k
  {
    hide Xor;
    if k == 0 {
      XorZero(0);
    } else {
      var i, a := Halve(x);
      var j, b := Halve(y);
      PowerStep(k - 1, i, a);
      PowerStep(k - 1, j, b);
      DoublePower(k - 1, h);
      DoublePower(k - 1, g);
      DoublePower(k - 1, Xor(h, g));
      hide Pow2;
      XorJoins(i, j, h, g, k - 1);
      XorBits(i + Pow2(k - 1) * h, j + Pow2(k - 1) * g, a, b);
      XorBits(i, j, a, b);
    }
  }

  lemma {:induction false} XorJoin(x: bv8, y: bv8, h: nat, g: nat)
    ensures Xor(Join(x, h), Join(y, g)) == Join(x ^ y, Xor(h, g))
  {
    hide Xor, Pow2;
    EightPowers();
    XorByte(x, y);
    XorJoins(x as nat, y as nat, h, g, 8);
  }

  lemma {:induction false} XoredBytes(v: bv32, w: bv32)
    ensures Byte0(v ^ w) == Byte0(v) ^ Byte0(w) && Byte1(v ^ w) == Byte1(v) ^ Byte1(w)
    ensures Byte2(v ^ w) == Byte2(v) ^ Byte2(w) && Byte3(v ^ w) == Byte3(v) ^ Byte3(w)
  {
  }

  lemma {:induction false} XorWord(v: bv32, w: bv32)
    ensures Xor(Num(v), Num(w)) == Num(v ^ w)
  {
    hide Byte0, Byte1, Byte2, Byte3, Join, Xor;
    XoredBytes(v, w);
    XorByte(Byte3(v), Byte3(w));
    var v3, w3 := Byte3(v) as nat, Byte3(w) as nat;
    XorJoin(Byte2(v), Byte2(w), v3, w3);
    var v2, w2 := Join(Byte2(v), v3), Join(Byte2(w), w3);
    XorJoin(Byte1(v), Byte1(w), v2, w2);
    XorJoin(Byte0(v), Byte0(w), Join(Byte1(v), v2), Join(Byte1(w), w2));
  }

  // ---------------------------------------------------------------- the register

  lemma {:induction false} PolynomialWord()
    ensures Num(0xedb88320) == POLYNOMIAL && Num(0xffff_ffff) == 0xffff_ffff
  {
  }

  lemma {:induction false} ShiftIsStep(c: bv32)
    ensures Num(ShiftWord(c)) == Step(Num(c))
  {
    hide Num, Xor;
    HalveWord(c);
    PolynomialWord();
    XorWord(0xedb88320, c >> 1);
    Halves(Num(c >> 1), if c & 1 == 1 then 1 else 0);
  }

  lemma {:induction false} ShiftsAreStepsOf(c: bv32, k: nat)
    ensures Num(ShiftsWord(c, k)) == Steps(Num(c), k)
  {
    hide Num, Step, ShiftWord;
    if k > 0 {
      ShiftsAreStepsOf(c, k - 1);
      ShiftIsStep(ShiftsWord(c, k - 1));
    }
  }

  lemma {:induction false} ByteWord(b: bv8)
    ensures Num(b as bv32) == b as nat
  {
    var w := b as bv32;
    assert Byte0(w) == b && Byte1(w) == 0 && Byte2(w) == 0 && Byte3(w) == 0;
  }

  lemma {:induction false} NextIsUpdate(w: bv32, v: bv32)
    requires Num(v) < 256
    ensures Num(ShiftsWord(w ^ v, 8)) == Update(Num(w), Num(v))
  {
    hide Num, Update, ShiftsWord, Xor, Steps;
    XorWord(w, v);
    ShiftsAreStepsOf(w ^ v, 8);
    UpdateIsSteps(Num(w), Num(v));
  }

  lemma {:induction false} NextByte(c: bv32, s: seq<bv8>, n: nat)
    requires n < |s|
    ensures FoldWord(c, s, n + 1) == ShiftsWord(FoldWord(c, s, n) ^ (s[n] as bv32), 8)
    ensures Fold(Num(c), Numbers(s), n + 1) == Update(Fold(Num(c), Numbers(s), n), Numbers(s)[n])
    ensures Numbers(s)[n] == Num(s[n] as bv32) < 256
  {
    hide Update, ShiftsWord;
    ByteWord(s[n]);
    hide Num;
  }

  lemma {:induction false} FoldOneMoreWord(c: bv32, s: seq<bv8>, n: nat)
    requires n < |s| && Num(FoldWord(c, s, n)) == Fold(Num(c), Numbers(s), n)
    ensures Num(FoldWord(c, s, n + 1)) == Fold(Num(c), Numbers(s), n + 1)
  {
    hide Num, Numbers, Fold, FoldWord, Update, ShiftsWord;
    var v := s[n] as bv32;
    NextByte(c, s, n);
    NextIsUpdate(FoldWord(c, s, n), v);
  }

  /** The bits of the words are the register. */
  lemma {:induction false} FoldIsFold(c: bv32, s: seq<bv8>, n: nat)
    requires n <= |s|
    ensures Num(FoldWord(c, s, n)) == Fold(Num(c), Numbers(s), n)
  {
    hide Num, Update, ShiftsWord, Numbers;
    if n > 0 {
      hide Fold, FoldWord;
      FoldIsFold(c, s, n - 1);
      FoldOneMoreWord(c, s, n - 1);
    }
  }

  function Not(b: bv8): bv8 { !b }

  lemma {:induction false} FlippedBytes(w: bv32)
    ensures Byte0(!w) == Not(Byte0(w)) && Byte1(!w) == Not(Byte1(w))
    ensures Byte2(!w) == Not(Byte2(w)) && Byte3(!w) == Not(Byte3(w))
  {
  }

  lemma {:induction false} NumBytes(w: bv32)
    ensures Num(w) == Value(Byte0(w)) + 256 * (Value(Byte1(w)) + 256 * (Value(Byte2(w)) + 256 * Value(Byte3(w))))
  {
    hide Byte0, Byte1, Byte2, Byte3;
  }

  lemma {:induction false} FlipValue(b: bv8)
    ensures Value(Not(b)) == 255 - Value(b)
  {
    FlipByte(b);
  }

  lemma {:induction false} FlipWord(w: bv32)
    ensures Num(!w) == Flip(Num(w))
  {
    hide Byte0, Byte1, Byte2, Byte3, Num, Value, Not;
    FlippedBytes(w);
    NumBytes(w);
    NumBytes(!w);
    FlipValue(Byte0(w));
    FlipValue(Byte1(w));
    FlipValue(Byte2(w));
    FlipValue(Byte3(w));
  }

  lemma {:induction false} FlipByte(b: bv8)
    ensures (!b) as nat == 255 - b as nat
  {
  }

  /** For every message the words give the checksum. */
  lemma {:induction false} CrcIsWord(s: seq<bv8>)
    ensures Crc(0, Numbers(s)) == Num(CrcWord(s))
  {
    hide Num, Fold, FoldWord;
    PolynomialWord();
    FoldIsFold(0xffff_ffff, s, |s|);
    FlipWord(FoldWord(0xffff_ffff, s, |s|));
  }

  /** "123456789" */
  const DIGITS: seq<bv8> := [49, 50, 51, 52, 53, 54, 55, 56, 57]

  function Eight(c: bv32): bv32 {
    ShiftWord(ShiftWord(ShiftWord(ShiftWord(ShiftWord(ShiftWord(ShiftWord(ShiftWord(c))))))))
  }

  lemma {:induction false} EightShifts(c: bv32)
    ensures ShiftsWord(c, 8) == Eight(c)
  {
    hide ShiftWord;
    assert ShiftsWord(c, 1) == ShiftWord(c);
    assert ShiftsWord(c, 2) == ShiftWord(ShiftsWord(c, 1));
    assert ShiftsWord(c, 4) == ShiftWord(ShiftWord(ShiftsWord(c, 2)));
    assert ShiftsWord(c, 6) == ShiftWord(ShiftWord(ShiftsWord(c, 4)));
  }

  lemma {:induction false} NextDigit(before: bv32, n: nat)
    requires n < 9 && FoldWord(0xffff_ffff, DIGITS, n) == before
    ensures FoldWord(0xffff_ffff, DIGITS, n + 1) == Eight(before ^ (DIGITS[n] as bv32))
  {
    hide Eight;
    EightShifts(before ^ (DIGITS[n] as bv32));
  }

  lemma {:induction false} DigitRegisters()
    ensures Eight(0xffff_ffff ^ 49) == 0x7c23_1048 && Eight(0x7c23_1048 ^ 50) == 0xb0ac_bb32
    ensures Eight(0xb0ac_bb32 ^ 51) == 0x77b7_9c2d && Eight(0x77b7_9c2d ^ 52) == 0x641c_1f5c
    ensures Eight(0x641c_1f5c ^ 53) == 0x340a_c5e3 && Eight(0x340a_c5e3 ^ 54) == 0xf68d_2c9e
    ensures Eight(0xf68d_2c9e ^ 55) == 0xaffc_9660 && Eight(0xaffc_9660 ^ 56) == 0x651f_2550
    ensures Eight(0x651f_2550 ^ 57) == 0x340b_c6d9
  {
  }

  lemma {:induction false} DigitsFolded()
    ensures FoldWord(0xffff_ffff, DIGITS, 9) == 0x340b_c6d9
  {
    hide Eight, ShiftsWord;
    DigitRegisters();
    assert FoldWord(0xffff_ffff, DIGITS, 0) == 0xffff_ffff;
    hide FoldWord;
    NextDigit(0xffff_ffff, 0);
    NextDigit(0x7c23_1048, 1);
    NextDigit(0xb0ac_bb32, 2);
    NextDigit(0x77b7_9c2d, 3);
    NextDigit(0x641c_1f5c, 4);
    NextDigit(0x340a_c5e3, 5);
    NextDigit(0xf68d_2c9e, 6);
    NextDigit(0xaffc_9660, 7);
    NextDigit(0x651f_2550, 8);
  }

  /** The check value of CRC-32. */
  lemma {:induction false} CheckValue()
    ensures Crc(0, [49, 50, 51, 52, 53, 54, 55, 56, 57]) == 0xcbf4_3926
  {
    hide FoldWord, Crc;
    CrcIsWord(DIGITS);
    DigitsFolded();
    assert Numbers(DIGITS) == [49, 50, 51, 52, 53, 54, 55, 56, 57];
    assert Num(0xcbf4_3926) == 0xcbf4_3926;
  }
}

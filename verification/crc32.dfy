/** The CRC-32 of section 8 of RFC 1952, which zlib computes for both programs. */
module Crc32 {
  import opened Ints
  import opened Bytes

  function Pow2(n: nat): (p: nat)
    ensures p > 0
  {
    if n == 0 then 1 else 2 * Pow2(n - 1)
  }

  lemma {:induction false} Pow2of32()
    ensures Pow2(32) == 0x1_0000_0000
  {
    assert Pow2(8) == 256;
    assert Pow2(16) == 256 * Pow2(8);
    assert Pow2(24) == 256 * Pow2(16);
    assert Pow2(32) == 256 * Pow2(24);
  }

  /** Exclusive or, which is also addition of polynomials over two elements. */
  function Xor(a: nat, b: nat): nat {
    if a == 0 && b == 0 then 0 else 2 * Xor(a / 2, b / 2) + (a + b) % 2
  }

  lemma {:induction false} XorBelow(a: nat, b: nat, n: nat)
    requires a < Pow2(n) && b < Pow2(n)
    ensures Xor(a, b) < Pow2(n)
    decreases n
  {
    if n > 0 {
      XorBelow(a / 2, b / 2, n - 1);
    }
  }

  function Xor32(a: uint32, b: uint32): uint32 {
    Pow2of32();
    XorBelow(a, b, 32);
    Xor(a, b)
  }

  /** The generator polynomial in the reflected bit order, without its lowest term. */
  const POLYNOMIAL: uint32 := 0xedb88320

  /** `k` steps of the division by the generator; eight give an entry of the RFC's table. */
  function Shifts(c: uint32, k: nat): uint32 {
    if k == 0 then c
    else
      var s := Shifts(c, k - 1);
      if s % 2 == 1 then Xor32(POLYNOMIAL, s / 2) else s / 2
  }

  function Update(c: uint32, b: Byte): uint32 {
    Xor32(Shifts(Xor32(c, b) % 256, 8), c / 256)
  }

  /** The register after the first `n` bytes. */
  function Fold(c: uint32, s: seq<Byte>, n: nat): uint32
    requires n <= |s|
  {
    if n == 0 then c else Update(Fold(c, s, n - 1), s[n - 1])
  }

  /** Ones' complement, applied before and after the bytes. */
  function Flip(c: uint32): uint32 { 0xffff_ffff - c }

  /** crc32_z(crc, s): continue a finished checksum with more bytes. */
  function Crc(crc: uint32, s: seq<Byte>): uint32 {
    Flip(Fold(Flip(crc), s, |s|))
  }

  lemma {:induction false} FoldPrefix(c: uint32, a: seq<Byte>, b: seq<Byte>, n: nat)
    requires n <= |a|
    ensures Fold(c, a + b, n) == Fold(c, a, n)
  {
    hide Update;
    if n > 0 {
      FoldPrefix(c, a, b, n - 1);
    }
  }

  lemma {:induction false} FoldRest(c: uint32, a: seq<Byte>, b: seq<Byte>, n: nat)
    requires n <= |b|
    ensures Fold(c, a + b, |a| + n) == Fold(Fold(c, a, |a|), b, n)
  {
    hide Update;
    if n == 0 {
      FoldPrefix(c, a, b, |a|);
    } else {
      FoldRest(c, a, b, n - 1);
      assert (a + b)[|a| + n - 1] == b[n - 1];
    }
  }

  /** Folding a body in write by write gives the checksum of the whole body. */
  lemma {:induction false} Streaming(crc: uint32, a: seq<Byte>, b: seq<Byte>)
    ensures Crc(Crc(crc, a), b) == Crc(crc, a + b)
    ensures Crc(crc, []) == crc
  {
    hide Update;
    FoldRest(Flip(crc), a, b, |b|);
  }

  // ---------------------------------------------------------------- the table is a division

  function Differ(x: nat, y: nat): nat { if x == y then 0 else 1 }

  lemma {:induction false} Halve(a: nat) returns (h: nat, x: nat)
    ensures a == 2 * h + x && x < 2
  {
    h, x := a / 2, a % 2;
  }

  lemma {:induction false} Halves(h: nat, x: nat)
    requires x < 2
    ensures (2 * h + x) / 2 == h && (2 * h + x) % 2 == x
  {
  }

  lemma {:induction false} XorBits(a: nat, b: nat, x: nat, y: nat)
    requires x < 2 && y < 2
    ensures Xor(2 * a + x, 2 * b + y) == 2 * Xor(a, b) + Differ(x, y)
  {
    Halves(a, x);
    Halves(b, y);
    assert (2 * a + x + (2 * b + y)) % 2 == Differ(x, y);
  }

  lemma {:induction false} XorZero(a: nat)
    ensures Xor(a, 0) == a
  {
    if a > 0 {
      var h, x := Halve(a);
      XorZero(h);
      XorBits(h, 0, x, 0);
    }
  }

  lemma {:induction false} XorAssociates(a: nat, b: nat, c: nat)
    ensures Xor(Xor(a, b), c) == Xor(a, Xor(b, c))
    decreases a + b + c
  {
    if a > 0 || b > 0 || c > 0 {
      hide Xor;
      var h, x := Halve(a);
      var i, y := Halve(b);
      var j, z := Halve(c);
      XorAssociates(h, i, j);
      AssociateBits(h, i, j, x, y, z);
    }
  }

  lemma {:induction false} AssociateBits(h: nat, i: nat, j: nat, x: nat, y: nat, z: nat)
    requires x < 2 && y < 2 && z < 2 && Xor(Xor(h, i), j) == Xor(h, Xor(i, j))
    ensures Xor(Xor(2 * h + x, 2 * i + y), 2 * j + z) == Xor(2 * h + x, Xor(2 * i + y, 2 * j + z))
  {
    hide Xor;
    XorBits(h, i, x, y);
    XorBits(i, j, y, z);
    XorBits(Xor(h, i), j, Differ(x, y), z);
    XorBits(h, Xor(i, j), x, Differ(y, z));
    assert Differ(Differ(x, y), z) == Differ(x, Differ(y, z));
  }

  lemma {:induction false} XorSelf(a: nat)
    ensures Xor(a, a) == 0
  {
    if a > 0 {
      var h, x := Halve(a);
      XorSelf(h);
      XorBits(h, h, x, x);
    }
  }

  lemma {:induction false} XorTwice(a: nat, b: nat)
    ensures Xor(Xor(a, b), b) == a
  {
    hide Xor;
    XorAssociates(a, b, b);
    XorSelf(b);
    XorZero(a);
  }

  lemma {:induction false} XorCommutes(a: nat, b: nat)
    ensures Xor(a, b) == Xor(b, a)
    decreases a + b
  {
    if a > 0 || b > 0 {
      hide Xor;
      var h, x := Halve(a);
      var i, y := Halve(b);
      XorCommutes(h, i);
      XorBits(h, i, x, y);
      XorBits(i, h, y, x);
    }
  }

  const GENERATOR: nat := 2 * POLYNOMIAL + 1

  /** The product of the generator and the polynomial `q`. */
  function Times(q: nat): nat {
    if q == 0 then 0 else Xor(2 * Times(q / 2), if q % 2 == 1 then GENERATOR else 0)
  }

  function Half(x: nat): nat { if x == 1 then POLYNOMIAL else 0 }

  lemma {:induction false} TimesBits(h: nat, x: nat)
    requires x < 2
    ensures Times(2 * h + x) == 2 * Xor(Times(h), Half(x)) + x
  {
    hide Xor;
    Halves(h, x);
    XorBits(Times(h), Half(x), 0, x);
    if h == 0 && x == 0 {
      XorZero(0);
    }
  }

  /** One step of the division, on polynomials of any length. */
  function Step(c: nat): nat { if c % 2 == 1 then Xor(POLYNOMIAL, c / 2) else c / 2 }

  function Steps(c: nat, k: nat): nat { if k == 0 then c else Step(Steps(c, k - 1)) }

  lemma {:induction false} ShiftsAreSteps(c: uint32, k: nat)
    ensures Shifts(c, k) == Steps(c, k)
  {
    hide Xor;
    if k > 0 {
      ShiftsAreSteps(c, k - 1);
    }
  }

  lemma {:induction false} StepBits(h: nat, x: nat)
    requires x < 2
    ensures Step(2 * h + x) == Xor(h, Half(x))
  {
    hide Xor;
    Halves(h, x);
    XorCommutes(POLYNOMIAL, h);
    XorZero(h);
  }

  lemma {:induction false} OneStep(c: nat, h: nat, x: nat)
    requires c == 2 * h + x && x < 2
    ensures h == Xor(Step(c), Half(x))
  {
    hide Xor, Step, Half;
    StepBits(h, x);
    XorTwice(h, Half(x));
  }

  lemma {:induction false} StepsAdd(c: nat, i: nat, j: nat)
    ensures Steps(Steps(c, i), j) == Steps(c, i + j)
  {
    hide Step;
    if j > 0 {
      StepsAdd(c, i, j - 1);
    }
  }

  lemma {:induction false} StepsAfterOne(c: nat, k: nat)
    ensures Steps(Step(c), k) == Steps(c, k + 1)
  {
    hide Step;
    assert Steps(c, 0) == c && Steps(c, 1) == Step(Steps(c, 0));
    StepsAdd(c, 1, k);
  }

  /** `r` x^k plus the product of the generator and `q`. */
  function Composed(k: nat, r: nat, q: nat): nat { Xor(Pow2(k) * r, Times(q)) }

  lemma {:induction false} ComposedBits(k: nat, r: nat, q: nat, x: nat)
    requires x < 2
    ensures Composed(k + 1, r, 2 * q + x) == 2 * Xor(Composed(k, r, q), Half(x)) + x
  {
    var a, t := Pow2(k) * r, Times(q);
    DoublePower(k, r);
    hide Xor, Times, Pow2, Half;
    TimesBits(q, x);
    XorBits(a, Xor(t, Half(x)), 0, x);
    XorAssociates(a, t, Half(x));
  }

  lemma {:induction false} DoublePower(k: nat, r: nat)
    ensures Pow2(k + 1) * r == 2 * (Pow2(k) * r)
  {
  }

  lemma {:induction false} ComposedNone(r: nat)
    ensures Composed(0, r, 0) == r
  {
    XorZero(r);
  }

  lemma {:induction false} PowerStep(k: nat, q: nat, x: nat)
    requires x < 2
    ensures 2 * q + x < Pow2(k + 1) <==> q < Pow2(k)
  {
  }

  lemma {:induction false} Quotient(c: nat, k: nat) returns (q: nat)
    ensures q < Pow2(k) && c == Composed(k, Steps(c, k), q)
    decreases k
  {
    hide Step, Steps, Composed, Half, Pow2, Xor;
    if k == 0 {
      q := QuotientNone(c);
    } else {
      var h, x := Halve(c);
      var j: nat := k - 1;
      var q1 := Quotient(Step(c), j);
      q := 2 * q1 + x;
      PowerStep(j, q1, x);
      StepsAfterOne(c, j);
      QuotientStep(c, h, x, j, q1);
    }
  }

  lemma {:induction false} QuotientNone(c: nat) returns (q: nat)
    ensures q < Pow2(0) && c == Composed(0, Steps(c, 0), q)
  {
    q := 0;
    ComposedNone(c);
  }

  lemma {:induction false} QuotientStep(c: nat, h: nat, x: nat, k: nat, q: nat)
    requires c == 2 * h + x && x < 2 && Step(c) == Composed(k, Steps(c, k + 1), q)
    ensures c == Composed(k + 1, Steps(c, k + 1), 2 * q + x)
  {
    hide Step, Steps, Composed, Half, Pow2, Xor;
    OneStep(c, h, x);
    ComposedBits(k, Steps(c, k + 1), q, x);
  }

  lemma {:induction false} QuotientIsUnique(k: nat, r: nat, q: nat, r': nat, q': nat)
    requires q < Pow2(k) && q' < Pow2(k) && Composed(k, r, q) == Composed(k, r', q')
    ensures r == r' && q == q'
    decreases k
  {
    if k == 0 {
      hide Composed;
      ComposedNone(r);
      ComposedNone(r');
    } else {
      hide Composed, Half, Pow2, Xor;
      var h, x := Halve(q);
      var h', x' := Halve(q');
      PowerStep(k - 1, h, x);
      PowerStep(k - 1, h', x');
      ComposedBits(k - 1, r, h, x);
      ComposedBits(k - 1, r', h', x');
      Parity(Xor(Composed(k - 1, r, h), Half(x)), x, Xor(Composed(k - 1, r', h'), Half(x')), x');
      XorTwice(Composed(k - 1, r, h), Half(x));
      XorTwice(Composed(k - 1, r', h'), Half(x'));
      QuotientIsUnique(k - 1, r, h, r', h');
    }
  }

  lemma {:induction false} Parity(a: nat, x: nat, b: nat, y: nat)
    requires x < 2 && y < 2 && 2 * a + x == 2 * b + y
    ensures a == b && x == y
  {
  }

  /** Division with remainder by the generator polynomial: `k` steps leave the one remainder `r` for
      which `c` is r x^k plus a multiple of the generator by a polynomial of `k` terms. */
  lemma {:induction false} RemainderExactly(c: nat, k: nat, r: nat)
    ensures r == Steps(c, k) <==> exists q: nat :: q < Pow2(k) && c == Composed(k, r, q)
  {
    hide Steps, Composed;
    var q0 := Quotient(c, k);
    if q: nat :| q < Pow2(k) && c == Composed(k, r, q) {
      QuotientIsUnique(k, r, q, Steps(c, k), q0);
    }
  }

  /** Every entry of the RFC's table is the remainder of its byte. */
  lemma {:induction false} TableIsRemainder(b: Byte, r: nat)
    ensures r == Shifts(b, 8) <==> exists q: nat :: q < Pow2(8) && b == Composed(8, r, q)
  {
    hide Shifts, Steps, Composed, Pow2;
    ShiftsAreSteps(b, 8);
    RemainderExactly(b, 8, r);
  }

  // ---------------------------------------------------------------- the checksum of a whole message

  /** Terms that the steps have not reached pass through them. */
  lemma {:induction false} StepHigh(y: nat, a: nat)
    ensures Step(Xor(y, 2 * a)) == Xor(Step(y), a)
  {
    hide Xor, Step, Half;
    var h, x := Halve(y);
    XorBits(h, a, x, 0);
    StepBits(h, x);
    StepBits(Xor(h, a), x);
    XorAssociates(h, a, Half(x));
    XorCommutes(a, Half(x));
    XorAssociates(h, Half(x), a);
  }

  lemma {:induction false} StepsHigh(y: nat, b: nat, k: nat)
    ensures Steps(Xor(y, Pow2(k) * b), k) == Xor(Steps(y, k), b)
    decreases k
  {
    if k == 0 {
    } else {
      hide Xor, Step, Steps;
      var a := Pow2(k - 1) * b;
      DoublePower(k - 1, b);
      hide Pow2;
      StepHigh(y, a);
      StepsHigh(Step(y), b, k - 1);
      StepsAfterOne(Xor(y, 2 * a), k - 1);
      StepsAfterOne(y, k - 1);
    }
  }

  /** Adding terms below and above is putting them side by side. */
  lemma {:induction false} LowHigh(a: nat, h: nat, k: nat)
    requires a < Pow2(k)
    ensures Xor(a, Pow2(k) * h) == a + Pow2(k) * h
    decreases k
  {
    if k == 0 {
      XorCommutes(0, h);
      XorZero(h);
    } else {
      hide Xor;
      var i, x := Halve(a);
      PowerStep(k - 1, i, x);
      DoublePower(k - 1, h);
      hide Pow2;
      LowHigh(i, h, k - 1);
      XorBits(i, Pow2(k - 1) * h, x, 0);
    }
  }

  lemma {:induction false} EightPowers()
    ensures Pow2(8) == 256
  {
  }

  lemma {:induction false} Split256(c: nat) returns (low: nat, high: nat)
    ensures c == low + 256 * high && low < 256 && c % 256 == low && c / 256 == high
  {
    low, high := c % 256, c / 256;
  }

  lemma {:induction false} Joined256(low: nat, high: nat)
    requires low < 256
    ensures (low + 256 * high) % 256 == low && (low + 256 * high) / 256 == high
  {
  }

  /** Taking in a byte is adding it to the register and making eight steps. */
  lemma {:induction false} UpdateIsSteps(c: uint32, b: Byte)
    ensures Update(c, b) == Steps(Xor(c, b), 8)
  {
    hide Xor, Steps, Step, Shifts, Pow2;
    EightPowers();
    var low, high := Split256(c);
    var z := Xor(low, b);
    XorBelow(low, b, 8);
    LowHigh(low, high, 8);
    LowHigh(z, high, 8);
    XorAssociates(low, 256 * high, b);
    XorCommutes(256 * high, b);
    XorAssociates(low, b, 256 * high);
    Joined256(z, high);
    StepsHigh(z, high, 8);
    ShiftsAreSteps(z, 8);
  }

  /** The first `n` bytes as a polynomial, the first byte highest in the reflected order. */
  function Poly(s: seq<Byte>, n: nat): nat
    requires n <= |s|
  {
    if n == 0 then 0 else Xor(Poly(s, n - 1), Pow2(8 * (n - 1)) * s[n - 1])
  }

  lemma {:induction false} FoldNothing(c: uint32, s: seq<Byte>)
    ensures Fold(c, s, 0) == Steps(Xor(c, Poly(s, 0)), 0)
  {
    hide Xor;
    XorZero(c);
  }

  lemma {:induction false} FoldIsSteps(c: uint32, s: seq<Byte>, n: nat)
    requires n <= |s|
    ensures Fold(c, s, n) == Steps(Xor(c, Poly(s, n)), 8 * n)
    decreases n
  {
    if n == 0 {
      FoldNothing(c, s);
    } else {
      hide Xor, Step, Steps, Update, Pow2;
      FoldIsSteps(c, s, n - 1);
      FoldOneMore(c, Poly(s, n - 1), Fold(c, s, n - 1), s[n - 1], n - 1);
    }
  }

  lemma {:induction false} FoldOneMore(c: uint32, p: nat, folded: uint32, b: Byte, n: nat)
    requires folded == Steps(Xor(c, p), 8 * n)
    ensures Update(folded, b) == Steps(Xor(c, Xor(p, Pow2(8 * n) * b)), 8 * (n + 1))
  {
    hide Xor, Step, Steps, Update, Pow2;
    UpdateIsSteps(folded, b);
    var high := Pow2(8 * n) * b;
    StepsHigh(Xor(c, p), b, 8 * n);
    XorAssociates(c, p, high);
    StepsAdd(Xor(Xor(c, p), high), 8 * n, 8);
  }

  /** The checksum of a message, and of a message that continues one, is its remainder: the complement
      of the checksum is the one polynomial `r` for which the complemented start plus the message is
      r x^(8n) plus a multiple of the generator by a polynomial of 8n terms. */
  lemma {:induction false} CrcIsRemainder(crc: uint32, s: seq<Byte>, r: uint32)
    ensures Crc(crc, s) == Flip(r) <==>
            exists q: nat :: q < Pow2(8 * |s|) && Xor(Flip(crc), Poly(s, |s|)) == Composed(8 * |s|, r, q)
  {
    hide Fold, Steps, Composed, Pow2, Poly, Xor;
    FoldIsSteps(Flip(crc), s, |s|);
    RemainderExactly(Xor(Flip(crc), Poly(s, |s|)), 8 * |s|, r);
  }
}

/** Big-endian integers in byte sequences. */
module Bytes {
  import opened Ints

  type Byte = uint8

  function Pow256(k: nat): nat { if k == 0 then 1 else 256 * Pow256(k - 1) }

  /** The low `k` bytes of `n`, most significant first. */
  function BE(n: nat, k: nat): (s: seq<Byte>)
    ensures |s| == k
  {
    if k == 0 then [] else BE(n / 256, k - 1) + [n % 256]
  }

  function FromBE(s: seq<Byte>): nat {
    if s == [] then 0 else 256 * FromBE(s[..|s| - 1]) + s[|s| - 1]
  }

  lemma {:induction false} FromBEofBE(n: nat, k: nat)
    requires n < Pow256(k)
    ensures FromBE(BE(n, k)) == n
  {
    if k > 0 {
      FromBEofBE(n / 256, k - 1);
      assert BE(n, k)[..k - 1] == BE(n / 256, k - 1);
    }
  }

  lemma {:induction false} BEofFromBE(s: seq<Byte>)
    ensures FromBE(s) < Pow256(|s|)
    ensures BE(FromBE(s), |s|) == s
  {
    if s != [] {
      BEofFromBE(s[..|s| - 1]);
      assert FromBE(s) / 256 == FromBE(s[..|s| - 1]) && FromBE(s) % 256 == s[|s| - 1];
    }
  }

  lemma {:induction false} Powers()
    ensures Pow256(0) == 1 && Pow256(1) == 0x100 && Pow256(2) == 0x1_0000 && Pow256(3) == 0x100_0000
    ensures Pow256(4) == 0x1_0000_0000 && Pow256(5) == 0x100_0000_0000 && Pow256(6) == 0x1_0000_0000_0000
    ensures Pow256(7) == 0x100_0000_0000_0000 && Pow256(8) == 0x1_0000_0000_0000_0000
  {
    assert Pow256(2) == 256 * Pow256(1);
    assert Pow256(3) == 256 * Pow256(2);
    assert Pow256(4) == 256 * Pow256(3);
    assert Pow256(5) == 256 * Pow256(4);
    assert Pow256(6) == 256 * Pow256(5);
    assert Pow256(7) == 256 * Pow256(6);
    assert Pow256(8) == 256 * Pow256(7);
  }

  lemma {:induction false} Product(d: nat, a: nat, b: nat)
    requires a < b
    ensures d * a + d <= d * b
  {
    var k: nat := b - a - 1;
    assert d * (a + 1 + k) == d * a + d + d * k;
  }

  lemma {:induction false} QuotientUnique(n: nat, d: nat, q: nat)
    requires d > 0 && d * q <= n < d * q + d
    ensures n / d == q
  {
    var k, r := n / d, n % d;
    assert n == d * k + r;
    if k < q {
      Product(d, k, q);
    } else if q < k {
      Product(d, q, k);
    }
  }

  lemma {:induction false} DivideTwice(n: nat, p: nat)
    requires p > 0
    ensures n / 256 / p == n / (256 * p)
  {
    var m := n / 256;
    var q := m / p;
    assert m == p * q + m % p;
    assert 256 * p * q == 256 * (p * q);
    QuotientUnique(n, 256 * p, q);
  }

  /** Byte `i` of the encoding is the value shifted down, as the C serialisers write it. */
  lemma {:induction false} ByteAt(n: nat, k: nat, i: nat)
    requires i < k
    ensures Pow256(k - 1 - i) > 0 && BE(n, k)[i] == n / Pow256(k - 1 - i) % 256
  {
    if i < k - 1 {
      ByteAt(n / 256, k - 1, i);
      DivideTwice(n, Pow256(k - 2 - i));
      assert BE(n, k)[i] == BE(n / 256, k - 1)[i];
    }
  }

  lemma {:induction false} Shifts8(n: uint8)
    ensures [n] == BE(n, 1)
  {
    Powers();
    ByteAt(n, 1, 0);
  }

  lemma {:induction false} Shifts16(n: uint16)
    ensures [n / 0x100 % 0x100, n % 0x100] == BE(n, 2)
  {
    Powers();
    ByteAt(n, 2, 0);
    ByteAt(n, 2, 1);
  }

  lemma {:induction false} Shifts32(n: uint32)
    ensures [n / 0x100_0000 % 0x100, n / 0x1_0000 % 0x100, n / 0x100 % 0x100, n % 0x100] == BE(n, 4)
  {
    Powers();
    ByteAt(n, 4, 0);
    ByteAt(n, 4, 1);
    ByteAt(n, 4, 2);
    ByteAt(n, 4, 3);
  }

  lemma {:induction false} Shifts64(n: uint64)
    ensures [n / 0x100_0000_0000_0000 % 0x100, n / 0x1_0000_0000_0000 % 0x100,
             n / 0x100_0000_0000 % 0x100, n / 0x1_0000_0000 % 0x100,
             n / 0x100_0000 % 0x100, n / 0x1_0000 % 0x100, n / 0x100 % 0x100, n % 0x100] == BE(n, 8)
  {
    Powers();
    ByteAt(n, 8, 0);
    ByteAt(n, 8, 1);
    ByteAt(n, 8, 2);
    ByteAt(n, 8, 3);
    ByteAt(n, 8, 4);
    ByteAt(n, 8, 5);
    ByteAt(n, 8, 6);
    ByteAt(n, 8, 7);
  }

  lemma {:induction false} Shifted16(b: seq<Byte>)
    requires |b| == 2
    ensures FromBE(b) == b[0] as int * 0x100 + b[1] as int
  {
    assert FromBE(b[..1]) == b[0] by { assert b[..1][..0] == []; }
    assert FromBE(b) == 256 * FromBE(b[..1]) + b[1];
  }

  lemma {:induction false} Shifted32(b: seq<Byte>)
    requires |b| == 4
    ensures FromBE(b) == b[0] as int * 0x100_0000 + b[1] as int * 0x1_0000 + b[2] as int * 0x100 + b[3] as int
  {
    assert FromBE(b[..1]) == b[0] by { assert b[..1][..0] == []; }
    assert FromBE(b[..2]) == 256 * FromBE(b[..1]) + b[1] by { assert b[..2][..1] == b[..1]; }
    assert FromBE(b[..3]) == 256 * FromBE(b[..2]) + b[2] by { assert b[..3][..2] == b[..2]; }
    assert FromBE(b) == 256 * FromBE(b[..3]) + b[3];
  }

  /** The sum of shifted bytes that the C readers spell out. */
  lemma {:induction false} Shifted64(b: seq<Byte>)
    requires |b| == 8
    ensures FromBE(b) == b[0] as int * 0x100_0000_0000_0000 + b[1] as int * 0x1_0000_0000_0000
                       + b[2] as int * 0x100_0000_0000 + b[3] as int * 0x1_0000_0000
                       + b[4] as int * 0x100_0000 + b[5] as int * 0x1_0000 + b[6] as int * 0x100 + b[7] as int
  {
    assert FromBE(b[..1]) == b[0] by { assert b[..1][..0] == []; }
    assert FromBE(b[..2]) == 256 * FromBE(b[..1]) + b[1] by { assert b[..2][..1] == b[..1]; }
    assert FromBE(b[..3]) == 256 * FromBE(b[..2]) + b[2] by { assert b[..3][..2] == b[..2]; }
    assert FromBE(b[..4]) == 256 * FromBE(b[..3]) + b[3] by { assert b[..4][..3] == b[..3]; }
    assert FromBE(b[..5]) == 256 * FromBE(b[..4]) + b[4] by { assert b[..5][..4] == b[..4]; }
    assert FromBE(b[..6]) == 256 * FromBE(b[..5]) + b[5] by { assert b[..6][..5] == b[..5]; }
    assert FromBE(b[..7]) == 256 * FromBE(b[..6]) + b[6] by { assert b[..7][..6] == b[..6]; }
    assert FromBE(b) == 256 * FromBE(b[..7]) + b[7];
  }
}

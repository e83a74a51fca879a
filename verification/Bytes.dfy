/** Bytes, big-endian numbers and byte-wise exclusive or, shared by the wire codecs. */
module Bytes {
  type byte = x: int | 0 <= x < 256

  /** The number a byte string spells, most significant byte first. */
  function BigEndian(s: seq<byte>): (v: nat) {
    if s == [] then 0 else BigEndian(s[..|s| - 1]) * 256 + s[|s| - 1]
  }

  lemma BigEndianSnoc(s: seq<byte>, x: byte)
    ensures BigEndian(s + [x]) == BigEndian(s) * 256 + x
  {
    assert (s + [x])[..|s|] == s;
  }

  lemma BigEndianOne(x: byte)
    ensures BigEndian([x]) == x
  {
    BigEndianSnoc([], x);
  }

  /** 256 to the power k. */
  function Pow256(k: nat): (p: nat)
    ensures p >= 1
  {
    if k == 0 then 1 else 256 * Pow256(k - 1)
  }

  lemma {:induction false} PowMonotone(i: nat, j: nat)
    requires i <= j
    ensures Pow256(i) <= Pow256(j)
    decreases j
  {
    if i < j {
      PowMonotone(i, j - 1);
    }
  }

  /** The k low-order bytes of v, most significant first; what `byte(v >> 8*i)` yields for i from k - 1 down to 0. */
  function ToBytes(v: nat, k: nat): (s: seq<byte>)
    ensures |s| == k
  {
    if k == 0 then [] else ToBytes(v / 256, k - 1) + [v % 256]
  }

  lemma {:induction false} BigEndianBound(s: seq<byte>)
    ensures BigEndian(s) < Pow256(|s|)
  {
    if s != [] {
      BigEndianBound(s[..|s| - 1]);
    }
  }

  lemma MulMonotone(a: nat, b: nat, p: nat, q: nat)
    requires a <= b && p <= q
    ensures a * p <= b * q
  {
    assert b * q - a * p == b * (q - p) + (b - a) * p;
  }

  /** Printing the k low-order bytes of a number and reading them behind a leading part keeps both. */
  lemma {:induction false} BigEndianOfBytes(lead: byte, v: nat, k: nat)
    ensures BigEndian([lead] + ToBytes(v, k)) == lead * Pow256(k) + v % Pow256(k)
  {
    hide BigEndian;
    if k == 0 {
      BigEndianOne(lead);
      assert [lead] + ToBytes(v, 0) == [lead];
    } else {
      assert [lead] + ToBytes(v, k) == ([lead] + ToBytes(v / 256, k - 1)) + [v % 256];
      BigEndianSnoc([lead] + ToBytes(v / 256, k - 1), v % 256);
      BigEndianOfBytes(lead, v / 256, k - 1);
      ModByParts(v, Pow256(k - 1));
      assert lead * Pow256(k - 1) * 256 == lead * (256 * Pow256(k - 1));
    }
  }

  lemma {:induction false} BigEndianToBytes(v: nat, k: nat)
    ensures BigEndian(ToBytes(v, k)) == v % Pow256(k)
  {
    if k > 0 {
      BigEndianSnoc(ToBytes(v / 256, k - 1), v % 256);
      BigEndianToBytes(v / 256, k - 1);
      ModByParts(v, Pow256(k - 1));
    }
  }

  lemma ModByParts(v: nat, p: nat)
    requires p > 0
    ensures (v / 256) % p * 256 + v % 256 == v % (256 * p)
  {
    var q := v / 256 / p;
    var r := (v / 256) % p * 256 + v % 256;
    assert v / 256 == q * p + (v / 256) % p;
    assert v == q * (256 * p) + r;
    assert 0 <= r < 256 * p;
    ModUnique(v, 256 * p, q, r);
  }

  lemma ModUnique(v: nat, m: nat, q: nat, r: nat)
    requires m > 0 && v == q * m + r && r < m
    ensures v % m == r
  {
    var d: int := v / m - q;
    assert v / m * m + v % m == v;
    assert d * m == r - v % m;
    assert d >= 1 ==> d * m >= m;
    assert d <= -1 ==> d * m + m <= 0;
  }

  /** The n low-order bits of the exclusive or of two numbers. */
  function XorBits(a: nat, b: nat, n: nat): (r: nat) {
    if n == 0 then 0
    else (if a % 2 == b % 2 then 0 else 1) + 2 * XorBits(a / 2, b / 2, n - 1)
  }

  function Pow2(n: nat): (p: nat)
    ensures p > 0
  {
    if n == 0 then 1 else 2 * Pow2(n - 1)
  }

  lemma {:induction false} XorBitsBound(a: nat, b: nat, n: nat)
    ensures XorBits(a, b, n) < Pow2(n)
  {
    if n > 0 {
      XorBitsBound(a / 2, b / 2, n - 1);
    }
  }

  lemma {:induction false} XorBitsTwice(a: nat, b: nat, n: nat)
    requires a < Pow2(n)
    ensures XorBits(XorBits(a, b, n), b, n) == a
  {
    if n > 0 {
      assert XorBits(a, b, n) / 2 == XorBits(a / 2, b / 2, n - 1);
      XorBitsTwice(a / 2, b / 2, n - 1);
    }
  }

  lemma {:induction false} XorBitsZero(a: nat, n: nat)
    requires a < Pow2(n)
    ensures XorBits(a, 0, n) == a
  {
    if n > 0 {
      XorBitsZero(a / 2, n - 1);
    }
  }

  /** Go's `^` on two bytes. */
  function Xor(a: byte, b: byte): (r: byte) {
    XorBitsBound(a, b, 8);
    assert Pow2(4) == 16;
    XorBits(a, b, 8)
  }

  lemma XorTwice(a: byte, b: byte)
    ensures Xor(Xor(a, b), b) == a
  {
    assert Pow2(4) == 16;
    XorBitsTwice(a, b, 8);
  }

  /** Bits above a mask of k bits are unchanged. */
  lemma {:induction false} XorBitsHigh(a: nat, m: nat, n: nat, k: nat)
    requires k <= n && a < Pow2(n) && m < Pow2(k)
    ensures Halve(XorBits(a, m, n), k) == Halve(a, k)
  {
    if k == 0 {
      XorBitsZero(a, n);
    } else {
      assert XorBits(a, m, n) / 2 == XorBits(a / 2, m / 2, n - 1);
      XorBitsHigh(a / 2, m / 2, n - 1, k - 1);
    }
  }

  /** Go's `a >> k`. */
  function Halve(a: nat, k: nat): (r: nat) {
    if k == 0 then a else Halve(a / 2, k - 1)
  }

  /** A mask confined to the low four bits leaves the high four as they were. */
  lemma XorLowNibble(a: byte, m: byte)
    requires m < 16
    ensures Xor(a, m) / 16 == a / 16
  {
    assert Pow2(4) == 16;
    XorBitsHigh(a, m, 8, 4);
    HalveFour(a);
    HalveFour(Xor(a, m));
  }

  lemma HalveFour(a: nat)
    ensures Halve(a, 4) == a / 16
  {
    assert Halve(a, 4) == Halve(a / 2, 3) == Halve(a / 4, 2) == Halve(a / 8, 1);
  }
}

/** What removing the protection of an Initial means, in the terms of sections 5.3 and 5.4 of RFC 9001 and without the
    formulas of the code (unprotect of internal/quic/initial.go). */
module ProtectionLaws {
  import opened Options
  import opened Bytes
  import opened Protection

  // ---- bits ---------------------------------------------------------------------------------------------

  /** Bit i of a number. */
  function Bit(a: nat, i: nat): nat {
    Halve(a, i) % 2
  }

  lemma {:induction false} XorBitsBit(a: nat, b: nat, n: nat, i: nat)
    requires i < n
    ensures Bit(XorBits(a, b, n), i) == (Bit(a, i) + Bit(b, i)) % 2
    decreases i
  {
    assert XorBits(a, b, n) / 2 == XorBits(a / 2, b / 2, n - 1);
    if i > 0 {
      XorBitsBit(a / 2, b / 2, n - 1, i - 1);
    }
  }

  /** Exclusive or adds bit by bit, without carries. */
  lemma XorBit(a: byte, b: byte, i: nat)
    requires i < 8
    ensures Bit(Xor(a, b), i) == (Bit(a, i) + Bit(b, i)) % 2
  {
    XorBitsBit(a, b, 8, i);
  }

  lemma {:induction false} BitsDetermine(a: nat, b: nat, n: nat)
    requires a < Pow2(n) && b < Pow2(n) && forall i :: 0 <= i < n ==> Bit(a, i) == Bit(b, i)
    ensures a == b
    decreases n
  {
    if n > 0 {
      assert Bit(a, 0) == Bit(b, 0);
      forall i | 0 <= i < n - 1 ensures Bit(a / 2, i) == Bit(b / 2, i) {
        assert Bit(a, i + 1) == Bit(b, i + 1);
      }
      BitsDetermine(a / 2, b / 2, n - 1);
    }
  }

  lemma SameBits(a: byte, b: byte)
    requires forall i :: 0 <= i < 8 ==> Bit(a, i) == Bit(b, i)
    ensures a == b
  {
    hide Bit;
    assert Pow2(4) == 16;
    BitsDetermine(a, b, 8);
  }

  lemma XorOther(a: byte, b: byte)
    ensures Xor(Xor(a, b), a) == b
  {
    hide Xor, Bit;
    forall i | 0 <= i < 8 ensures Bit(Xor(Xor(a, b), a), i) == Bit(b, i) {
      XorBit(a, b, i);
      XorBit(Xor(a, b), a, i);
      BitIsBit(a, i);
      BitIsBit(b, i);
    }
    SameBits(Xor(Xor(a, b), a), b);
  }

  lemma BitIsBit(a: nat, i: nat)
    ensures Bit(a, i) == 0 || Bit(a, i) == 1
  {}

  lemma ModHalf(a: nat, p: nat)
    requires p > 0
    ensures a % (2 * p) % 2 == a % 2 && a % (2 * p) / 2 == a / 2 % p
  {
    var q, r := a / (2 * p), a % (2 * p);
    assert a == 2 * (q * p) + r by { assert a == q * (2 * p) + r; }
    assert a / 2 == q * p + r / 2;
    ModUnique(a / 2, p, q, r / 2);
  }

  /** The k low-order bits of a number, bit by bit. */
  lemma {:induction false} LowBits(a: nat, k: nat, i: nat)
    ensures Bit(a % Pow2(k), i) == if i < k then Bit(a, i) else 0
    decreases k
  {
    if k == 0 {
      HalveZero(i);
    } else {
      ModHalf(a, Pow2(k - 1));
      if i > 0 {
        LowBits(a / 2, k - 1, i - 1);
      }
    }
  }

  lemma {:induction false} HalveZero(i: nat)
    ensures Halve(0, i) == 0
  {
    if i > 0 {
      HalveZero(i - 1);
    }
  }

  // ---- the nonce ----------------------------------------------------------------------------------------

  lemma {:induction false} DigitAt(v: nat, k: nat, j: nat)
    requires j < k
    ensures ToBytes(v, k)[j] == v / Pow256(k - 1 - j) % 256
    decreases k
  {
    if j < k - 1 {
      DigitAt(v / 256, k - 1, j);
      DivTwice(v, Pow256(k - 2 - j));
    }
  }

  lemma DivTwice(v: nat, p: nat)
    requires p > 0
    ensures v / 256 / p == v / (256 * p)
  {
    var q := v / (256 * p);
    var r := v % (256 * p);
    assert v == q * (256 * p) + r;
    assert v / 256 == q * p + r / 256 by {
      assert v == 256 * (q * p) + r;
    }
    assert 0 <= r / 256 < p;
    DivUnique(v / 256, p, q, r / 256);
  }

  lemma DivUnique(v: nat, m: nat, q: nat, r: nat)
    requires m > 0 && v == q * m + r && r < m
    ensures v / m == q
  {
    ModUnique(v, m, q, r);
    var d := v / m;
    assert d * m + v % m == v;
    assert (d - q) * m == 0;
  }

  lemma {:induction false} SmallHasNoHighDigits(pn: nat, i: nat)
    requires pn < Pow256(8) && i >= 8
    ensures pn / Pow256(i) % 256 == 0
    decreases i
  {
    assert Pow256(i) >= Pow256(8) by { PowMonotone(8, i); }
    assert pn / Pow256(i) == 0 by { DivUnique(pn, Pow256(i), 0, pn); }
  }

  /** What the nonce adds to the IV is the packet number, written as twelve bytes. */
  lemma NonceAdds(iv: seq<byte>, pn: nat)
    requires |iv| == IV_LENGTH && pn < Pow256(8)
    ensures XorAll(Nonce(iv, pn), iv) == ToBytes(pn, IV_LENGTH)
  {
    hide Xor, Pow256, ToBytes;
    forall j | 0 <= j < |iv| ensures XorAll(Nonce(iv, pn), iv)[j] == ToBytes(pn, |iv|)[j] {
      var i := |iv| - 1 - j;
      DigitAt(pn, |iv|, j);
      if i < 8 {
        XorOther(iv[j], pn / Pow256(i) % 256);
      } else {
        SmallHasNoHighDigits(pn, i);
        XorSelf(iv[j]);
      }
    }
  }

  lemma XorSelf(a: byte)
    ensures Xor(a, a) == 0
  {
    hide Xor, Bit;
    forall i | 0 <= i < 8 ensures Bit(Xor(a, a), i) == Bit(0, i) {
      XorBit(a, a, i);
      ZeroBit(i);
    }
    SameBits(Xor(a, a), 0);
  }

  lemma ZeroBit(i: nat)
    ensures Bit(0, i) == 0
  {
    HalveZero(i);
  }

  /** The nonce is the IV combined with the packet number, right-aligned and in network byte order. */
  lemma NonceIs(iv: seq<byte>, pn: nat)
    requires |iv| == IV_LENGTH && pn < 0x1_0000_0000_0000_0000
    ensures BigEndian(XorAll(Nonce(iv, pn), iv)) == pn && Nonce(iv, pn)[..4] == iv[..4]
  {
    Eight();
    NonceAdds(iv, pn);
    BigEndianToBytes(pn, IV_LENGTH);
    PowMonotone(8, IV_LENGTH);
    ModSmall(pn, Pow256(IV_LENGTH));
    hide Xor, Pow256, BigEndian;
    assert forall j :: 0 <= j < 4 ==> Nonce(iv, pn)[j] == iv[j];
  }

  lemma Eight()
    ensures Pow256(8) == 0x1_0000_0000_0000_0000
  {
    assert Pow256(4) == 0x1_0000_0000;
    assert Pow256(8) == 256 * (256 * (256 * (256 * Pow256(4))));
  }

  lemma ModSmall(a: nat, m: nat)
    requires a < m
    ensures a % m == a
  {
    ModUnique(a, m, 0, a);
  }

  lemma {:induction false} SameNumber(x: seq<byte>, y: seq<byte>)
    requires |x| == |y| && BigEndian(x) == BigEndian(y)
    ensures x == y
    decreases |x|
  {
    if x != [] {
      var n := |x| - 1;
      SameNumber(x[..n], y[..n]);
      assert x == x[..n] + [x[n]] && y == y[..n] + [y[n]];
    }
  }

  /** No other string of its length combines with the IV to that number. */
  lemma NonceUnique(iv: seq<byte>, pn: nat, n: seq<byte>)
    requires |iv| == |n| == IV_LENGTH && pn < 0x1_0000_0000_0000_0000 && BigEndian(XorAll(n, iv)) == pn
    ensures n == Nonce(iv, pn)
  {
    hide BigEndian, XorAll, Nonce;
    NonceIs(iv, pn);
    SameNumber(XorAll(n, iv), XorAll(Nonce(iv, pn), iv));
    XorAllTwice(n, iv);
    XorAllTwice(Nonce(iv, pn), iv);
  }

  /** Distinct packet numbers have distinct nonces. */
  lemma NoncesDiffer(iv: seq<byte>, pn: nat, other: nat)
    requires |iv| == IV_LENGTH && pn < 0x1_0000_0000_0000_0000 && other < 0x1_0000_0000_0000_0000 && pn != other
    ensures Nonce(iv, pn) != Nonce(iv, other)
  {
    hide BigEndian, XorAll, Nonce;
    NonceIs(iv, pn);
    NonceIs(iv, other);
  }

  // ---- the mask -------------------------------------------------------------------------------------------

  /** Bits `from` up to 8 of x are a's, and those below are the sums of a's and m's. */
  ghost predicate AddsBelow(x: byte, a: byte, m: byte, from: nat) {
    forall i :: 0 <= i < 8 ==> Bit(x, i) == if i < from then (Bit(a, i) + Bit(m, i)) % 2 else Bit(a, i)
  }

  /** hdr is pkt without its mask: the four low bits of the first byte, and the packet number, byte by byte. */
  ghost predicate Uncovered(pkt: seq<byte>, hdr: seq<byte>, at: nat, pnLen: nat, mask: seq<byte>)
    requires |mask| == BLOCK && 0 < at && pnLen <= 4 && at + pnLen <= |pkt|
  {
    && |hdr| == |pkt|
    && AddsBelow(hdr[0], pkt[0], mask[0], 4)
    && (forall j :: at <= j < at + pnLen ==> AddsBelow(hdr[j], pkt[j], mask[1 + j - at], 8))
    && (forall j :: 0 < j < |pkt| && !(at <= j < at + pnLen) ==> hdr[j] == pkt[j])
  }

  lemma XorAddsAll(a: byte, m: byte)
    ensures AddsBelow(Xor(a, m), a, m, 8)
  {
    hide Xor, Bit;
    forall i | 0 <= i < 8 ensures Bit(Xor(a, m), i) == (Bit(a, i) + Bit(m, i)) % 2 {
      XorBit(a, m, i);
    }
  }

  lemma XorAddsLow(a: byte, m: byte)
    ensures AddsBelow(Xor(a, m % 16), a, m, 4)
  {
    hide Xor, Bit;
    forall i | 0 <= i < 8 ensures Bit(Xor(a, m % 16), i) == if i < 4 then (Bit(a, i) + Bit(m, i)) % 2 else Bit(a, i) {
      XorBit(a, m % 16, i);
      LowBits(m, 4, i);
      assert Pow2(4) == 16;
      BitIsBit(a, i);
    }
  }

  lemma AddsOnce(x: byte, y: byte, a: byte, m: byte, from: nat)
    requires AddsBelow(x, a, m, from) && AddsBelow(y, a, m, from)
    ensures x == y
  {
    hide Bit;
    SameBits(x, y);
  }

  lemma MaskedUncovers(pkt: seq<byte>, at: nat, pnLen: nat, mask: seq<byte>)
    requires |mask| == BLOCK && 0 < at && pnLen <= 4 && at + pnLen <= |pkt|
    ensures Uncovered(pkt, Masked(pkt, at, pnLen, mask), at, pnLen, mask)
  {
    hide Xor, AddsBelow;
    var hdr := Masked(pkt, at, pnLen, mask);
    XorAddsLow(pkt[0], mask[0]);
    forall j | at <= j < at + pnLen ensures AddsBelow(hdr[j], pkt[j], mask[1 + j - at], 8) {
      assert hdr[j] == Xor(pkt[at..at + pnLen][j - at], mask[1..1 + pnLen][j - at]);
      XorAddsAll(pkt[j], mask[1 + j - at]);
    }
  }

  lemma UncoveredOnce(pkt: seq<byte>, x: seq<byte>, y: seq<byte>, at: nat, pnLen: nat, mask: seq<byte>)
    requires |mask| == BLOCK && 0 < at && pnLen <= 4 && at + pnLen <= |pkt|
    requires Uncovered(pkt, x, at, pnLen, mask) && Uncovered(pkt, y, at, pnLen, mask)
    ensures x == y
  {
    hide AddsBelow;
    forall j | 0 <= j < |pkt| ensures x[j] == y[j] {
      if j == 0 {
        AddsOnce(x[0], y[0], pkt[0], mask[0], 4);
      } else if at <= j < at + pnLen {
        AddsOnce(x[j], y[j], pkt[j], mask[1 + j - at], 8);
      }
    }
  }

  // ---- removing protection ----------------------------------------------------------------------------------

  /** The packet opens to o: the mask comes from the sixteen bytes that start four after the packet number does; without it
      the first byte says how long that number is; the nonce is the IV combined with it; and what follows the number is
      opened with all before it as associated data. */
  ghost predicate OpensBy(c: Suite, pkt: seq<byte>, at: nat, k: Keys, o: Opened, hdr: seq<byte>, nonce: seq<byte>) {
    && 0 < at && at + 20 <= |pkt| && |c.mask(k.hp, pkt[at + 4..at + 20])| == BLOCK && |hdr| == |pkt| && |nonce| == |k.iv|
    && var pnLen := hdr[0] % 4 + 1;
    && Uncovered(pkt, hdr, at, pnLen, c.mask(k.hp, pkt[at + 4..at + 20]))
    && BigEndian(hdr[at..at + pnLen]) == o.pn && BigEndian(XorAll(nonce, k.iv)) == o.pn
    && c.open(k.key, nonce, hdr[at + pnLen..], hdr[..at + pnLen]) == Some(o.plain)
  }

  ghost predicate Opens(c: Suite, pkt: seq<byte>, at: nat, k: Keys, o: Opened) {
    exists hdr, nonce :: OpensBy(c, pkt, at, k, o, hdr, nonce)
  }

  lemma ShortNumber(s: seq<byte>)
    requires |s| <= 4
    ensures BigEndian(s) < 0x1_0000_0000_0000_0000
  {
    BigEndianBound(s);
    PowMonotone(|s|, 8);
    Eight();
  }

  lemma UnprotectedOpens(c: Suite, pkt: seq<byte>, at: nat, k: Keys, o: Opened)
    requires 0 < at && |k.iv| == IV_LENGTH && Unprotected(c, pkt, at, k) == Some(o)
    ensures Opens(c, pkt, at, k, o)
  {
    hide Xor, BigEndian, Nonce, XorAll;
    assert Sample(pkt, at) == pkt[at + 4..at + 20];
    var mask := c.mask(k.hp, pkt[at + 4..at + 20]);
    var pnLen := Xor(pkt[0], mask[0] % 16) % 4 + 1;
    var hdr := Masked(pkt, at, pnLen, mask);
    MaskedTwice(pkt, at, pnLen, mask);
    MaskedUncovers(pkt, at, pnLen, mask);
    hide Masked, Uncovered;
    ShortNumber(hdr[at..at + pnLen]);
    NonceIs(k.iv, o.pn);
    assert OpensBy(c, pkt, at, k, o, hdr, Nonce(k.iv, o.pn));
  }

  lemma FirstUncovered(pkt: seq<byte>, hdr: seq<byte>, at: nat, pnLen: nat, mask: seq<byte>)
    requires |mask| == BLOCK && 0 < at && pnLen <= 4 && at + pnLen <= |pkt| && Uncovered(pkt, hdr, at, pnLen, mask)
    ensures hdr[0] == Xor(pkt[0], mask[0] % 16)
  {
    hide Xor, AddsBelow;
    XorAddsLow(pkt[0], mask[0]);
    AddsOnce(hdr[0], Xor(pkt[0], mask[0] % 16), pkt[0], mask[0], 4);
  }

  lemma OpensUnprotected(c: Suite, pkt: seq<byte>, at: nat, k: Keys, o: Opened, hdr: seq<byte>, nonce: seq<byte>)
    requires |k.iv| == IV_LENGTH && OpensBy(c, pkt, at, k, o, hdr, nonce)
    ensures Unprotected(c, pkt, at, k) == Some(o)
  {
    hide Xor, BigEndian, Nonce, XorAll, Masked, Uncovered;
    var mask := c.mask(k.hp, pkt[at + 4..at + 20]);
    var pnLen := hdr[0] % 4 + 1;
    assert Sample(pkt, at) == pkt[at + 4..at + 20];
    FirstUncovered(pkt, hdr, at, pnLen, mask);
    MaskedUncovers(pkt, at, pnLen, mask);
    UncoveredOnce(pkt, hdr, Masked(pkt, at, pnLen, mask), at, pnLen, mask);
    ShortNumber(hdr[at..at + pnLen]);
    NonceUnique(k.iv, o.pn, nonce);
  }

  /** unprotect gives a payload and a packet number exactly when the packet opens to them. */
  lemma UnprotectsExactly(c: Suite, pkt: seq<byte>, at: nat, k: Keys, o: Opened)
    requires 0 < at && |k.iv| == IV_LENGTH
    ensures Unprotected(c, pkt, at, k) == Some(o) <==> Opens(c, pkt, at, k, o)
  {
    hide Unprotected, OpensBy;
    if Unprotected(c, pkt, at, k) == Some(o) {
      UnprotectedOpens(c, pkt, at, k, o);
    }
    if Opens(c, pkt, at, k, o) {
      var hdr, nonce :| OpensBy(c, pkt, at, k, o, hdr, nonce);
      OpensUnprotected(c, pkt, at, k, o, hdr, nonce);
    }
  }
}

/** Header and payload protection of Initial packets: unprotect of internal/quic/initial.go
    and Seal of internal/quic/quictest/quictest.go (sections 5.3 and 5.4.1 of RFC 9001). */
module Protection {
  import opened Options
  import opened Bytes

  datatype Keys = Keys(key: seq<byte>, iv: seq<byte>, hp: seq<byte>)

  /** The cryptography, taken as functions: key derivation for a version and connection id,
      the header mask of a sample, and authenticated encryption. */
  datatype Suite = Suite(
    derive: (nat, seq<byte>) -> Keys,
    mask: (seq<byte>, seq<byte>) -> seq<byte>,
    seal: (seq<byte>, seq<byte>, seq<byte>, seq<byte>) -> seq<byte>,
    open: (seq<byte>, seq<byte>, seq<byte>, seq<byte>) -> Option<seq<byte>>)

  const TAG: nat := 16
  const BLOCK: nat := 16
  const IV_LENGTH: nat := 12

  /** Sizes as AES-128-GCM has them. */
  ghost predicate Shaped(c: Suite) {
    && (forall v: nat, d: seq<byte> :: |c.derive(v, d).iv| == IV_LENGTH)
    && (forall k: seq<byte>, s: seq<byte> :: |c.mask(k, s)| == BLOCK)
    && (forall k: seq<byte>, n: seq<byte>, p: seq<byte>, a: seq<byte> :: |c.seal(k, n, p, a)| == |p| + TAG)
  }

  /** What was sealed opens, under the same key, nonce and associated data. */
  ghost predicate Sound(c: Suite) {
    Shaped(c) && forall k: seq<byte>, n: seq<byte>, p: seq<byte>, a: seq<byte> :: c.open(k, n, c.seal(k, n, p, a), a) == Some(p)
  }

  /** Opening for a sealing that only adds a tag of zeros. */
  function PlainOpen(b: seq<byte>): (r: Option<seq<byte>>) {
    if |b| < TAG then None else Some(b[..|b| - TAG])
  }

  function ZeroTag(): (z: seq<byte>)
    ensures |z| == TAG
  {
    seq(TAG, _ => 0)
  }

  /** The laws asked of the cryptography can be met: by a sealing that adds a tag of zeros, for instance. */
  lemma SoundSuiteExists() returns (c: Suite)
    ensures Sound(c)
  {
    c := Suite((v: nat, d: seq<byte>) => Keys([], seq(IV_LENGTH, _ => 0), []),
               (k: seq<byte>, s: seq<byte>) => ZeroTag(),
               (k: seq<byte>, n: seq<byte>, p: seq<byte>, a: seq<byte>) => p + ZeroTag(),
               (k: seq<byte>, n: seq<byte>, b: seq<byte>, a: seq<byte>) => PlainOpen(b));
    forall p: seq<byte> ensures PlainOpen(p + ZeroTag()) == Some(p) {
      assert (p + ZeroTag())[..|p|] == p;
    }
  }

  /** Byte i from the end of the nonce is combined with bits 8*i and up of the packet number. */
  function NonceByte(iv: seq<byte>, pn: nat, j: nat): (b: byte)
    requires j < |iv|
  {
    var i := |iv| - 1 - j;
    if i < 8 then Xor(iv[j], pn / Pow256(i) % 256) else iv[j]
  }

  function Nonce(iv: seq<byte>, pn: nat): (n: seq<byte>)
    ensures |n| == |iv|
  {
    seq(|iv|, j requires 0 <= j < |iv| => NonceByte(iv, pn, j))
  }

  function XorAll(s: seq<byte>, m: seq<byte>): (r: seq<byte>)
    requires |s| == |m|
    ensures |r| == |s|
  {
    seq(|s|, i requires 0 <= i < |s| => Xor(s[i], m[i]))
  }

  /** Header protection with a given mask: the low bits of the first byte, and the packet number.
      Adding it and removing it are the same operation. */
  function Masked(pkt: seq<byte>, at: nat, pnLen: nat, mask: seq<byte>): (r: seq<byte>)
    requires 0 < at && pnLen <= 4 && at + pnLen <= |pkt| && |mask| == BLOCK
    ensures |r| == |pkt|
  {
    [Xor(pkt[0], mask[0] % 16)] + pkt[1..at] + XorAll(pkt[at..at + pnLen], mask[1..1 + pnLen]) + pkt[at + pnLen..]
  }

  lemma XorAllTwice(s: seq<byte>, m: seq<byte>)
    requires |s| == |m|
    ensures XorAll(XorAll(s, m), m) == s
  {
    forall i | 0 <= i < |s| ensures XorAll(XorAll(s, m), m)[i] == s[i] {
      XorTwice(s[i], m[i]);
    }
  }

  lemma MaskedTwice(pkt: seq<byte>, at: nat, pnLen: nat, mask: seq<byte>)
    requires 0 < at && pnLen <= 4 && at + pnLen <= |pkt| && |mask| == BLOCK
    ensures Masked(Masked(pkt, at, pnLen, mask), at, pnLen, mask) == pkt
    ensures Masked(pkt, at, pnLen, mask)[0] == Xor(pkt[0], mask[0] % 16)
    ensures Masked(pkt, at, pnLen, mask)[1..at] == pkt[1..at]
    ensures Masked(pkt, at, pnLen, mask)[at + pnLen..] == pkt[at + pnLen..]
  {
    hide Xor, XorAll;
    var r := Masked(pkt, at, pnLen, mask);
    assert r[at..at + pnLen] == XorAll(pkt[at..at + pnLen], mask[1..1 + pnLen]);
    XorTwice(pkt[0], mask[0] % 16);
    XorAllTwice(pkt[at..at + pnLen], mask[1..1 + pnLen]);
    assert r[1..at] == pkt[1..at];
    assert r[at + pnLen..] == pkt[at + pnLen..];
    assert pkt == [pkt[0]] + pkt[1..at] + pkt[at..at + pnLen] + pkt[at + pnLen..];
  }

  datatype Opened = Opened(plain: seq<byte>, pn: nat)

  /** The sample starts four bytes after the packet number does, whatever that number's length. */
  function Sample(pkt: seq<byte>, at: nat): (s: seq<byte>)
    requires at + 4 + BLOCK <= |pkt|
  {
    pkt[at + 4..at + 4 + BLOCK]
  }

  /** unprotect as a whole: take the mask off, read the packet number, open the payload. */
  function Unprotected(c: Suite, pkt: seq<byte>, at: nat, k: Keys): (r: Option<Opened>)
    requires 0 < at && |k.iv| == IV_LENGTH
  {
    if at + 4 + BLOCK > |pkt| then None
    else
      var mask := c.mask(k.hp, Sample(pkt, at));
      if |mask| != BLOCK then None
      else
        var pnLen := Xor(pkt[0], mask[0] % 16) % 4 + 1;
        var hdr := Masked(pkt, at, pnLen, mask);
        var pn := BigEndian(hdr[at..at + pnLen]);
        var plain := c.open(k.key, Nonce(k.iv, pn), hdr[at + pnLen..], hdr[..at + pnLen]);
        if plain.None? then None else Some(Opened(plain.value, pn))
  }

  /** A packet whose header ends with the packet number, sealed and masked. */
  function Protected(c: Suite, hdr: seq<byte>, pnLen: nat, payload: seq<byte>, k: Keys): (pkt: seq<byte>)
    requires 1 <= pnLen <= 4 && pnLen < |hdr| && 4 <= pnLen + |payload|
    requires |c.seal(k.key, Nonce(k.iv, BigEndian(hdr[|hdr| - pnLen..])), payload, hdr)| == |payload| + TAG
    requires forall s: seq<byte> :: |c.mask(k.hp, s)| == BLOCK
    ensures |pkt| == |hdr| + |payload| + TAG
  {
    var at := |hdr| - pnLen;
    var pkt := hdr + c.seal(k.key, Nonce(k.iv, BigEndian(hdr[at..])), payload, hdr);
    Masked(pkt, at, pnLen, c.mask(k.hp, Sample(pkt, at)))
  }

  /** Removing the protection that was put on gives the payload and the packet number back,
      for every mask and every packet-number length. */
  lemma ProtectionRoundTrip(c: Suite, hdr: seq<byte>, pnLen: nat, payload: seq<byte>, k: Keys)
    requires Sound(c) && |k.iv| == IV_LENGTH
    requires 1 <= pnLen <= 4 && pnLen < |hdr| && 4 <= pnLen + |payload|
    requires hdr[0] % 4 == pnLen - 1
    ensures Unprotected(c, Protected(c, hdr, pnLen, payload, k), |hdr| - pnLen, k)
            == Some(Opened(payload, BigEndian(hdr[|hdr| - pnLen..])))
  {
    hide Xor, Masked, Nonce, BigEndian;
    var at := |hdr| - pnLen;
    var sealed := c.seal(k.key, Nonce(k.iv, BigEndian(hdr[at..])), payload, hdr);
    var pkt := hdr + sealed;
    var mask := c.mask(k.hp, Sample(pkt, at));
    var out := Masked(pkt, at, pnLen, mask);
    MaskedTwice(pkt, at, pnLen, mask);
    assert Sample(out, at) == Sample(pkt, at) by {
      assert out[at + pnLen..][4 - pnLen..4 - pnLen + BLOCK] == pkt[at + pnLen..][4 - pnLen..4 - pnLen + BLOCK];
    }
    XorTwice(pkt[0], mask[0] % 16);
    assert pkt[at..at + pnLen] == hdr[at..];
    assert pkt[at + pnLen..] == sealed;
    assert pkt[..at + pnLen] == hdr;
  }

  /** Masking leaves the high four bits of the first byte, which carry the form and the type. */
  lemma FirstByteKept(c: Suite, hdr: seq<byte>, pnLen: nat, payload: seq<byte>, k: Keys)
    requires Shaped(c)
    requires 1 <= pnLen <= 4 && pnLen < |hdr| && 4 <= pnLen + |payload|
    ensures var pkt := Protected(c, hdr, pnLen, payload, k);
            pkt[0] / 16 == hdr[0] / 16 && pkt[1..|hdr| - pnLen] == hdr[1..|hdr| - pnLen]
  {
    hide Xor;
    var at := |hdr| - pnLen;
    var pkt := hdr + c.seal(k.key, Nonce(k.iv, BigEndian(hdr[at..])), payload, hdr);
    var mask := c.mask(k.hp, Sample(pkt, at));
    MaskedTwice(pkt, at, pnLen, mask);
    XorLowNibble(hdr[0], mask[0] % 16);
    assert pkt[1..at] == hdr[1..at];
  }

  // ---- the code, step by step ------------------------------------------------------------

  /** The nonce loop, in place on a copy of the IV. */
  method MakeNonce(iv: seq<byte>, pn: nat) returns (n: seq<byte>)
    requires |iv| == IV_LENGTH
    ensures n == Nonce(iv, pn)
  {
    hide Xor, Pow256;
    var nonce := new byte[|iv|](i requires 0 <= i < |iv| => iv[i]);
    var i := 0;
    while i < 8
      invariant 0 <= i <= 8
      invariant forall j :: 0 <= j < |iv| ==> nonce[j] == if |iv| - 1 - j < i then NonceByte(iv, pn, j) else iv[j]
    {
      nonce[|iv| - 1 - i] := Xor(nonce[|iv| - 1 - i], pn / Pow256(i) % 256);
      i := i + 1;
    }
    n := nonce[..];
  }

  /** unprotect: the mask is taken off in place on a copy of the packet, while the number is read. */
  method Unprotect(c: Suite, pkt: seq<byte>, at: nat, k: Keys) returns (r: Option<Opened>)
    requires Shaped(c) && 0 < at && |k.iv| == IV_LENGTH
    ensures r == Unprotected(c, pkt, at, k)
  {
    hide Xor, BigEndian, Nonce, Masked;
    if at + 4 + BLOCK > |pkt| {
      return None;
    }
    var hdr := new byte[|pkt|](i requires 0 <= i < |pkt| => pkt[i]);
    assert hdr[..] == pkt;
    var mask := c.mask(k.hp, hdr[at + 4..at + 4 + BLOCK]);
    hdr[0] := Xor(hdr[0], mask[0] % 16);
    var pnLen := hdr[0] % 4 + 1;
    var pn: nat := UnmaskNumber(hdr, at, pnLen, mask, pkt);
    var nonce := MakeNonce(k.iv, pn);
    var start := at + pnLen;
    var plain := c.open(k.key, nonce, hdr[start..], hdr[..start]);
    assert hdr[start..] == hdr[..][start..] && hdr[..start] == hdr[..][..start];
    if plain.None? {
      return None;
    }
    return Some(Opened(plain.value, pn));
  }

  /** The loop over the packet-number bytes. */
  method UnmaskNumber(hdr: array<byte>, at: nat, pnLen: nat, mask: seq<byte>, ghost pkt: seq<byte>) returns (pn: nat)
    requires 0 < at && pnLen <= 4 && at + pnLen <= |pkt| && |mask| == BLOCK
    requires hdr[..] == pkt[0 := Xor(pkt[0], mask[0] % 16)]
    modifies hdr
    ensures hdr[..] == Masked(pkt, at, pnLen, mask)
    ensures pn == BigEndian(hdr[..][at..at + pnLen])
  {
    hide Xor, BigEndian;
    pn := 0;
    ghost var was := hdr[..];
    var i := 0;
    EmptyNumber(hdr[at..at]);
    while i < pnLen
      invariant 0 <= i <= pnLen
      invariant forall j :: 0 <= j < |pkt| ==>
                  hdr[j] == if at <= j < at + i then Xor(was[j], mask[1 + j - at]) else was[j]
      invariant pn == BigEndian(hdr[at..at + i])
    {
      ghost var before := hdr[at..at + i];
      hdr[at + i] := Xor(hdr[at + i], mask[1 + i]);
      assert hdr[at..at + i] == before;
      assert hdr[at..at + i + 1] == before + [hdr[at + i]];
      BigEndianSnoc(before, hdr[at + i]);
      pn := pn * 256 + hdr[at + i];
      i := i + 1;
    }
    assert hdr[..][at..at + pnLen] == hdr[at..at + pnLen];
  }

  /** The end of Seal: the mask goes on in place on a copy of the packet. */
  method AddMask(plainPkt: seq<byte>, at: nat, pnLen: nat, mask: seq<byte>) returns (b: seq<byte>)
    requires 0 < at && pnLen <= 4 && at + pnLen <= |plainPkt| && |mask| == BLOCK
    ensures b == Masked(plainPkt, at, pnLen, mask)
  {
    hide Xor;
    var pkt := new byte[|plainPkt|](i requires 0 <= i < |plainPkt| => plainPkt[i]);
    pkt[0] := Xor(pkt[0], mask[0] % 16);
    ghost var was := pkt[..];
    var i := 0;
    while i < pnLen
      invariant 0 <= i <= pnLen
      invariant forall j :: 0 <= j < |plainPkt| ==>
                  pkt[j] == if at <= j < at + i then Xor(was[j], mask[1 + j - at]) else was[j]
    {
      pkt[at + i] := Xor(pkt[at + i], mask[1 + i]);
      i := i + 1;
    }
    b := pkt[..];
  }

  lemma EmptyNumber(s: seq<byte>)
    requires s == []
    ensures BigEndian(s) == 0
  {}
}

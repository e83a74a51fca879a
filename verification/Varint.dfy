/** QUIC variable-length integers: the reader of internal/quic/initial.go and the
    printer of internal/quic/quictest/quictest.go (section 16 of RFC 9000). */
module Varint {
  import opened Options
  import opened Bytes

  const LIMIT: nat := 0x4000_0000_0000_0000

  /** A decoded integer and the number of bytes it took. */
  datatype Read = Read(value: nat, size: nat)

  /** The length announced by the two high bits of the first byte: 1, 2, 4 or 8. */
  function Width(first: byte): (n: nat)
    ensures n == 1 || n == 2 || n == 4 || n == 8
  {
    if first < 64 then 1 else if first < 128 then 2 else if first < 192 then 4 else 8
  }

  /** The six low bits of the first byte and all of the others, read as one number. */
  function Decode(b: seq<byte>): (r: Option<Read>)
    ensures r.Some? ==> 0 < r.value.size <= |b| && r.value.size <= 8 && r.value.value < LIMIT
  {
    if b == [] || |b| < Width(b[0]) then None
    else
      var n := Width(b[0]);
      ValueBound(b[0] % 64, b[1..n]);
      Some(Read(BigEndian([b[0] % 64] + b[1..n]), n))
  }

  lemma ValueBound(lead: byte, rest: seq<byte>)
    requires lead < 64 && |rest| <= 7
    ensures BigEndian([lead] + rest) < LIMIT
  {
    LeadBound(lead, rest);
    Powers();
    PowMonotone(|rest|, 7);
    MulMonotone(lead + 1, 64, Pow256(|rest|), Pow256(7));
  }

  lemma {:induction false} LeadBound(lead: byte, rest: seq<byte>)
    ensures BigEndian([lead] + rest) < (lead + 1) * Pow256(|rest|)
  {
    hide BigEndian;
    if rest == [] {
      BigEndianOne(lead);
      assert [lead] + rest == [lead];
    } else {
      var front := rest[..|rest| - 1];
      assert [lead] + rest == ([lead] + front) + [rest[|front|]];
      BigEndianSnoc([lead] + front, rest[|front|]);
      LeadBound(lead, front);
      assert (lead + 1) * Pow256(|front|) * 256 == (lead + 1) * (256 * Pow256(|front|));
    }
  }

  /** readVarint: the byte-at-a-time loop computes what Decode says. */
  method ReadVarint(b: seq<byte>) returns (r: Option<Read>)
    ensures r == Decode(b)
  {
    hide BigEndian;
    if |b| == 0 {
      return None;
    }
    var n := Width(b[0]);
    if |b| < n {
      return None;
    }
    var v: nat := b[0] % 64;
    var i := 1;
    assert [b[0] % 64] + b[1..1] == [b[0] % 64];
    BigEndianOne(b[0] % 64);
    while i < n
      invariant 1 <= i <= n
      invariant v == BigEndian([b[0] % 64] + b[1..i])
    {
      assert [b[0] % 64] + b[1..i + 1] == ([b[0] % 64] + b[1..i]) + [b[i]];
      BigEndianSnoc([b[0] % 64] + b[1..i], b[i]);
      v := v * 256 + b[i];
      i := i + 1;
    }
    return Some(Read(v, n));
  }

  /** quictest.Varint: the shortest of the four forms; a value of 2^62 or more loses its two high bits. */
  function Encode(v: nat): (s: seq<byte>)
    requires v < 0x1_0000_0000_0000_0000
    ensures 1 <= |s| <= 8
  {
    if v < 0x40 then [v]
    else if v < 0x4000 then [0x40 + v / 0x100] + ToBytes(v, 1)
    else if v < 0x4000_0000 then [0x80 + v / 0x100_0000] + ToBytes(v, 3)
    else [0xc0 + v / 0x100_0000_0000_0000 % 64] + ToBytes(v, 7)
  }

  lemma Powers()
    ensures Pow256(1) == 0x100 && Pow256(3) == 0x100_0000 && Pow256(7) == 0x100_0000_0000_0000
  {
    assert Pow256(4) == 0x1_0000_0000;
  }

  /** One of the four forms read back: its tagged first byte, then k low-order bytes of v. */
  lemma FormRoundTrip(first: byte, v: nat, k: nat, rest: seq<byte>)
    requires Width(first) == k + 1
    ensures Decode([first] + ToBytes(v, k) + rest) == Some(Read(first % 64 * Pow256(k) + v % Pow256(k), k + 1))
  {
    var b := [first] + ToBytes(v, k) + rest;
    assert b[1..k + 1] == ToBytes(v, k);
    BigEndianOfBytes(first % 64, v, k);
  }

  lemma SplitAt56(v: nat)
    ensures v / 0x100_0000_0000_0000 % 64 * 0x100_0000_0000_0000 + v % 0x100_0000_0000_0000 == v % LIMIT
  {}

  /** Reading a printed integer, whatever follows it, gives the integer modulo 2^62 and stops at its end. */
  lemma RoundTrip(v: nat, rest: seq<byte>)
    requires v < 0x1_0000_0000_0000_0000
    ensures Decode(Encode(v) + rest) == Some(Read(v % LIMIT, |Encode(v)|))
    ensures Decode(Encode(v) + rest).value.value == v <==> v < LIMIT
  {
    hide Decode, Encode;
    if v < 0x4000 {
      ShortForms(v, rest);
    } else if v < 0x4000_0000 {
      FourByteForm(v, rest);
    } else {
      EightByteForm(v, rest);
    }
  }

  lemma ShortForms(v: nat, rest: seq<byte>)
    requires v < 0x4000
    ensures Decode(Encode(v) + rest) == Some(Read(v, |Encode(v)|))
  {
    hide Decode;
    Powers();
    if v < 0x40 {
      assert Encode(v) == [v] + ToBytes(v, 0);
      FormRoundTrip(v, v, 0, rest);
    } else {
      FormRoundTrip(0x40 + v / 0x100, v, 1, rest);
    }
  }

  lemma FourByteForm(v: nat, rest: seq<byte>)
    requires 0x4000 <= v < 0x4000_0000
    ensures Decode(Encode(v) + rest) == Some(Read(v, |Encode(v)|))
  {
    hide Decode;
    Powers();
    FormRoundTrip(0x80 + v / 0x100_0000, v, 3, rest);
  }

  lemma EightByteForm(v: nat, rest: seq<byte>)
    requires 0x4000_0000 <= v < 0x1_0000_0000_0000_0000
    ensures Decode(Encode(v) + rest) == Some(Read(v % LIMIT, |Encode(v)|))
  {
    hide Decode;
    Powers();
    FormRoundTrip(0xc0 + v / 0x100_0000_0000_0000 % 64, v, 7, rest);
    SplitAt56(v);
  }
}

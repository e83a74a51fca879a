/** The walk over coalesced long-header packets: ParseDatagram and parseLong of
    internal/quic/initial.go, against the sender's side (section 12.2 of RFC 9000). */
module Datagram {
  import opened Options
  import opened Bytes
  import opened Packets
  import opened Protection
  import Frames
  import Varint

  const VERSION1: nat := 0x00000001
  const VERSION2: nat := 0x6b3343cf
  const VERSION_DRAFT29: nat := 0xff00001d
  const MAX_CONN_ID: nat := 20

  predicate Known(v: nat) {
    v == VERSION1 || v == VERSION2 || v == VERSION_DRAFT29
  }

  function InitialType(v: nat): nat {
    if v == VERSION2 then 1 else 0
  }

  function RetryType(v: nat): nat {
    if v == VERSION2 then 0 else 3
  }

  datatype Error = NotQuic | UnsupportedVersion | NotInitial | Malformed

  /** parseLong's three results: a packet or none, the bytes it took, an error or none. */
  datatype Long = Long(packet: Option<Packet>, size: nat, error: Option<Error>)

  const NOT_QUIC := Long(None, 0, Some(NotQuic))

  /** The fields every long header starts with, and where they end. */
  datatype Header = Header(version: nat, ptype: nat, dcid: seq<byte>, scid: seq<byte>, off: nat)

  function HeaderOf(b: seq<byte>): (h: Option<Header>)
    ensures h.Some? ==> 7 <= h.value.off <= |b|
  {
    if |b| < 7 then None
    else
      var dcil := b[5];
      if 6 + dcil >= |b| then None
      else
        var scil := b[6 + dcil];
        var start := 7 + dcil as int;
        if start + scil > |b| then None
        else Some(Header(BigEndian(b[1..5]), b[0] / 16 % 4, b[6..6 + dcil], b[start..start + scil], start + scil))
  }

  /** skipLength: 0 when the end of the packet cannot be known. */
  function SkipLength(b: seq<byte>, off: nat, retry: bool): (n: nat)
    requires off <= |b|
    ensures n <= |b|
  {
    if retry then 0
    else
      var ln := Varint.Decode(b[off..]);
      if ln.None? || ln.value.value > |b| - off - ln.value.size then 0
      else off + ln.value.size + ln.value.value
  }

  /** The part of parseLong after the fixed header of an Initial: token, length, protected payload. */
  function InitialBody(c: Suite, b: seq<byte>, off: nat, p: Packet): (r: Long)
    requires Shaped(c) && 0 < off <= |b|
    ensures r.size <= |b| && r.packet.Some?
    ensures r.error.None? ==> r.size > 0
  {
    var token := Varint.Decode(b[off..]);
    if token.None? then Long(Some(p), 0, Some(Malformed))
    else
      var afterToken := off + token.value.size;
      if token.value.value > |b| - afterToken then Long(Some(p), 0, Some(Malformed))
      else
        var withToken := p.(tokenLen := token.value.value);
        var lengthAt := afterToken + token.value.value;
        var length := Varint.Decode(b[lengthAt..]);
        if length.None? then Long(Some(withToken), 0, Some(Malformed))
        else
          var at := lengthAt + length.value.size;
          if length.value.value < 20 || length.value.value > |b| - at then Long(Some(withToken), 0, Some(Malformed))
          else
            var end := at + length.value.value;
            var cleared := Unprotected(c, b[..end], at, c.derive(p.version, p.dcid));
            if cleared.None? then Long(Some(withToken), 0, Some(Malformed))
            else
              Long(Some(withToken.(pn := cleared.value.pn,
                                   frames := Some(Frames.ParseFrom(cleared.value.plain, Frames.EMPTY).summary))),
                   end, None)
  }

  function ParseLong(c: Suite, b: seq<byte>): (r: Long)
    requires Shaped(c)
    ensures r.size <= |b|
  {
    var h := HeaderOf(b);
    if h.None? then NOT_QUIC
    else
      var Header(version, ptype, dcid, scid, off) := h.value;
      var p := Packet(version, dcid, scid, ptype, 0, 0, None);
      if !Known(version) then Long(Some(p), 0, Some(UnsupportedVersion))
      else if |dcid| > MAX_CONN_ID || |scid| > MAX_CONN_ID then NOT_QUIC
      else if ptype != InitialType(version) then
        Long(Some(p), SkipLength(b, off, ptype == RetryType(version)), Some(NotInitial))
      else InitialBody(c, b, off, p)
  }

  datatype Walked = Walked(packets: seq<Packet>, error: Option<Error>)

  function Finish(out: seq<Packet>): Walked {
    if out == [] then Walked([], Some(NotQuic)) else Walked(out, None)
  }

  /** The loop of ParseDatagram from `out` on. Each round leaves a strictly shorter input. */
  function WalkFrom(c: Suite, b: seq<byte>, out: seq<Packet>): (w: Walked)
    requires Shaped(c)
    decreases |b|
  {
    if b == [] || b[0] < 0x80 then Finish(out)
    else
      var r := ParseLong(c, b);
      if r.packet.None? then Finish(out)
      else
        var more := out + [r.packet.value];
        if r.error.Some? && r.error.value != NotInitial then Walked(more, r.error)
        else if r.size == 0 then Finish(more)
        else WalkFrom(c, b[r.size..], more)
  }

  method ParseDatagram(c: Suite, datagram: seq<byte>) returns (w: Walked)
    requires Shaped(c)
    ensures w == WalkFrom(c, datagram, [])
  {
    hide HeaderOf, SkipLength, InitialBody;
    var b, out := datagram, [];
    while |b| > 0 && b[0] >= 0x80
      invariant WalkFrom(c, b, out) == WalkFrom(c, datagram, [])
      decreases |b|
    {
      var r := ParseLongPacket(c, b);
      if r.packet.None? {
        break;
      }
      out := out + [r.packet.value];
      if r.error.Some? && r.error.value != NotInitial {
        return Walked(out, r.error);
      }
      if r.size <= 0 {
        break;
      }
      b := b[r.size..];
    }
    if |out| == 0 {
      return Walked([], Some(NotQuic));
    }
    return Walked(out, None);
  }

  /** parseLong, reading the datagram at a moving offset. */
  method ParseLongPacket(c: Suite, b: seq<byte>) returns (r: Long)
    requires Shaped(c)
    ensures r == ParseLong(c, b)
  {
    hide BigEndian, SkipLength, InitialBody;
    if |b| < 7 {
      return NOT_QUIC;
    }
    var p := Packet(BigEndian(b[1..5]), [], [], b[0] / 16 % 4, 0, 0, None);
    var off := 5;
    var dcil: nat := b[off];
    off := off + 1;
    if off + dcil >= |b| {
      return NOT_QUIC;
    }
    p := p.(dcid := b[off..off + dcil]);
    off := off + dcil;
    var scil: nat := b[off];
    off := off + 1;
    if off + scil > |b| {
      return NOT_QUIC;
    }
    p := p.(scid := b[off..off + scil]);
    off := off + scil;
    if !Known(p.version) {
      return Long(Some(p), 0, Some(UnsupportedVersion));
    }
    if dcil > MAX_CONN_ID || scil > MAX_CONN_ID {
      return NOT_QUIC;
    }
    if p.ptype != InitialType(p.version) {
      return Long(Some(p), SkipLength(b, off, p.ptype == RetryType(p.version)), Some(NotInitial));
    }
    r := ParseInitial(c, b, off, p);
  }

  method ParseInitial(c: Suite, b: seq<byte>, start: nat, header: Packet) returns (r: Long)
    requires Shaped(c) && 0 < start <= |b|
    ensures r == InitialBody(c, b, start, header)
  {
    hide Varint.Decode, Unprotected;
    var p, off := header, start;
    var token := Varint.ReadVarint(b[off..]);
    if token.None? {
      return Long(Some(p), 0, Some(Malformed));
    }
    off := off + token.value.size;
    if token.value.value > |b| - off {
      return Long(Some(p), 0, Some(Malformed));
    }
    p := p.(tokenLen := token.value.value);
    off := off + token.value.value;
    var length := Varint.ReadVarint(b[off..]);
    if length.None? {
      return Long(Some(p), 0, Some(Malformed));
    }
    off := off + length.value.size;
    if length.value.value < 20 || length.value.value > |b| - off {
      return Long(Some(p), 0, Some(Malformed));
    }
    var end := off + length.value.value;
    var cleared := Unprotect(c, b[..end], off, c.derive(p.version, p.dcid));
    if cleared.None? {
      return Long(Some(p), 0, Some(Malformed));
    }
    var parsed := Frames.ParseFrames(cleared.value.plain);
    return Long(Some(p.(pn := cleared.value.pn, frames := Some(parsed.summary))), end, None);
  }

  // ---- the sender -------------------------------------------------------------------------

  /** A long-header packet to send: an Initial, or a 0-RTT or Handshake packet the reader only skips. */
  datatype Sent =
    | Initial(version: nat, dcid: seq<byte>, scid: seq<byte>, token: seq<byte>, pn: nat, pnLen: nat, payload: seq<byte>)
    | Opaque(version: nat, dcid: seq<byte>, scid: seq<byte>, ptype: nat, low: nat, body: seq<byte>)
  {
    ghost predicate Valid() {
      && Known(version) && |dcid| <= MAX_CONN_ID && |scid| <= MAX_CONN_ID
      && match this
         case Initial(_, _, _, token, pn, pnLen, payload) =>
           && 1 <= pnLen <= 4 && pn < Pow256(pnLen) && 4 <= pnLen + |payload|
           && |token| < Varint.LIMIT && pnLen + |payload| + TAG < Varint.LIMIT
         case Opaque(version, _, _, ptype, low, body) =>
           && ptype < 4 && ptype != InitialType(version) && ptype != RetryType(version)
           && low < 16 && 0 < |body| < Varint.LIMIT
    }
  }

  function LongHeader(first: byte, version: nat, dcid: seq<byte>, scid: seq<byte>): (b: seq<byte>)
    requires |dcid| <= MAX_CONN_ID && |scid| <= MAX_CONN_ID
    ensures |b| == 7 + |dcid| + |scid| && b[0] == first
  {
    [first] + (ToBytes(version, 4) + ([|dcid|] + (dcid + ([|scid|] + scid))))
  }

  /** What comes between the connection ids and the packet number. */
  function InitialFields(s: Sent): (b: seq<byte>)
    requires s.Initial? && s.Valid()
  {
    Varint.Encode(|s.token|) + (s.token + Varint.Encode(s.pnLen + |s.payload| + TAG))
  }

  function InitialHeader(s: Sent): (b: seq<byte>)
    requires s.Initial? && s.Valid()
    ensures |b| > s.pnLen && b[0] == 0xc0 + InitialType(s.version) * 16 + (s.pnLen - 1)
  {
    LongHeader(0xc0 + InitialType(s.version) * 16 + (s.pnLen - 1), s.version, s.dcid, s.scid)
    + (InitialFields(s) + ToBytes(s.pn, s.pnLen))
  }

  function Encode(c: Suite, s: Sent): (b: seq<byte>)
    requires Shaped(c) && s.Valid()
    ensures |b| > 0
  {
    match s
    case Initial(version, dcid, scid, token, pn, pnLen, payload) =>
      Protected(c, InitialHeader(s), pnLen, payload, c.derive(version, dcid))
    case Opaque(version, dcid, scid, ptype, low, body) =>
      LongHeader(0xc0 + ptype * 16 % 64 + low, version, dcid, scid) + (Varint.Encode(|body|) + body)
  }

  /** What the reader makes of a sent packet. */
  function Received(s: Sent): Packet {
    match s
    case Initial(version, dcid, scid, token, pn, pnLen, payload) =>
      Packet(version, dcid, scid, InitialType(version), |token|, pn, Some(Frames.ParseFrom(payload, Frames.EMPTY).summary))
    case Opaque(version, dcid, scid, ptype, _, _) => Packet(version, dcid, scid, ptype, 0, 0, None)
  }

  lemma VersionBytes(v: nat)
    requires Known(v)
    ensures BigEndian(ToBytes(v, 4)) == v
  {
    BigEndianToBytes(v, 4);
    assert Pow256(4) == 0x1_0000_0000;
  }

  lemma HeaderRead(first: byte, version: nat, dcid: seq<byte>, scid: seq<byte>, b: seq<byte>)
    requires Known(version) && |dcid| <= MAX_CONN_ID && |scid| <= MAX_CONN_ID
    requires |b| >= 7 + |dcid| + |scid| && b[0] / 16 == first / 16
    requires b[1..7 + |dcid| + |scid|] == LongHeader(first, version, dcid, scid)[1..]
    ensures HeaderOf(b) == Some(Header(version, first / 16 % 4, dcid, scid, 7 + |dcid| + |scid|))
  {
    hide BigEndian, ToBytes;
    var h := LongHeader(first, version, dcid, scid);
    var n, m := |dcid|, |scid|;
    assert b == [b[0]] + h[1..] + b[7 + n + m..];
    assert b[1..5] == ToBytes(version, 4);
    VersionBytes(version);
    assert b[5] == n;
    assert b[6..6 + n] == dcid;
    assert b[6 + n] == m;
    assert b[7 + n..7 + n + m] == scid;
  }

  lemma FieldsRead(token: seq<byte>, length: nat, b: seq<byte>, off: nat, rest: seq<byte>)
    requires |token| < Varint.LIMIT && length < Varint.LIMIT && off <= |b|
    requires b[off..] == (Varint.Encode(|token|) + (token + Varint.Encode(length))) + rest
    ensures Varint.Decode(b[off..]) == Some(Varint.Read(|token|, |Varint.Encode(|token|)|))
    ensures var at := off + |Varint.Encode(|token|)| + |token|;
            at <= |b| && Varint.Decode(b[at..]) == Some(Varint.Read(length, |Varint.Encode(length)|))
  {
    hide Varint.Decode, Varint.Encode;
    var t, l := Varint.Encode(|token|), Varint.Encode(length);
    assert b[off..] == t + (token + (l + rest));
    Varint.RoundTrip(|token|, token + (l + rest));
    assert |b| - off == |t| + |token| + |l| + |rest|;
    assert b[off + |t| + |token|..] == b[off..][|t| + |token|..] == l + rest;
    Varint.RoundTrip(length, rest);
  }

  lemma InitialBodyRead(c: Suite, b: seq<byte>, off: nat, p: Packet, tokenLen: nat, lengthAt: nat, size: nat, n: nat, o: Opened)
    requires Shaped(c) && 0 < off <= |b| && lengthAt <= |b|
    requires off + tokenLen <= lengthAt
    requires Varint.Decode(b[off..]) == Some(Varint.Read(tokenLen, lengthAt - off - tokenLen))
    requires Varint.Decode(b[lengthAt..]) == Some(Varint.Read(n, size))
    requires 20 <= n && lengthAt + size + n <= |b|
    requires Unprotected(c, b[..lengthAt + size + n], lengthAt + size, c.derive(p.version, p.dcid)) == Some(o)
    ensures InitialBody(c, b, off, p)
            == Long(Some(p.(tokenLen := tokenLen, pn := o.pn, frames := Some(Frames.ParseFrom(o.plain, Frames.EMPTY).summary))),
                    lengthAt + size + n, None)
  {
    hide Varint.Decode, Unprotected, Frames.ParseFrom;
  }

  lemma NumberBytes(pn: nat, pnLen: nat)
    requires pn < Pow256(pnLen)
    ensures BigEndian(ToBytes(pn, pnLen)) == pn
  {
    BigEndianToBytes(pn, pnLen);
    assert pn % Pow256(pnLen) == pn;
  }

  /** The unprotected front of a sent Initial is still its header. */
  lemma FrontKept(c: Suite, s: Sent)
    requires Sound(c) && s.Initial? && s.Valid()
    ensures var hdr, pkt := InitialHeader(s), Encode(c, s);
            var at := |hdr| - s.pnLen;
      && pkt[0] / 16 == hdr[0] / 16
      && pkt[1..at] == LongHeader(hdr[0], s.version, s.dcid, s.scid)[1..] + InitialFields(s)
      && Unprotected(c, pkt, at, c.derive(s.version, s.dcid)) == Some(Opened(s.payload, s.pn))
  {
    hide BigEndian, ToBytes, Protected, Unprotected, LongHeader, InitialFields;
    var hdr := InitialHeader(s);
    var at := |hdr| - s.pnLen;
    FirstByteKept(c, hdr, s.pnLen, s.payload, c.derive(s.version, s.dcid));
    ProtectionRoundTrip(c, hdr, s.pnLen, s.payload, c.derive(s.version, s.dcid));
    NumberBytes(s.pn, s.pnLen);
    assert hdr[at..] == ToBytes(s.pn, s.pnLen);
    assert hdr[1..at] == LongHeader(hdr[0], s.version, s.dcid, s.scid)[1..] + InitialFields(s);
  }

  lemma Cuts(pkt: seq<byte>, rest: seq<byte>, off: nat, at: nat, x: seq<byte>, y: seq<byte>)
    requires 1 <= off <= at <= |pkt| && pkt[1..at] == x + y && |x| == off - 1
    ensures (pkt + rest)[1..off] == x
    ensures (pkt + rest)[off..] == y + (pkt + rest)[at..]
  {
    var b := pkt + rest;
    assert b[1..off] == pkt[1..at][..off - 1];
    assert b[off..at] == pkt[1..at][off - 1..];
    assert b[off..] == b[off..at] + b[at..];
  }

  lemma InitialRead(c: Suite, s: Sent, rest: seq<byte>)
    requires Sound(c) && s.Initial? && s.Valid()
    ensures ParseLong(c, Encode(c, s) + rest) == Long(Some(Received(s)), |Encode(c, s)|, None)
  {
    hide LongHeader, Protected, Unprotected, InitialBody, HeaderOf, Varint.Encode, Varint.Decode, Frames.ParseFrom, SkipLength;
    var hdr, pkt := InitialHeader(s), Encode(c, s);
    var b := pkt + rest;
    var h := LongHeader(hdr[0], s.version, s.dcid, s.scid);
    var at, off := |hdr| - s.pnLen, |h|;
    FrontKept(c, s);
    assert b[..|pkt|] == pkt;
    Cuts(pkt, rest, off, at, h[1..], InitialFields(s));
    HeaderRead(hdr[0], s.version, s.dcid, s.scid, b);
    var n := s.pnLen + |s.payload| + TAG;
    FieldsRead(s.token, n, b, off, b[at..]);
    var p := Packet(s.version, s.dcid, s.scid, hdr[0] / 16 % 4, 0, 0, None);
    InitialBodyRead(c, b, off, p, |s.token|, at - |Varint.Encode(n)|, |Varint.Encode(n)|, n, Opened(s.payload, s.pn));
  }

  lemma OpaqueHeader(s: Sent, b: seq<byte>, rest: seq<byte>)
    requires s.Opaque? && s.Valid()
    requires var h := LongHeader(0xc0 + s.ptype * 16 % 64 + s.low, s.version, s.dcid, s.scid);
             b == h + (Varint.Encode(|s.body|) + s.body) + rest
    ensures var off := 7 + |s.dcid| + |s.scid|;
      && off <= |b| && HeaderOf(b) == Some(Header(s.version, s.ptype, s.dcid, s.scid, off))
      && b[off..] == Varint.Encode(|s.body|) + (s.body + rest)
  {
    hide HeaderOf, Varint.Encode, LongHeader;
    var first := 0xc0 + s.ptype * 16 % 64 + s.low;
    var h := LongHeader(first, s.version, s.dcid, s.scid);
    assert b[1..|h|] == h[1..];
    HeaderRead(first, s.version, s.dcid, s.scid, b);
    assert b[|h|..] == Varint.Encode(|s.body|) + (s.body + rest);
  }

  lemma OpaqueRead(c: Suite, s: Sent, rest: seq<byte>)
    requires Shaped(c) && s.Opaque? && s.Valid()
    ensures ParseLong(c, Encode(c, s) + rest) == Long(Some(Received(s)), |Encode(c, s)|, Some(NotInitial))
  {
    hide HeaderOf, Varint.Encode, Varint.Decode, InitialBody, LongHeader;
    OpaqueHeader(s, Encode(c, s) + rest, rest);
    Varint.RoundTrip(|s.body|, s.body + rest);
  }

  const MIN_PAYLOAD: nat := 1100

  /** The payload with PADDING frames behind it up to 1100 bytes. */
  function Padded(payload: seq<byte>): (p: seq<byte>) {
    if |payload| >= MIN_PAYLOAD then payload else payload + seq(MIN_PAYLOAD - |payload|, _ => 0)
  }

  method PadPayload(data: seq<byte>) returns (payload: seq<byte>)
    ensures payload == Padded(data)
  {
    payload := data;
    while |payload| < MIN_PAYLOAD
      invariant |payload| <= MIN_PAYLOAD || payload == data
      invariant |payload| >= |data| && payload == data + seq(|payload| - |data|, _ => 0)
    {
      payload := payload + [0];
    }
  }

  /** The header Seal writes: no token, a two-byte length, a four-byte packet number. */
  function SealHeader(version: nat, dcid: seq<byte>, scid: seq<byte>, pn: nat, length: nat): (h: seq<byte>)
    requires |dcid| <= MAX_CONN_ID && |scid| <= MAX_CONN_ID && length < 0x4000
  {
    [0xc0 + (if version == VERSION2 then 1 else 0) * 16 + 3] + ToBytes(version, 4) + [|dcid|] + dcid + [|scid|] + scid
    + [0x00] + [0x40 + length / 256, length % 256] + ToBytes(pn, 4)
  }

  lemma SealHeaderIs(s: Sent)
    requires s.Initial? && s.Valid() && s.token == [] && s.pnLen == 4 && 64 <= 4 + |s.payload| + TAG < 0x4000
    ensures SealHeader(s.version, s.dcid, s.scid, s.pn, 4 + |s.payload| + TAG) == InitialHeader(s)
  {
    hide ToBytes, Varint.Encode;
    var length := 4 + |s.payload| + TAG;
    TwoByteLength(length);
    assert InitialFields(s) == [0x00] + [0x40 + length / 256, length % 256];
  }

  /** quictest.Seal: a padded Initial with a four-byte packet number, no token and a two-byte length. */
  method Seal(c: Suite, version: nat, dcid: seq<byte>, scid: seq<byte>, pn: nat, data: seq<byte>) returns (b: seq<byte>)
    requires Shaped(c) && Known(version) && |dcid| <= MAX_CONN_ID && |scid| <= MAX_CONN_ID
    requires pn < 0x1_0000_0000 && |data| <= 0x3fff - 4 - TAG
    ensures Sealable(version, dcid, scid, pn, data)
    ensures b == Encode(c, Initial(version, dcid, scid, [], pn, 4, Padded(data)))
  {
    hide SealHeader, InitialHeader, Masked, Nonce, ToBytes, BigEndian;
    SealableHere(version, dcid, scid, pn, data);
    var k := c.derive(version, dcid);
    var payload := PadPayload(data);
    ghost var s := Initial(version, dcid, scid, [], pn, 4, payload);
    var hdr := SealHeader(version, dcid, scid, pn, 4 + |payload| + TAG);
    SealHeaderIs(s);
    var at := |hdr| - 4;
    EndsWithNumber(s);
    var nonce := MakeNonce(k.iv, pn);
    var pkt := hdr + c.seal(k.key, nonce, payload, hdr);
    var mask := c.mask(k.hp, pkt[at + 4..at + 4 + BLOCK]);
    b := AddMask(pkt, at, 4, mask);
  }

  lemma EndsWithNumber(s: Sent)
    requires s.Initial? && s.Valid()
    ensures var hdr := InitialHeader(s); BigEndian(hdr[|hdr| - s.pnLen..]) == s.pn
  {
    hide BigEndian, ToBytes, LongHeader, InitialFields;
    var hdr := InitialHeader(s);
    assert hdr[|hdr| - s.pnLen..] == ToBytes(s.pn, s.pnLen);
    NumberBytes(s.pn, s.pnLen);
  }

  ghost predicate Sealable(version: nat, dcid: seq<byte>, scid: seq<byte>, pn: nat, data: seq<byte>) {
    Initial(version, dcid, scid, [], pn, 4, Padded(data)).Valid()
  }

  lemma SealableHere(version: nat, dcid: seq<byte>, scid: seq<byte>, pn: nat, data: seq<byte>)
    requires Known(version) && |dcid| <= MAX_CONN_ID && |scid| <= MAX_CONN_ID
    requires pn < 0x1_0000_0000 && |data| <= 0x3fff - 4 - TAG
    ensures Sealable(version, dcid, scid, pn, data)
  {
    assert Pow256(4) == 0x1_0000_0000;
  }

  lemma TwoByteLength(n: nat)
    requires 64 <= n < 0x4000
    ensures Varint.Encode(n) == [0x40 + n / 256, n % 256]
    ensures Varint.Encode(0) == [0x00]
  {
    assert ToBytes(n, 1) == [n % 256];
  }

  function EncodeAll(c: Suite, ss: seq<Sent>): (b: seq<byte>)
    requires Shaped(c) && forall i :: 0 <= i < |ss| ==> ss[i].Valid()
  {
    if ss == [] then [] else Encode(c, ss[0]) + EncodeAll(c, ss[1..])
  }

  function ReceivedAll(ss: seq<Sent>): (ps: seq<Packet>)
    ensures |ps| == |ss|
    ensures forall i :: 0 <= i < |ss| ==> ps[i] == Received(ss[i])
  {
    if ss == [] then [] else [Received(ss[0])] + ReceivedAll(ss[1..])
  }

  lemma FirstBit(c: Suite, s: Sent)
    requires Shaped(c) && s.Valid()
    ensures Encode(c, s)[0] >= 0x80
  {
    if s.Initial? {
      hide Protected, LongHeader, Varint.Encode, ToBytes;
      FirstByteKept(c, InitialHeader(s), s.pnLen, s.payload, c.derive(s.version, s.dcid));
      assert InitialHeader(s)[0] / 16 >= 8;
      assert Encode(c, s)[0] / 16 >= 8;
    }
  }

  /** One packet is taken off the front, whole, and the walk goes on behind it. */
  lemma WalkStep(c: Suite, s: Sent, rest: seq<byte>, out: seq<Packet>)
    requires Sound(c) && s.Valid()
    ensures WalkFrom(c, Encode(c, s) + rest, out) == WalkFrom(c, rest, out + [Received(s)])
  {
    hide Encode, ParseLong, Received;
    var b := Encode(c, s) + rest;
    FirstBit(c, s);
    if s.Initial? {
      InitialRead(c, s, rest);
    } else {
      OpaqueRead(c, s, rest);
    }
    assert b[|Encode(c, s)|..] == rest;
  }

  lemma NothingMore(c: Suite, tail: seq<byte>, out: seq<Packet>)
    requires Shaped(c) && (tail == [] || tail[0] < 0x80)
    ensures WalkFrom(c, tail, out) == Finish(out)
  {}

  /** Packets that were sent are taken off, whatever comes behind them. */
  lemma {:induction false} WalkThen(c: Suite, ss: seq<Sent>, tail: seq<byte>, out: seq<Packet>)
    requires Sound(c) && forall i :: 0 <= i < |ss| ==> ss[i].Valid()
    ensures WalkFrom(c, EncodeAll(c, ss) + tail, out) == WalkFrom(c, tail, out + ReceivedAll(ss))
    decreases |ss|
  {
    hide WalkFrom, Encode, Received;
    if ss == [] {
      assert EncodeAll(c, ss) + tail == tail;
      assert out + ReceivedAll(ss) == out;
    } else {
      var rest := EncodeAll(c, ss[1..]) + tail;
      assert EncodeAll(c, ss) + tail == Encode(c, ss[0]) + rest;
      WalkStep(c, ss[0], rest, out);
      WalkThen(c, ss[1..], tail, out + [Received(ss[0])]);
      assert out + [Received(ss[0])] + ReceivedAll(ss[1..]) == out + ReceivedAll(ss);
    }
  }

  /** Coalesced packets come back one for one, with version, connection ids, token length, packet number and
      frames, whatever mask the samples give; zero padding or a short-header packet behind them changes nothing. */
  lemma DatagramRoundTrip(c: Suite, ss: seq<Sent>, tail: seq<byte>)
    requires Sound(c) && ss != [] && forall i :: 0 <= i < |ss| ==> ss[i].Valid()
    requires tail == [] || tail[0] < 0x80
    ensures WalkFrom(c, EncodeAll(c, ss) + tail, []) == Walked(ReceivedAll(ss), None)
  {
    hide WalkFrom;
    WalkThen(c, ss, tail, []);
    NothingMore(c, tail, ReceivedAll(ss));
    assert [] + ReceivedAll(ss) == ReceivedAll(ss);
  }
}

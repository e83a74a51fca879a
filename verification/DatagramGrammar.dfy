/** Datagrams as they may arrive: what parseLong of internal/quic/initial.go makes of every input, unknown versions and packets
    that do not open included, and where the walk over coalesced packets stops. */
module DatagramGrammar {
  import opened Options
  import opened Bytes
  import opened Packets
  import opened Protection
  import opened ProtectionLaws
  import opened Datagram
  import opened FrameGrammar
  import Frames
  import Varint

  // ---- the parts of a long-header packet ------------------------------------------------------------

  /** b begins with this header: type bits, version, and two connection ids with their lengths. */
  ghost predicate HeaderAt(b: seq<byte>, h: Header) {
    && h.off == 7 + |h.dcid| + |h.scid| <= |b|
    && h.ptype == b[0] / 16 % 4 && h.version == BigEndian(b[1..5])
    && b[5] == |h.dcid| && b[6..6 + |h.dcid|] == h.dcid
    && b[6 + |h.dcid|] == |h.scid| && b[7 + |h.dcid|..h.off] == h.scid
  }

  lemma HeaderExactly(b: seq<byte>, h: Header)
    ensures HeaderOf(b) == Some(h) <==> HeaderAt(b, h)
  {
    hide BigEndian;
  }

  /** From off on there is a length, and as many bytes up to n. */
  ghost predicate LengthThen(b: seq<byte>, off: nat, n: nat, i: int) {
    off <= i <= n <= |b| && IsVarint(b[off..i], n - i)
  }

  /** What is skipped is a length and that many bytes; nothing can be skipped of a Retry, or if they are not all there. */
  lemma SkipExactly(b: seq<byte>, off: nat, retry: bool, n: nat)
    requires 0 < off <= |b|
    ensures n > 0 && SkipLength(b, off, retry) == n <==> !retry && exists i :: LengthThen(b, off, n, i)
  {
    hide IsVarint, Varint.Decode;
    var ln := Varint.Decode(b[off..]);
    if ln.Some? {
      DecodeExactly(b[off..], ln.value.value, ln.value.size);
      assert b[off..][..ln.value.size] == b[off..off + ln.value.size];
      if SkipLength(b, off, retry) == n > 0 {
        assert LengthThen(b, off, n, off + ln.value.size);
      }
    }
    forall i | LengthThen(b, off, n, i) ensures ln == Some(Varint.Read(n - i, i - off)) {
      assert b[off..][..i - off] == b[off..i];
      DecodeExactly(b[off..], n - i, i - off);
    }
  }

  /** From off on there is a token with its length. */
  ghost predicate TokenAt(b: seq<byte>, off: nat, i: int, j: int) {
    off <= i <= j <= |b| && IsVarint(b[off..i], j - i)
  }

  /** Then a length of at least 20, and that many bytes from k on. */
  ghost predicate PayloadAt(b: seq<byte>, j: int, k: int, n: int) {
    0 <= j <= k && k + 20 <= n <= |b| && IsVarint(b[j..k], n - k)
  }

  /** The packet that the bytes from off on make of the header. */
  ghost predicate InitialAt(c: Suite, b: seq<byte>, off: nat, p: Packet, q: Packet, n: nat, i: int, j: int, k: int, o: Opened) {
    && TokenAt(b, off, i, j) && PayloadAt(b, j, k, n)
    && Opens(c, b[..n], k, c.derive(p.version, p.dcid), o)
    && q == p.(tokenLen := j - i, pn := o.pn, frames := Some(Frames.ParseFrom(o.plain, Frames.EMPTY).summary))
  }

  lemma TokenReads(b: seq<byte>, off: nat, i: nat, j: nat)
    requires TokenAt(b, off, i, j)
    ensures Varint.Decode(b[off..]) == Some(Varint.Read(j - i, i - off))
  {
    hide IsVarint, Varint.Decode;
    assert b[off..][..i - off] == b[off..i];
    DecodeExactly(b[off..], j - i, i - off);
  }

  lemma TokenMeans(b: seq<byte>, off: nat)
    requires off <= |b|
    ensures var t := Varint.Decode(b[off..]);
      t.Some? && t.value.value <= |b| - off - t.value.size ==>
        TokenAt(b, off, off + t.value.size, off + t.value.size + t.value.value)
  {
    hide IsVarint, Varint.Decode;
    var t := Varint.Decode(b[off..]);
    if t.Some? {
      DecodeExactly(b[off..], t.value.value, t.value.size);
      assert b[off..][..t.value.size] == b[off..off + t.value.size];
    }
  }

  lemma PayloadReads(b: seq<byte>, j: nat, k: nat, n: nat)
    requires PayloadAt(b, j, k, n)
    ensures Varint.Decode(b[j..]) == Some(Varint.Read(n - k, k - j))
  {
    hide IsVarint, Varint.Decode;
    assert b[j..][..k - j] == b[j..k];
    DecodeExactly(b[j..], n - k, k - j);
  }

  lemma PayloadMeans(b: seq<byte>, j: nat)
    requires j <= |b|
    ensures var l := Varint.Decode(b[j..]);
      l.Some? && 20 <= l.value.value <= |b| - j - l.value.size ==> PayloadAt(b, j, j + l.value.size, j + l.value.size + l.value.value)
  {
    hide IsVarint, Varint.Decode;
    var l := Varint.Decode(b[j..]);
    if l.Some? {
      DecodeExactly(b[j..], l.value.value, l.value.size);
      assert b[j..][..l.value.size] == b[j..j + l.value.size];
    }
  }

  lemma InitialReads(c: Suite, b: seq<byte>, off: nat, p: Packet, q: Packet, n: nat, i: nat, j: nat, k: nat, o: Opened)
    requires Shaped(c) && 0 < off && InitialAt(c, b, off, p, q, n, i, j, k, o)
    ensures off <= |b| && InitialBody(c, b, off, p) == Long(Some(q), n, None)
  {
    hide IsVarint, Varint.Decode, Unprotected, Opens, InitialBody;
    TokenReads(b, off, i, j);
    PayloadReads(b, j, k, n);
    UnprotectsExactly(c, b[..n], k, c.derive(p.version, p.dcid), o);
    InitialBodyRead(c, b, off, p, j - i, j, k - j, n - k, o);
  }

  lemma InitialMeans(c: Suite, b: seq<byte>, off: nat, p: Packet, q: Packet, n: nat) returns (i: nat, j: nat, k: nat, o: Opened)
    requires Shaped(c) && 0 < off <= |b| && InitialBody(c, b, off, p) == Long(Some(q), n, None)
    ensures InitialAt(c, b, off, p, q, n, i, j, k, o)
  {
    hide IsVarint, Varint.Decode, Unprotected, Opens;
    var t := Varint.Decode(b[off..]).value;
    i := off + t.size;
    j := i + t.value;
    var l := Varint.Decode(b[j..]).value;
    k := j + l.size;
    TokenMeans(b, off);
    PayloadMeans(b, j);
    o := Unprotected(c, b[..n], k, c.derive(p.version, p.dcid)).value;
    UnprotectsExactly(c, b[..n], k, c.derive(p.version, p.dcid), o);
  }

  /** An Initial is read exactly when its token, its length and its payload are there and the payload opens. */
  ghost predicate ReadsAsInitial(c: Suite, b: seq<byte>, off: nat, p: Packet, q: Packet, n: nat) {
    exists i, j, k, o :: InitialAt(c, b, off, p, q, n, i, j, k, o)
  }

  /** Otherwise it comes back with its header, and with the length of its token if the token is all there. */
  ghost predicate InitialFailed(b: seq<byte>, off: nat, p: Packet, r: Long) {
    && r.size == 0 && r.error == Some(Malformed)
    && (forall i, j :: TokenAt(b, off, i, j) ==> r.packet == Some(p.(tokenLen := j - i)))
    && ((forall i, j :: !TokenAt(b, off, i, j)) ==> r.packet == Some(p))
  }

  lemma InitialExactly(c: Suite, b: seq<byte>, off: nat, p: Packet, q: Packet, n: nat)
    requires Shaped(c) && 0 < off <= |b|
    ensures InitialBody(c, b, off, p) == Long(Some(q), n, None) <==> ReadsAsInitial(c, b, off, p, q, n)
  {
    hide InitialBody, InitialAt;
    if InitialBody(c, b, off, p) == Long(Some(q), n, None) {
      var i, j, k, o := InitialMeans(c, b, off, p, q, n);
    }
    if ReadsAsInitial(c, b, off, p, q, n) {
      var i, j, k, o :| InitialAt(c, b, off, p, q, n, i, j, k, o);
      Positions(c, b, off, p, q, n, i, j, k, o);
      InitialReads(c, b, off, p, q, n, i, j, k, o);
    }
  }

  lemma Positions(c: Suite, b: seq<byte>, off: nat, p: Packet, q: Packet, n: nat, i: int, j: int, k: int, o: Opened)
    requires InitialAt(c, b, off, p, q, n, i, j, k, o)
    ensures 0 <= i && 0 <= j && 0 <= k
  {
    hide IsVarint, Opens;
  }

  lemma InitialFails(c: Suite, b: seq<byte>, off: nat, p: Packet)
    requires Shaped(c) && 0 < off <= |b| && InitialBody(c, b, off, p).error.Some?
    ensures InitialFailed(b, off, p, InitialBody(c, b, off, p))
  {
    hide IsVarint, Varint.Decode, Unprotected;
    TokenMeans(b, off);
    forall i, j | TokenAt(b, off, i, j) ensures InitialBody(c, b, off, p).packet == Some(p.(tokenLen := j - i)) {
      TokenReads(b, off, i, j);
    }
  }

  // ---- any input ------------------------------------------------------------------------------------

  /** What parseLong makes of the bytes behind a header: three versions are known; connection ids go up to 20 bytes; version 2
      has other types for an Initial (1) and a Retry (0) than the others (0 and 3). */
  ghost predicate HeaderMeans(c: Suite, b: seq<byte>, h: Header, r: Long) {
    var bare := Packet(h.version, h.dcid, h.scid, h.ptype, 0, 0, None);
    if h.version !in {0x00000001, 0x6b3343cf, 0xff00001d} then r == Long(Some(bare), 0, Some(UnsupportedVersion))
    else if |h.dcid| > 20 || |h.scid| > 20 then r == Long(None, 0, Some(NotQuic))
    else if h.ptype != (if h.version == 0x6b3343cf then 1 else 0) then
      && r.packet == Some(bare) && r.error == Some(NotInitial)
      && SkippedMeans(b, h.off, h.ptype == (if h.version == 0x6b3343cf then 0 else 3), r.size)
    else
      if r.error.None? then r.packet.Some? && ReadsAsInitial(c, b, h.off, bare, r.packet.value, r.size)
      else InitialFailed(b, h.off, bare, r) && forall q, n: nat :: !ReadsAsInitial(c, b, h.off, bare, q, n)
  }

  ghost predicate SkippedMeans(b: seq<byte>, off: nat, retry: bool, size: nat) {
    if size > 0 then !retry && exists i :: LengthThen(b, off, size, i)
    else retry || forall n: nat, i :: !LengthThen(b, off, n, i)
  }

  lemma SkippedIs(b: seq<byte>, off: nat, retry: bool)
    requires 0 < off <= |b|
    ensures SkippedMeans(b, off, retry, SkipLength(b, off, retry))
  {
    hide LengthThen, SkipLength;
    var size := SkipLength(b, off, retry);
    SkipExactly(b, off, retry, size);
    if size == 0 && !retry {
      forall n: nat, i ensures !LengthThen(b, off, n, i) {
        SkipExactly(b, off, retry, n);
        LengthPositive(b, off, n, i);
      }
    }
  }

  lemma LengthPositive(b: seq<byte>, off: nat, n: nat, i: int)
    requires 0 < off
    ensures LengthThen(b, off, n, i) ==> n > 0
  {
    hide IsVarint;
  }

  lemma InitialIs(c: Suite, b: seq<byte>, off: nat, p: Packet)
    requires Shaped(c) && 0 < off <= |b|
    ensures var r := InitialBody(c, b, off, p);
      if r.error.None? then r.packet.Some? && ReadsAsInitial(c, b, off, p, r.packet.value, r.size)
      else InitialFailed(b, off, p, r) && forall q, n: nat :: !ReadsAsInitial(c, b, off, p, q, n)
  {
    hide InitialBody, ReadsAsInitial, InitialFailed;
    var r := InitialBody(c, b, off, p);
    if r.error.None? {
      InitialExactly(c, b, off, p, r.packet.value, r.size);
    } else {
      InitialFails(c, b, off, p);
      forall q, n: nat ensures !ReadsAsInitial(c, b, off, p, q, n) {
        InitialExactly(c, b, off, p, q, n);
      }
    }
  }

  /** parseLong on every input: no packet without a header, and with one what it calls for. */
  lemma LongExactly(c: Suite, b: seq<byte>)
    requires Shaped(c)
    ensures (forall h :: !HeaderAt(b, h)) ==> ParseLong(c, b) == Long(None, 0, Some(NotQuic))
    ensures forall h :: HeaderAt(b, h) ==> HeaderMeans(c, b, h, ParseLong(c, b))
  {
    hide HeaderOf, HeaderAt, InitialBody, ReadsAsInitial, InitialFailed, SkippedMeans, SkipLength;
    var found := HeaderOf(b);
    if found.Some? {
      var h := found.value;
      HeaderExactly(b, h);
      SkippedIs(b, h.off, h.ptype == RetryType(h.version));
      InitialIs(c, b, h.off, Packet(h.version, h.dcid, h.scid, h.ptype, 0, 0, None));
    }
    forall h | HeaderAt(b, h) ensures HeaderMeans(c, b, h, ParseLong(c, b)) {
      HeaderExactly(b, h);
    }
  }

  // ---- where the walk stops ---------------------------------------------------------------------------

  /** Behind them, what is no long-header packet ends the walk; a packet of an unknown version and an Initial that cannot be
      read come back last, with the error; one whose end cannot be known comes back last, without. */
  lemma WalkStops(c: Suite, ss: seq<Sent>, tail: seq<byte>)
    requires Sound(c) && forall i :: 0 <= i < |ss| ==> ss[i].Valid()
    ensures var w := WalkFrom(c, EncodeAll(c, ss) + tail, []);
            var r := ParseLong(c, tail);
      if tail == [] || tail[0] < 0x80 || r.packet.None? then
        w == Walked(ReceivedAll(ss), if ss == [] then Some(NotQuic) else None)
      else if r.error.Some? && r.error != Some(NotInitial) then w == Walked(ReceivedAll(ss) + [r.packet.value], r.error)
      else if r.size == 0 then w == Walked(ReceivedAll(ss) + [r.packet.value], None)
      else w == WalkFrom(c, tail[r.size..], ReceivedAll(ss) + [r.packet.value])
  {
    hide EncodeAll, ParseLong;
    WalkThen(c, ss, tail, []);
    assert [] + ReceivedAll(ss) == ReceivedAll(ss);
  }
}

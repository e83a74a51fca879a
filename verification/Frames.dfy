/** The frames of a decrypted Initial packet: the parser of internal/quic/frames.go,
    and a printer for the frame types an Initial may carry (section 19 of RFC 9000). */
module Frames {
  import opened Options
  import opened Bytes
  import Varint

  const MAX_ACK_RANGES: nat := 256

  /** One CRYPTO frame: a slice of the handshake stream at an offset. */
  datatype Segment = Segment(offset: nat, data: seq<byte>)

  /** What parseFrames collects; the reason is kept as received, before it is made printable. */
  datatype Summary = Summary(crypto: seq<Segment>, pings: nat, close: bool, closeReason: seq<byte>)

  const EMPTY := Summary([], 0, false, [])

  /** The summary so far, and whether the payload was read to its end without an error. */
  datatype Parsed = Parsed(summary: Summary, ok: bool)

  // ---- what the parser computes -------------------------------------------------

  /** The offset after k consecutive variable-length integers. */
  function SkipVarints(b: seq<byte>, k: nat): (n: Option<nat>)
    ensures n.Some? ==> n.value <= |b|
    decreases k
  {
    if k == 0 then Some(0)
    else
      var r := Varint.Decode(b);
      if r.None? then None
      else
        var rest := SkipVarints(b[r.value.size..], k - 1);
        if rest.None? then None else Some(r.value.size + rest.value)
  }

  /** The fields after an ACK frame's range count: the first range, a gap and a length a range, three ECN counts. */
  function AckFields(count: nat, ecn: bool): nat {
    1 + 2 * count + if ecn then 3 else 0
  }

  /** An ACK frame after its type: `heads` integers, the range count, and the fields the count announces. */
  function AckAfter(b: seq<byte>, heads: nat, ecn: bool): (n: Option<nat>)
    ensures n.Some? ==> n.value <= |b|
  {
    var head := SkipVarints(b, heads);
    if head.None? then None
    else
      var count := Varint.Decode(b[head.value..]);
      if count.None? || count.value.value > MAX_ACK_RANGES then None
      else
        var at := head.value + count.value.size;
        var tail := SkipVarints(b[at..], AckFields(count.value.value, ecn));
        if tail.None? then None else Some(at + tail.value)
  }

  function AckLength(b: seq<byte>, ecn: bool): (n: Option<nat>)
    ensures n.Some? ==> n.value <= |b|
  {
    AckAfter(b, 2, ecn) // largest acknowledged, ack delay
  }

  /** The reason of a CONNECTION_CLOSE and the length of the frame after its type. */
  datatype CloseRead = CloseRead(size: nat, reason: seq<byte>)

  /** A CONNECTION_CLOSE after its type: `heads` integers, then a reason with its length. */
  function CloseAfter(b: seq<byte>, heads: nat): (r: Option<CloseRead>)
    ensures r.Some? ==> r.value.size <= |b|
  {
    var head := SkipVarints(b, heads);
    if head.None? then None
    else
      var ln := Varint.Decode(b[head.value..]);
      if ln.None? then None
      else
        var start := head.value + ln.value.size;
        if ln.value.value > |b| - start then None
        else Some(CloseRead(start + ln.value.value, b[start..start + ln.value.value]))
  }

  function CloseLength(b: seq<byte>, transport: bool): (r: Option<CloseRead>)
    ensures r.Some? ==> r.value.size <= |b|
  {
    CloseAfter(b, if transport then 2 else 1) // error code, and the offending frame type
  }

  /** A CRYPTO frame at the start of b, whose first byte is its type, and where it ends. */
  datatype CryptoRead = CryptoRead(segment: Segment, end: nat)

  function CryptoAt(b: seq<byte>): (r: Option<CryptoRead>)
    requires b != []
    ensures r.Some? ==> 0 < r.value.end <= |b|
  {
    var off := Varint.Decode(b[1..]);
    if off.None? then None
    else
      var ln := Varint.Decode(b[1 + off.value.size..]);
      if ln.None? then None
      else
        var start := 1 + off.value.size + ln.value.size;
        if ln.value.value > |b| - start then None
        else
          var end := start + ln.value.value;
          Some(CryptoRead(Segment(off.value.value, b[start..end]), end))
  }

  /** parseFrames from summary f on: one frame at a time, stopping at the first that is cut short or not allowed. */
  function ParseFrom(b: seq<byte>, f: Summary): (r: Parsed)
    decreases |b|
  {
    if b == [] then Parsed(f, true)
    else if b[0] == 0x00 then ParseFrom(b[1..], f)
    else if b[0] == 0x01 then ParseFrom(b[1..], f.(pings := f.pings + 1))
    else if b[0] == 0x02 || b[0] == 0x03 then
      var n := AckLength(b[1..], b[0] == 0x03);
      if n.None? then Parsed(f, false) else ParseFrom(b[1 + n.value..], f)
    else if b[0] == 0x06 then
      var c := CryptoAt(b);
      if c.None? then Parsed(f, false)
      else ParseFrom(b[c.value.end..], f.(crypto := f.crypto + [c.value.segment]))
    else if b[0] == 0x1c || b[0] == 0x1d then
      var c := CloseLength(b[1..], b[0] == 0x1c);
      if c.None? then Parsed(f, false)
      else ParseFrom(b[1 + c.value.size..], f.(close := true, closeReason := c.value.reason))
    else Parsed(f, false)
  }

  // ---- the parser ---------------------------------------------------------------

  /** varintReader: a cursor over a payload that a failed read leaves in place. */
  class VarintReader {
    const b: seq<byte>
    var off: nat

    ghost predicate Valid()
      reads this
    {
      off <= |b|
    }

    constructor (b: seq<byte>)
      ensures Valid() && this.b == b && off == 0
    {
      this.b := b;
      off := 0;
    }

    method Next() returns (v: Option<nat>)
      requires Valid()
      modifies this
      ensures Valid()
      ensures match Varint.Decode(b[old(off)..])
              case None => v == None && off == old(off)
              case Some(r) => v == Some(r.value) && off == old(off) + r.size
    {
      var r := Varint.ReadVarint(b[off..]);
      if r.None? {
        return None;
      }
      off := off + r.value.size;
      return Some(r.value.value);
    }
  }

  lemma SkipOneMore(b: seq<byte>, at: nat, k: nat)
    requires at <= |b| && k > 0
    ensures match Varint.Decode(b[at..])
            case None => SkipVarints(b[at..], k) == None
            case Some(r) =>
              (match SkipVarints(b[at + r.size..], k - 1)
               case None => SkipVarints(b[at..], k) == None
               case Some(n) => SkipVarints(b[at..], k) == Some(r.size + n))
  {
    hide Varint.Decode;
    var r := Varint.Decode(b[at..]);
    if r.Some? {
      assert b[at..][r.value.size..] == b[at + r.value.size..];
    }
  }

  /** The loop of skipAck that reads k integers and ignores them. */
  method SkipFields(r: VarintReader, k: nat) returns (ok: bool)
    requires r.Valid()
    modifies r
    ensures r.Valid()
    ensures ok <==> SkipVarints(r.b[old(r.off)..], k).Some?
    ensures ok ==> r.off == old(r.off) + SkipVarints(r.b[old(r.off)..], k).value
  {
    hide Varint.Decode;
    var i := 0;
    ghost var whole := SkipVarints(r.b[r.off..], k);
    while i < k
      invariant 0 <= i <= k && r.Valid() && r.off >= old(r.off)
      invariant whole.Some? <==> SkipVarints(r.b[r.off..], k - i).Some?
      invariant whole.Some? ==> old(r.off) + whole.value == r.off + SkipVarints(r.b[r.off..], k - i).value
    {
      SkipOneMore(r.b, r.off, k - i);
      var v := r.Next();
      if v.None? {
        return false;
      }
      i := i + 1;
    }
    return true;
  }

  method SkipAck(b: seq<byte>, ecn: bool) returns (n: Option<nat>)
    ensures n == AckLength(b, ecn)
  {
    hide AckAfter;
    n := SkipAckAfter(b, 2, ecn);
  }

  method SkipAckAfter(b: seq<byte>, heads: nat, ecn: bool) returns (n: Option<nat>)
    ensures n == AckAfter(b, heads, ecn)
  {
    hide SkipVarints, Varint.Decode;
    var r := new VarintReader(b);
    assert b[0..] == b;
    var ok := SkipFields(r, heads);
    if !ok {
      return None;
    }
    var count := r.Next();
    if count.None? || count.value > MAX_ACK_RANGES {
      return None;
    }
    var fields := 1 + 2 * count.value;
    if ecn {
      fields := fields + 3;
    }
    ok := SkipFields(r, fields);
    if !ok {
      return None;
    }
    return Some(r.off);
  }

  method ReadClose(b: seq<byte>, transport: bool) returns (c: Option<CloseRead>)
    ensures c == CloseLength(b, transport)
  {
    hide CloseAfter;
    c := ReadCloseAfter(b, if transport then 2 else 1);
  }

  method ReadCloseAfter(b: seq<byte>, heads: nat) returns (c: Option<CloseRead>)
    ensures c == CloseAfter(b, heads)
  {
    hide SkipVarints, Varint.Decode;
    var r := new VarintReader(b);
    assert b[0..] == b;
    var ok := SkipFields(r, heads);
    if !ok {
      return None;
    }
    var ln := r.Next();
    if ln.None? || ln.value > |b| - r.off {
      return None;
    }
    return Some(CloseRead(r.off + ln.value, b[r.off..r.off + ln.value]));
  }

  /** The CRYPTO case of parseFrames. */
  method ReadCrypto(b: seq<byte>) returns (c: Option<CryptoRead>)
    requires b != []
    ensures c == CryptoAt(b)
  {
    hide Varint.Decode;
    var off := Varint.ReadVarint(b[1..]);
    if off.None? {
      return None;
    }
    var ln := Varint.ReadVarint(b[1 + off.value.size..]);
    if ln.None? {
      return None;
    }
    var start := 1 + off.value.size + ln.value.size;
    if ln.value.value > |b| - start {
      return None;
    }
    var end := start + ln.value.value;
    return Some(CryptoRead(Segment(off.value.value, b[start..end]), end));
  }

  /** parseFrames: the loop that re-slices the payload. */
  method ParseFrames(payload: seq<byte>) returns (r: Parsed)
    ensures r == ParseFrom(payload, EMPTY)
  {
    hide AckLength, CloseLength, CryptoAt;
    var b, f := payload, EMPTY;
    while |b| > 0
      invariant ParseFrom(b, f) == ParseFrom(payload, EMPTY)
      decreases |b|
    {
      var t := b[0];
      if t == 0x00 {
        b := b[1..];
      } else if t == 0x01 {
        b, f := b[1..], f.(pings := f.pings + 1);
      } else if t == 0x02 || t == 0x03 {
        var n := SkipAck(b[1..], t == 0x03);
        if n.None? {
          return Parsed(f, false);
        }
        b := b[1 + n.value..];
      } else if t == 0x06 {
        var c := ReadCrypto(b);
        if c.None? {
          return Parsed(f, false);
        }
        f := f.(crypto := f.crypto + [c.value.segment]);
        b := b[c.value.end..];
      } else if t == 0x1c || t == 0x1d {
        var c := ReadClose(b[1..], t == 0x1c);
        if c.None? {
          return Parsed(f, false);
        }
        f := f.(close := true, closeReason := c.value.reason);
        b := b[1 + c.value.size..];
      } else {
        return Parsed(f, false);
      }
    }
    return Parsed(f, true);
  }

  // ---- the printer and the round trip --------------------------------------------

  /** The frame types an Initial may carry; an ACK's fields follow its range count. */
  datatype Frame =
    | Padding
    | Ping
    | Ack(ecn: bool, largest: nat, delay: nat, count: nat, fields: seq<nat>)
    | Crypto(segment: Segment)
    | Close(transport: bool, codes: seq<nat>, reason: seq<byte>)
  {
    /** The frame's numbers fit their fields, and the parser's ACK bound holds. */
    ghost predicate Valid() {
      match this
      case Padding => true
      case Ping => true
      case Ack(ecn, largest, delay, count, fields) =>
        && largest < Varint.LIMIT && delay < Varint.LIMIT && count <= MAX_ACK_RANGES
        && |fields| == AckFields(count, ecn)
        && forall i :: 0 <= i < |fields| ==> fields[i] < Varint.LIMIT
      case Crypto(s) => s.offset < Varint.LIMIT && |s.data| < Varint.LIMIT
      case Close(transport, codes, reason) =>
        && |codes| == (if transport then 2 else 1)
        && (forall i :: 0 <= i < |codes| ==> codes[i] < Varint.LIMIT)
        && |reason| < Varint.LIMIT
    }
  }

  function EncodeVarints(vs: seq<nat>): seq<byte>
    requires forall i :: 0 <= i < |vs| ==> vs[i] < Varint.LIMIT
  {
    if vs == [] then [] else Varint.Encode(vs[0]) + EncodeVarints(vs[1..])
  }

  /** quictest.Crypto. */
  function EncodeCrypto(s: Segment): (b: seq<byte>)
    requires s.offset < Varint.LIMIT && |s.data| < Varint.LIMIT
  {
    [0x06] + Varint.Encode(s.offset) + Varint.Encode(|s.data|) + s.data
  }

  function AckBody(heads: seq<nat>, count: nat, fields: seq<nat>): (b: seq<byte>)
    requires count < Varint.LIMIT
    requires forall i :: 0 <= i < |heads| ==> heads[i] < Varint.LIMIT
    requires forall i :: 0 <= i < |fields| ==> fields[i] < Varint.LIMIT
  {
    EncodeVarints(heads) + (Varint.Encode(count) + EncodeVarints(fields))
  }

  function CloseBody(codes: seq<nat>, reason: seq<byte>): (b: seq<byte>)
    requires |reason| < Varint.LIMIT
    requires forall i :: 0 <= i < |codes| ==> codes[i] < Varint.LIMIT
  {
    EncodeVarints(codes) + (Varint.Encode(|reason|) + reason)
  }

  function EncodeFrame(f: Frame): (b: seq<byte>)
    requires f.Valid()
    ensures b != []
  {
    match f
    case Padding => [0x00]
    case Ping => [0x01]
    case Ack(ecn, largest, delay, count, fields) =>
      [if ecn then 0x03 else 0x02] + AckBody([largest, delay], count, fields)
    case Crypto(s) => EncodeCrypto(s)
    case Close(transport, codes, reason) =>
      [if transport then 0x1c else 0x1d] + CloseBody(codes, reason)
  }

  ghost predicate AllValid(fs: seq<Frame>) {
    forall i :: 0 <= i < |fs| ==> fs[i].Valid()
  }

  function EncodeFrames(fs: seq<Frame>): (b: seq<byte>)
    requires AllValid(fs)
  {
    if fs == [] then [] else EncodeFrame(fs[0]) + EncodeFrames(fs[1..])
  }

  /** What a frame adds to a summary. */
  function Fold(f: Summary, fr: Frame): Summary {
    match fr
    case Padding => f
    case Ping => f.(pings := f.pings + 1)
    case Ack(_, _, _, _, _) => f
    case Crypto(s) => f.(crypto := f.crypto + [s])
    case Close(_, _, reason) => f.(close := true, closeReason := reason)
  }

  function FoldAll(f: Summary, fs: seq<Frame>): Summary
    decreases |fs|
  {
    if fs == [] then f else FoldAll(Fold(f, fs[0]), fs[1..])
  }

  /** The CRYPTO segments of a list of frames, in order. */
  function CryptoOf(fs: seq<Frame>): seq<Segment> {
    if fs == [] then []
    else (if fs[0].Crypto? then [fs[0].segment] else []) + CryptoOf(fs[1..])
  }

  lemma {:induction false} SkipEncoded(vs: seq<nat>, rest: seq<byte>)
    requires forall i :: 0 <= i < |vs| ==> vs[i] < Varint.LIMIT
    ensures SkipVarints(EncodeVarints(vs) + rest, |vs|) == Some(|EncodeVarints(vs)|)
    decreases |vs|
  {
    hide Varint.Decode, Varint.Encode;
    if vs != [] {
      var tail := EncodeVarints(vs[1..]) + rest;
      assert EncodeVarints(vs) + rest == Varint.Encode(vs[0]) + tail;
      Varint.RoundTrip(vs[0], tail);
      assert (EncodeVarints(vs) + rest)[|Varint.Encode(vs[0])|..] == tail;
      SkipEncoded(vs[1..], rest);
    }
  }

  lemma AckBodyRead(heads: seq<nat>, count: nat, fields: seq<nat>, ecn: bool, rest: seq<byte>)
    requires count <= MAX_ACK_RANGES && |fields| == AckFields(count, ecn)
    requires forall i :: 0 <= i < |heads| ==> heads[i] < Varint.LIMIT
    requires forall i :: 0 <= i < |fields| ==> fields[i] < Varint.LIMIT
    ensures AckAfter(AckBody(heads, count, fields) + rest, |heads|, ecn) == Some(|AckBody(heads, count, fields)|)
  {
    hide SkipVarints, Varint.Decode, Varint.Encode, EncodeVarints;
    var h, c, t := EncodeVarints(heads), Varint.Encode(count), EncodeVarints(fields);
    var b := AckBody(heads, count, fields) + rest;
    assert b == h + (c + (t + rest));
    assert b[|h|..] == c + (t + rest);
    assert b[|h| + |c|..] == t + rest;
    SkipEncoded(heads, c + (t + rest));
    Varint.RoundTrip(count, t + rest);
    SkipEncoded(fields, rest);
  }

  lemma AckAt(b: seq<byte>, f: Summary, n: nat)
    requires b != [] && (b[0] == 0x02 || b[0] == 0x03)
    requires AckLength(b[1..], b[0] == 0x03) == Some(n)
    ensures ParseFrom(b, f) == ParseFrom(b[1 + n..], f)
  {
    hide AckLength, CryptoAt, CloseLength;
  }

  lemma BehindType(t: byte, body: seq<byte>, rest: seq<byte>)
    ensures var b := [t] + body + rest; b[0] == t && b[1..] == body + rest && b[1 + |body|..] == rest
  {}

  lemma AckStep(body: seq<byte>, ecn: bool, rest: seq<byte>, f: Summary)
    requires AckLength(body + rest, ecn) == Some(|body|)
    ensures ParseFrom([if ecn then 0x03 else 0x02] + body + rest, f) == ParseFrom(rest, f)
  {
    hide AckLength, ParseFrom;
    var t: byte := if ecn then 0x03 else 0x02;
    var b := [t] + body + rest;
    BehindType(t, body, rest);
    assert (b[0] == 0x03) == ecn;
    AckAt(b, f, |body|);
  }

  lemma CloseBodyRead(codes: seq<nat>, reason: seq<byte>, rest: seq<byte>)
    requires |reason| < Varint.LIMIT
    requires forall i :: 0 <= i < |codes| ==> codes[i] < Varint.LIMIT
    ensures CloseAfter(CloseBody(codes, reason) + rest, |codes|)
            == Some(CloseRead(|CloseBody(codes, reason)|, reason))
  {
    hide SkipVarints, Varint.Decode, Varint.Encode, EncodeVarints;
    var h, c := EncodeVarints(codes), Varint.Encode(|reason|);
    var b := CloseBody(codes, reason) + rest;
    assert b == h + (c + (reason + rest));
    assert b[|h|..] == c + (reason + rest);
    assert b[|h| + |c|..|h| + |c| + |reason|] == reason;
    SkipEncoded(codes, c + (reason + rest));
    Varint.RoundTrip(|reason|, reason + rest);
  }

  lemma CloseAt(b: seq<byte>, f: Summary, c: CloseRead)
    requires b != [] && (b[0] == 0x1c || b[0] == 0x1d)
    requires CloseLength(b[1..], b[0] == 0x1c) == Some(c)
    ensures ParseFrom(b, f) == ParseFrom(b[1 + c.size..], f.(close := true, closeReason := c.reason))
  {
    hide AckLength, CryptoAt, CloseLength;
  }

  lemma CloseStep(body: seq<byte>, reason: seq<byte>, transport: bool, rest: seq<byte>, f: Summary)
    requires CloseLength(body + rest, transport) == Some(CloseRead(|body|, reason))
    ensures ParseFrom([if transport then 0x1c else 0x1d] + body + rest, f)
            == ParseFrom(rest, f.(close := true, closeReason := reason))
  {
    hide CloseLength, ParseFrom;
    var t: byte := if transport then 0x1c else 0x1d;
    var b := [t] + body + rest;
    BehindType(t, body, rest);
    assert (b[0] == 0x1c) == transport;
    CloseAt(b, f, CloseRead(|body|, reason));
  }

  lemma CryptoEncoded(s: Segment, rest: seq<byte>)
    requires s.offset < Varint.LIMIT && |s.data| < Varint.LIMIT
    ensures CryptoAt(EncodeCrypto(s) + rest) == Some(CryptoRead(s, |EncodeCrypto(s)|))
  {
    hide Varint.Decode, Varint.Encode;
    var b := EncodeCrypto(s) + rest;
    var n1, n2 := |Varint.Encode(s.offset)|, |Varint.Encode(|s.data|)|;
    assert b[1..] == Varint.Encode(s.offset) + (Varint.Encode(|s.data|) + (s.data + rest));
    Varint.RoundTrip(s.offset, Varint.Encode(|s.data|) + (s.data + rest));
    assert b[1 + n1..] == Varint.Encode(|s.data|) + (s.data + rest);
    Varint.RoundTrip(|s.data|, s.data + rest);
    assert b[1 + n1 + n2..1 + n1 + n2 + |s.data|] == s.data;
  }

  lemma CryptoFrameAt(b: seq<byte>, f: Summary, c: CryptoRead)
    requires b != [] && b[0] == 0x06 && CryptoAt(b) == Some(c)
    ensures ParseFrom(b, f) == ParseFrom(b[c.end..], f.(crypto := f.crypto + [c.segment]))
  {
    hide AckLength, CryptoAt, CloseLength;
  }

  lemma CryptoStep(s: Segment, rest: seq<byte>, f: Summary)
    requires s.offset < Varint.LIMIT && |s.data| < Varint.LIMIT
    ensures ParseFrom(EncodeCrypto(s) + rest, f) == ParseFrom(rest, f.(crypto := f.crypto + [s]))
  {
    hide CryptoAt, ParseFrom;
    var b := EncodeCrypto(s) + rest;
    CryptoEncoded(s, rest);
    assert b[|EncodeCrypto(s)|..] == rest;
    CryptoFrameAt(b, f, CryptoRead(s, |EncodeCrypto(s)|));
  }

  /** One printed frame, whatever follows, is consumed exactly and adds exactly itself. */
  lemma FrameStep(fr: Frame, rest: seq<byte>, f: Summary)
    requires fr.Valid()
    ensures ParseFrom(EncodeFrame(fr) + rest, f) == ParseFrom(rest, Fold(f, fr))
  {
    hide AckBody, CloseBody, EncodeCrypto, AckAfter, CloseAfter, CryptoAt;
    match fr
    case Padding => assert (EncodeFrame(fr) + rest)[1..] == rest;
    case Ping => assert (EncodeFrame(fr) + rest)[1..] == rest;
    case Ack(ecn, largest, delay, count, fields) =>
      AckBodyRead([largest, delay], count, fields, ecn, rest);
      AckStep(AckBody([largest, delay], count, fields), ecn, rest, f);
    case Crypto(segment) => CryptoStep(segment, rest, f);
    case Close(transport, codes, reason) =>
      CloseBodyRead(codes, reason, rest);
      CloseStep(CloseBody(codes, reason), reason, transport, rest, f);
  }

  /** Any list of printed frames is read back frame by frame, whatever bytes come after it;
      so what precedes a damaged or disallowed frame is kept. */
  lemma {:induction false} FramesThen(fs: seq<Frame>, tail: seq<byte>, f: Summary)
    requires AllValid(fs)
    ensures ParseFrom(EncodeFrames(fs) + tail, f) == ParseFrom(tail, FoldAll(f, fs))
    decreases |fs|
  {
    if fs == [] {
      assert EncodeFrames(fs) + tail == tail;
    } else {
      var rest := EncodeFrames(fs[1..]) + tail;
      assert EncodeFrames(fs) + tail == EncodeFrame(fs[0]) + rest;
      FrameStep(fs[0], rest, f);
      FramesThen(fs[1..], tail, Fold(f, fs[0]));
    }
  }

  /** parseFrames inverts the printer on every list of allowed frames. */
  lemma FramesRoundTrip(fs: seq<Frame>)
    requires AllValid(fs)
    ensures ParseFrom(EncodeFrames(fs), EMPTY) == Parsed(FoldAll(EMPTY, fs), true)
  {
    assert EncodeFrames(fs) + [] == EncodeFrames(fs);
    FramesThen(fs, [], EMPTY);
  }
}

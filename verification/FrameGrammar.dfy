/** The payload of an Initial as a grammar: which bytes parseFrames of internal/quic/frames.go takes for which frames, whatever
    width their integers are written in, and where it stops (sections 16 and 19 of RFC 9000). */
module FrameGrammar {
  import opened Options
  import opened Bytes
  import opened Frames
  import Varint

  // ---- integers ----------------------------------------------------------------------------------

  /** v in 1, 2, 4 or 8 bytes, big-endian, with the logarithm of that length in the two high bits. */
  ghost predicate IsVarint(b: seq<byte>, v: nat) {
    || (|b| == 1 && v < 0x40 && BigEndian(b) == v)
    || (|b| == 2 && v < 0x4000 && BigEndian(b) == 0x4000 + v)
    || (|b| == 4 && v < 0x4000_0000 && BigEndian(b) == 0x8000_0000 + v)
    || (|b| == 8 && v < 0x4000_0000_0000_0000 && BigEndian(b) == 0xc000_0000_0000_0000 + v)
  }

  lemma {:induction false} BigEndianFirst(x: byte, rest: seq<byte>)
    ensures BigEndian([x] + rest) == x * Pow256(|rest|) + BigEndian(rest)
  {
    hide BigEndian;
    if rest == [] {
      assert [x] + rest == [x];
      BigEndianOne(x);
      BigEndianNone();
    } else {
      var front, last := rest[..|rest| - 1], rest[|rest| - 1];
      assert [x] + rest == ([x] + front) + [last];
      assert rest == front + [last];
      BigEndianSnoc([x] + front, last);
      BigEndianSnoc(front, last);
      BigEndianFirst(x, front);
      assert x * Pow256(|front|) * 256 == x * (256 * Pow256(|front|));
    }
  }

  lemma BigEndianNone()
    ensures BigEndian([]) == 0
  {}

  /** Of n bytes led by x, the two high bits of x and the rest of the number. */
  lemma TagAndRest(x: byte, rest: seq<byte>)
    ensures var low := BigEndian([x % 64] + rest);
      BigEndian([x] + rest) == x / 64 * 64 * Pow256(|rest|) + low && low < 64 * Pow256(|rest|)
  {
    hide BigEndian;
    var p := Pow256(|rest|);
    BigEndianFirst(x, rest);
    BigEndianFirst(x % 64, rest);
    BigEndianBound(rest);
    TagTimes(x as int, p);
  }

  lemma TagTimes(x: nat, p: nat)
    ensures x * p == x / 64 * 64 * p + x % 64 * p && x % 64 * p + p <= 64 * p
  {
    var high, low := x / 64 * 64, x % 64;
    assert x == high + low && (high + low) * p == high * p + low * p;
    MulMonotone(low + 1, 64, p, p);
    assert (low + 1) * p == low * p + p;
  }

  lemma Widths(x: byte, rest: seq<byte>)
    requires |rest| in {0, 1, 3, 7}
    ensures var low := BigEndian([x % 64] + rest);
            var all := BigEndian([x] + rest);
      && (|rest| == 0 ==> low < 0x40 && all == x / 64 * 0x40 + low)
      && (|rest| == 1 ==> low < 0x4000 && all == x / 64 * 0x4000 + low)
      && (|rest| == 3 ==> low < 0x4000_0000 && all == x / 64 * 0x4000_0000 + low)
      && (|rest| == 7 ==> low < 0x4000_0000_0000_0000 && all == x / 64 * 0x4000_0000_0000_0000 + low)
  {
    hide BigEndian;
    TagAndRest(x, rest);
    Varint.Powers();
  }

  /** With one of the four lengths, the bytes are some integer exactly when their first byte announces that length. */
  lemma VarintBytes(b: seq<byte>, v: nat)
    requires b != []
    ensures IsVarint(b, v) <==> |b| == Varint.Width(b[0]) && v == BigEndian([b[0] % 64] + b[1..])
  {
    hide BigEndian;
    assert b == [b[0]] + b[1..];
    if |b| in {1, 2, 4, 8} {
      Widths(b[0], b[1..]);
    }
  }

  /** readVarint reads v from the first n bytes exactly when they are an integer of that value. */
  lemma DecodeExactly(b: seq<byte>, v: nat, n: nat)
    ensures Varint.Decode(b) == Some(Varint.Read(v, n)) <==> n <= |b| && IsVarint(b[..n], v)
  {
    if 0 < n <= |b| {
      VarintBytes(b[..n], v);
      assert b[..n][1..] == b[1..n];
    }
    hide BigEndian;
  }

  /** One integer after another. */
  ghost predicate AreVarints(b: seq<byte>, vs: seq<nat>)
    decreases |vs|
  {
    if vs == [] then b == []
    else exists n :: VarintFirst(b, vs[0], n) && AreVarints(b[n..], vs[1..])
  }

  ghost predicate VarintFirst(b: seq<byte>, v: nat, n: int) {
    0 <= n <= |b| && IsVarint(b[..n], v)
  }

  lemma {:induction false} SkipReads(b: seq<byte>, vs: seq<nat>, n: nat)
    requires n <= |b| && AreVarints(b[..n], vs)
    ensures SkipVarints(b, |vs|) == Some(n)
    decreases |vs|
  {
    hide IsVarint, Varint.Decode;
    if vs != [] {
      var m :| VarintFirst(b[..n], vs[0], m) && AreVarints(b[..n][m..], vs[1..]);
      assert b[..n][..m] == b[..m];
      DecodeExactly(b, vs[0], m);
      assert b[..n][m..] == b[m..][..n - m];
      SkipReads(b[m..], vs[1..], n - m);
    }
  }

  lemma {:induction false} SkipMeans(b: seq<byte>, k: nat) returns (vs: seq<nat>)
    requires SkipVarints(b, k).Some?
    ensures |vs| == k && AreVarints(b[..SkipVarints(b, k).value], vs)
    decreases k
  {
    hide IsVarint, Varint.Decode;
    vs := [];
    if k > 0 {
      var r := Varint.Decode(b).value;
      DecodeExactly(b, r.value, r.size);
      var ws := SkipMeans(b[r.size..], k - 1);
      vs := [r.value] + ws;
      var x := b[..SkipVarints(b, k).value];
      assert x[..r.size] == b[..r.size];
      assert x[r.size..] == b[r.size..][..SkipVarints(b[r.size..], k - 1).value];
      assert vs[1..] == ws;
      assert VarintFirst(x, vs[0], r.size);
    }
  }

  // ---- frames ------------------------------------------------------------------------------------

  /** The slices b[from..i] and b[i..j] and what is behind them. */
  predicate Cuts(b: seq<byte>, from: nat, i: int, j: int) {
    from <= i <= j <= |b|
  }

  ghost predicate CryptoWire(b: seq<byte>, s: Segment, i: int, j: int) {
    Cuts(b, 1, i, j) && IsVarint(b[1..i], s.offset) && IsVarint(b[i..j], |s.data|) && b[j..] == s.data
  }

  ghost predicate AckWire(b: seq<byte>, heads: seq<nat>, count: nat, fields: seq<nat>, i: int, j: int) {
    Cuts(b, 1, i, j) && AreVarints(b[1..i], heads) && IsVarint(b[i..j], count) && AreVarints(b[j..], fields)
  }

  ghost predicate CloseWire(b: seq<byte>, codes: seq<nat>, reason: seq<byte>, i: int, j: int) {
    Cuts(b, 1, i, j) && AreVarints(b[1..i], codes) && IsVarint(b[i..j], |reason|) && b[j..] == reason
  }

  /** The bytes are the frame: one of the types an Initial may carry. An ACK has at most 256 ranges, each a gap and a length,
      besides the first, and with ECN three counts. A CONNECTION_CLOSE of type 0x1c names a frame type beside its code. */
  ghost predicate IsFrame(b: seq<byte>, fr: Frame) {
    b != [] && match fr
      case Padding => b == [0x00]
      case Ping => b == [0x01]
      case Ack(ecn, largest, delay, count, fields) =>
        && b[0] == (if ecn then 0x03 else 0x02) && count <= 256 && |fields| == 1 + 2 * count + (if ecn then 3 else 0)
        && exists i, j :: AckWire(b, [largest, delay], count, fields, i, j)
      case Crypto(s) => b[0] == 0x06 && exists i, j :: CryptoWire(b, s, i, j)
      case Close(transport, codes, reason) =>
        && b[0] == (if transport then 0x1c else 0x1d) && |codes| == (if transport then 2 else 1)
        && exists i, j :: CloseWire(b, codes, reason, i, j)
  }

  /** The frame is at the front of b, in n bytes. */
  ghost predicate FrameFirst(b: seq<byte>, fr: Frame, n: int) {
    0 <= n <= |b| && IsFrame(b[..n], fr)
  }

  ghost predicate AreFrames(b: seq<byte>, fs: seq<Frame>)
    decreases |fs|
  {
    if fs == [] then b == []
    else exists n :: 0 <= n <= |b| && FrameFirst(b, fs[0], n) && AreFrames(b[n..], fs[1..])
  }

  /** The same slices, counted from the first byte and from the one behind it. */
  lemma BehindFirst(b: seq<byte>, n: nat, i: nat, j: nat)
    requires i <= j < n <= |b|
    ensures b[..n][1..1 + i] == b[1..][..i]
    ensures b[..n][1 + i..1 + j] == b[1..][i..][..j - i]
    ensures b[..n][1 + j..] == b[1..][j..][..n - 1 - j] == b[1..][j..n - 1]
  {
    assert b[..n][1..1 + i] == b[1..1 + i] == b[1..][..i];
    assert b[..n][1 + i..1 + j] == b[1 + i..1 + j];
    assert b[1..][i..][..j - i] == b[1 + i..1 + j];
    assert b[..n][1 + j..] == b[1 + j..n];
    assert b[1..][j..][..n - 1 - j] == b[1 + j..n];
    assert b[1..][j..n - 1] == b[1 + j..n];
  }

  lemma AckReads(b: seq<byte>, ecn: bool, heads: seq<nat>, count: nat, fields: seq<nat>, n: nat, i: nat, j: nat)
    requires 0 < n <= |b| && AckWire(b[..n], heads, count, fields, i, j)
    requires count <= 256 && |fields| == AckFields(count, ecn)
    ensures AckAfter(b[1..], |heads|, ecn) == Some(n - 1)
  {
    hide IsVarint, AreVarints, Varint.Decode, SkipVarints;
    var x := b[1..];
    BehindFirst(b, n, i - 1, j - 1);
    SkipReads(x, heads, i - 1);
    DecodeExactly(x[i - 1..], count, j - i);
    SkipReads(x[j - 1..], fields, n - j);
  }

  lemma AckMeans(b: seq<byte>, ecn: bool) returns (fr: Frame)
    requires b != [] && b[0] == (if ecn then 0x03 else 0x02) && AckLength(b[1..], ecn).Some?
    ensures fr.Ack? && FrameFirst(b, fr, 1 + AckLength(b[1..], ecn).value)
  {
    hide IsVarint, AreVarints, Varint.Decode, SkipVarints;
    var x := b[1..];
    var h := SkipVarints(x, 2).value;
    var c := Varint.Decode(x[h..]).value;
    var at := h + c.size;
    var n := 1 + AckLength(x, ecn).value;
    var heads := SkipMeans(x, 2);
    DecodeExactly(x[h..], c.value, c.size);
    var fields := SkipMeans(x[at..], AckFields(c.value, ecn));
    fr := Ack(ecn, heads[0], heads[1], c.value, fields);
    assert heads == [heads[0], heads[1]];
    var y := b[..n];
    BehindFirst(b, n, h, at);
    assert AckWire(y, [heads[0], heads[1]], c.value, fields, 1 + h, 1 + at);
  }

  lemma CryptoReads(b: seq<byte>, s: Segment, n: nat, i: nat, j: nat)
    requires 0 < n <= |b| && CryptoWire(b[..n], s, i, j)
    ensures CryptoAt(b) == Some(CryptoRead(s, n))
  {
    hide IsVarint, Varint.Decode;
    assert b[..n][1..i] == b[1..][..i - 1];
    DecodeExactly(b[1..], s.offset, i - 1);
    assert b[..n][i..j] == b[i..][..j - i];
    DecodeExactly(b[i..], |s.data|, j - i);
    assert b[..n][j..] == b[j..n];
  }

  lemma CryptoMeans(b: seq<byte>) returns (fr: Frame)
    requires b != [] && b[0] == 0x06 && CryptoAt(b).Some?
    ensures fr == Crypto(CryptoAt(b).value.segment) && FrameFirst(b, fr, CryptoAt(b).value.end)
  {
    hide IsVarint, Varint.Decode;
    var CryptoRead(s, n) := CryptoAt(b).value;
    var o := Varint.Decode(b[1..]).value;
    var i := 1 + o.size;
    var l := Varint.Decode(b[i..]).value;
    var j := i + l.size;
    DecodeExactly(b[1..], o.value, o.size);
    DecodeExactly(b[i..], l.value, l.size);
    fr := Crypto(s);
    var y := b[..n];
    assert y[1..i] == b[1..][..o.size];
    assert y[i..j] == b[i..][..l.size];
    assert y[j..] == b[j..n];
    assert CryptoWire(y, s, i, j);
  }

  lemma CloseReads(b: seq<byte>, codes: seq<nat>, reason: seq<byte>, n: nat, i: nat, j: nat)
    requires 0 < n <= |b| && CloseWire(b[..n], codes, reason, i, j)
    ensures CloseAfter(b[1..], |codes|) == Some(CloseRead(n - 1, reason))
  {
    hide IsVarint, AreVarints, Varint.Decode, SkipVarints;
    var x := b[1..];
    BehindFirst(b, n, i - 1, j - 1);
    SkipReads(x, codes, i - 1);
    DecodeExactly(x[i - 1..], |reason|, j - i);
  }

  lemma CloseMeans(b: seq<byte>, transport: bool) returns (fr: Frame)
    requires b != [] && b[0] == (if transport then 0x1c else 0x1d) && CloseLength(b[1..], transport).Some?
    ensures var c := CloseLength(b[1..], transport).value;
            fr.Close? && fr.reason == c.reason && FrameFirst(b, fr, 1 + c.size)
  {
    hide IsVarint, AreVarints, Varint.Decode, SkipVarints;
    var x := b[1..];
    var k := if transport then 2 else 1;
    var c := CloseLength(x, transport).value;
    var h := SkipVarints(x, k).value;
    var l := Varint.Decode(x[h..]).value;
    var codes := SkipMeans(x, k);
    DecodeExactly(x[h..], l.value, l.size);
    fr := Close(transport, codes, c.reason);
    var n := 1 + c.size;
    var y := b[..n];
    BehindFirst(b, n, h, h + l.size);
    assert CloseWire(y, codes, c.reason, 1 + h, 1 + h + l.size);
  }

  lemma AckIsRead(b: seq<byte>, fr: Frame, n: nat, f: Summary)
    requires fr.Ack? && FrameFirst(b, fr, n)
    ensures 0 < n && ParseFrom(b, f) == ParseFrom(b[n..], f)
  {
    hide IsVarint, AreVarints, ParseFrom;
    var heads := [fr.largest, fr.delay];
    assert b[..n][0] == b[0];
    var i, j :| AckWire(b[..n], heads, fr.count, fr.fields, i, j);
    hide AckAfter, AckWire;
    AckReads(b, fr.ecn, heads, fr.count, fr.fields, n, i, j);
    AckAt(b, f, n - 1);
  }

  lemma CryptoIsRead(b: seq<byte>, fr: Frame, n: nat, f: Summary)
    requires fr.Crypto? && FrameFirst(b, fr, n)
    ensures 0 < n && ParseFrom(b, f) == ParseFrom(b[n..], f.(crypto := f.crypto + [fr.segment]))
  {
    hide IsVarint, AreVarints, ParseFrom;
    assert b[..n][0] == b[0];
    var i, j :| CryptoWire(b[..n], fr.segment, i, j);
    hide CryptoAt, CryptoWire;
    CryptoReads(b, fr.segment, n, i, j);
    CryptoFrameAt(b, f, CryptoRead(fr.segment, n));
  }

  lemma CloseIsRead(b: seq<byte>, fr: Frame, n: nat, f: Summary)
    requires fr.Close? && FrameFirst(b, fr, n)
    ensures 0 < n && ParseFrom(b, f) == ParseFrom(b[n..], f.(close := true, closeReason := fr.reason))
  {
    hide IsVarint, AreVarints, ParseFrom;
    assert b[..n][0] == b[0];
    var i, j :| CloseWire(b[..n], fr.codes, fr.reason, i, j);
    hide CloseAfter, CloseWire;
    CloseReads(b, fr.codes, fr.reason, n, i, j);
    CloseAt(b, f, CloseRead(n - 1, fr.reason));
  }

  lemma ByteIsRead(b: seq<byte>, fr: Frame, n: nat, f: Summary)
    requires (fr.Padding? || fr.Ping?) && FrameFirst(b, fr, n)
    ensures 0 < n && ParseFrom(b, f) == ParseFrom(b[n..], Fold(f, fr))
  {
    hide AckLength, CryptoAt, CloseLength;
    assert b[..n][0] == b[0];
  }

  /** A frame at the front is taken off whole, and adds itself to the summary. */
  lemma FrameIsRead(b: seq<byte>, fr: Frame, n: nat, f: Summary)
    requires n <= |b| && FrameFirst(b, fr, n)
    ensures 0 < n && ParseFrom(b, f) == ParseFrom(b[n..], Fold(f, fr))
  {
    hide FrameFirst, ParseFrom;
    match fr
    case Ack(_, _, _, _, _) => AckIsRead(b, fr, n, f);
    case Crypto(_) => CryptoIsRead(b, fr, n, f);
    case Close(_, _, _) => CloseIsRead(b, fr, n, f);
    case _ => ByteIsRead(b, fr, n, f);
  }

  /** No frame is at the front: another type, or one that is cut short, or an ACK of too many ranges. */
  ghost predicate NoFrameFirst(b: seq<byte>) {
    forall fr, n :: !FrameFirst(b, fr, n)
  }

  lemma OneByteFrames(b: seq<byte>)
    requires b != [] && b[0] <= 0x01
    ensures FrameFirst(b, if b[0] == 0x00 then Padding else Ping, 1)
  {
    assert b[..1] == [b[0]];
  }

  /** The bytes of one of the parser's types, read without an error, are a frame. */
  lemma FirstFrame(b: seq<byte>) returns (fr: Frame, n: nat)
    requires b != []
    requires || b[0] in {0x00, 0x01}
             || (b[0] in {0x02, 0x03} && AckLength(b[1..], b[0] == 0x03).Some?)
             || (b[0] == 0x06 && CryptoAt(b).Some?)
             || (b[0] in {0x1c, 0x1d} && CloseLength(b[1..], b[0] == 0x1c).Some?)
    ensures FrameFirst(b, fr, n)
  {
    hide FrameFirst, AckLength, CryptoAt, CloseLength;
    if b[0] <= 0x01 {
      OneByteFrames(b);
      fr, n := if b[0] == 0x00 then Padding else Ping, 1;
    } else if b[0] <= 0x03 {
      fr := AckMeans(b, b[0] == 0x03);
      n := 1 + AckLength(b[1..], b[0] == 0x03).value;
    } else if b[0] == 0x06 {
      fr := CryptoMeans(b);
      n := CryptoAt(b).value.end;
    } else {
      fr := CloseMeans(b, b[0] == 0x1c);
      n := 1 + CloseLength(b[1..], b[0] == 0x1c).value.size;
    }
  }

  /** Where no frame is at the front the parser stops, with what it has. */
  lemma NothingIsRead(b: seq<byte>, f: Summary)
    requires b != [] && NoFrameFirst(b)
    ensures ParseFrom(b, f) == Parsed(f, false)
  {
    hide FrameFirst, AckLength, CryptoAt, CloseLength;
    if ParseFrom(b, f) != Parsed(f, false) {
      var fr, n := FirstFrame(b);
    }
  }

  /** Frames, and behind them nothing or no frame: the parser collects exactly these, and reports an error exactly when
      something is behind them. */
  lemma {:induction false} FramesExactly(b: seq<byte>, fs: seq<Frame>, n: nat, f: Summary)
    requires n <= |b| && AreFrames(b[..n], fs) && (n == |b| || NoFrameFirst(b[n..]))
    ensures ParseFrom(b, f) == Parsed(FoldAll(f, fs), n == |b|)
    decreases |fs|
  {
    hide FrameFirst, NoFrameFirst, ParseFrom, Fold;
    if fs == [] {
      assert b[n..] == b;
      if b == [] {
        NoBytes(f);
      } else {
        NothingIsRead(b, f);
      }
    } else {
      var m :| 0 <= m <= n && FrameFirst(b[..n], fs[0], m) && AreFrames(b[..n][m..], fs[1..]);
      Within(b, fs[0], m, n);
      FrameIsRead(b, fs[0], m, f);
      assert b[..n][m..] == b[m..][..n - m];
      assert b[m..][n - m..] == b[n..];
      FramesExactly(b[m..], fs[1..], n - m, Fold(f, fs[0]));
    }
  }

  lemma NoBytes(f: Summary)
    ensures ParseFrom([], f) == Parsed(f, true)
  {}

  lemma Within(b: seq<byte>, fr: Frame, m: int, n: nat)
    requires n <= |b| && FrameFirst(b[..n], fr, m)
    ensures 0 <= m <= n && FrameFirst(b, fr, m)
  {
    assert b[..n][..m] == b[..m];
    hide IsFrame;
  }

  /** Every payload is such a list of frames and such a rest. */
  lemma {:induction false} FramesOf(b: seq<byte>) returns (fs: seq<Frame>, n: nat)
    ensures n <= |b| && AreFrames(b[..n], fs) && (n == |b| || NoFrameFirst(b[n..]))
    decreases |b|
  {
    hide FrameFirst, IsFrame;
    if NoFrameFirst(b) {
      fs, n := [], 0;
      assert b[0..] == b;
    } else {
      var fr, m :| FrameFirst(b, fr, m);
      FrameSize(b, fr, m);
      var gs, k := FramesOf(b[m..]);
      fs, n := [fr] + gs, m + k;
      assert b[..n][m..] == b[m..][..k];
      assert b[m..][k..] == b[n..];
      Without(b, fr, m, n);
      assert fs[1..] == gs;
    }
  }

  lemma FrameSize(b: seq<byte>, fr: Frame, m: int)
    requires FrameFirst(b, fr, m)
    ensures 0 < m <= |b|
  {
    hide AckWire, CryptoWire, CloseWire;
  }

  lemma Without(b: seq<byte>, fr: Frame, m: int, n: nat)
    requires m <= n <= |b| && FrameFirst(b, fr, m)
    ensures FrameFirst(b[..n], fr, m)
  {
    assert b[..n][..m] == b[..m];
    hide IsFrame;
  }

  /** How many of the frames are PING frames. */
  function PingCount(fs: seq<Frame>): nat {
    if fs == [] then 0 else PingCount(fs[1..]) + if fs[0].Ping? then 1 else 0
  }

  /** The reason is that of the last CONNECTION_CLOSE. */
  ghost predicate LastReason(fs: seq<Frame>, reason: seq<byte>, i: int) {
    0 <= i < |fs| && fs[i].Close? && fs[i].reason == reason && forall j :: i < j < |fs| ==> !fs[j].Close?
  }

  ghost predicate AnyClose(fs: seq<Frame>) {
    exists i :: 0 <= i < |fs| && fs[i].Close?
  }

  ghost predicate ReasonOf(fs: seq<Frame>, reason: seq<byte>) {
    exists i :: LastReason(fs, reason, i)
  }

  /** The summary of a list of frames: the CRYPTO segments in order, the number of PING frames, whether there is a
      CONNECTION_CLOSE, and the reason of the last one. */
  ghost predicate Summarises(s: Summary, f: Summary, fs: seq<Frame>) {
    && s.crypto == f.crypto + CryptoOf(fs) && s.pings == f.pings + PingCount(fs) && (s.close <==> f.close || AnyClose(fs))
    && (if AnyClose(fs) then ReasonOf(fs, s.closeReason) else s.closeReason == f.closeReason)
  }

  lemma OneFrameMore(fs: seq<Frame>, reason: seq<byte>)
    requires fs != []
    ensures AnyClose(fs) <==> fs[0].Close? || AnyClose(fs[1..])
    ensures ReasonOf(fs[1..], reason) ==> ReasonOf(fs, reason)
    ensures fs[0].Close? && !AnyClose(fs[1..]) ==> ReasonOf(fs, fs[0].reason)
  {
    var rest := fs[1..];
    assert forall i :: 0 < i < |fs| ==> fs[i] == rest[i - 1];
    if i :| 0 <= i < |rest| && rest[i].Close? {
      assert fs[i + 1].Close?;
    }
    if k :| LastReason(rest, reason, k) {
      assert LastReason(fs, reason, k + 1);
    }
    if fs[0].Close? && !AnyClose(rest) {
      assert LastReason(fs, fs[0].reason, 0);
    }
  }

  lemma CountsMore(fs: seq<Frame>)
    requires fs != []
    ensures PingCount(fs) == PingCount(fs[1..]) + if fs[0].Ping? then 1 else 0
    ensures CryptoOf(fs) == (if fs[0].Crypto? then [fs[0].segment] else []) + CryptoOf(fs[1..])
  {}

  lemma SummaryStep(s: Summary, f: Summary, fs: seq<Frame>)
    requires fs != [] && Summarises(s, Fold(f, fs[0]), fs[1..])
    ensures Summarises(s, f, fs)
  {
    hide AnyClose, ReasonOf, CryptoOf, PingCount;
    OneFrameMore(fs, s.closeReason);
    CountsMore(fs);
    assert Fold(f, fs[0]).crypto + CryptoOf(fs[1..]) == f.crypto + CryptoOf(fs);
  }

  lemma NothingSummarised(f: Summary)
    ensures Summarises(f, f, [])
  {
    assert f.crypto + [] == f.crypto;
  }

  lemma {:induction false} SummaryExactly(f: Summary, fs: seq<Frame>)
    ensures Summarises(FoldAll(f, fs), f, fs)
    decreases |fs|
  {
    hide Summarises, Fold;
    if fs == [] {
      NothingSummarised(f);
    } else {
      SummaryExactly(Fold(f, fs[0]), fs[1..]);
      SummaryStep(FoldAll(f, fs), f, fs);
    }
  }

  /** parseFrames over every payload: there is one list of frames it is led by up to the first byte where no frame is, the
      summary is of exactly these, and an error is reported exactly when that byte exists. */
  lemma ParsesExactly(b: seq<byte>, r: Parsed)
    ensures r == ParseFrom(b, EMPTY) <==> exists fs, n :: LedBy(b, fs, n) && r == Parsed(FoldAll(EMPTY, fs), n == |b|)
  {
    hide ParseFrom, FoldAll, AreFrames, NoFrameFirst;
    var fs, n := FramesOf(b);
    assert LedBy(b, fs, n);
    FramesExactly(b, fs, n, EMPTY);
    if gs, m :| LedBy(b, gs, m) && r == Parsed(FoldAll(EMPTY, gs), m == |b|) {
      FramesExactly(b, gs, m, EMPTY);
    }
  }

  ghost predicate LedBy(b: seq<byte>, fs: seq<Frame>, n: int) {
    0 <= n <= |b| && AreFrames(b[..n], fs) && (n == |b| || NoFrameFirst(b[n..]))
  }
}

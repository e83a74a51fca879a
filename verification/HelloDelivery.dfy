/** From frames on the wire to one report: a ClientHello cut into CRYPTO frames, spread
    over packets in any order with repeats and other frames between, is reported exactly
    once, whole, at the packet that fills the last gap. */
module HelloDelivery {
  import opened Options
  import opened Bytes
  import opened Packets
  import opened Reassembly
  import opened Assembler
  import opened AssemblerRuns
  import Frames

  // ---- a hello and the pieces it is cut into ----------------------------------------------

  /** A ClientHello message: type 1, a 24-bit length, exactly that many bytes, within the sensor's bound. */
  ghost predicate IsHello(h: seq<byte>) {
    && 4 <= |h| <= MAX_CRYPTO_BYTES
    && h[0] == 0x01
    && |h| == 4 + h[1] as int * 0x1_0000 + h[2] as int * 0x100 + h[3] as int
  }

  /** Nonempty slices of h, overlapping or not, that cover it and fit an attempt's caps together. */
  ghost predicate Cut(h: seq<byte>, pieces: Segments) {
    && SlicesOf(pieces, h)
    && (forall o :: o in pieces ==> pieces[o] != [])
    && |pieces| <= MAX_SEGMENTS
    && TotalBytes(pieces) <= MAX_CRYPTO_BYTES
    && AllCovered(h, pieces)
  }

  ghost predicate AllCovered(h: seq<byte>, m: Segments) {
    forall p: nat :: p < |h| ==> Covered(m, p)
  }

  /** The pieces with an offset in `seen`. */
  ghost function Only(pieces: Segments, seen: set<nat>): Segments {
    map o | o in pieces && o in seen :: pieces[o]
  }

  ghost predicate Complete(h: seq<byte>, pieces: Segments, seen: set<nat>) {
    AllCovered(h, Only(pieces, seen))
  }

  lemma {:induction false} TotalBytesOfPart(part: Segments, whole: Segments)
    requires part.Keys <= whole.Keys && forall o :: o in part ==> part[o] == whole[o]
    ensures TotalBytes(part) <= TotalBytes(whole)
    decreases |whole|
  {
    if whole != map[] {
      var o :| o in whole;
      TotalBytesSplit(whole, o);
      if o in part {
        TotalBytesSplit(part, o);
        TotalBytesOfPart(part - {o}, whole - {o});
      } else {
        TotalBytesOfPart(part, whole - {o});
      }
    } else {
      assert part == map[];
    }
  }

  /** Before the last gap is filled there is no hello to find; once it is, the hello is exactly h. */
  lemma HelloWhenComplete(h: seq<byte>, pieces: Segments, seen: set<nat>)
    requires IsHello(h) && Cut(h, pieces)
    ensures HelloOf(Contiguous(Only(pieces, seen))) == if Complete(h, pieces, seen) then Some(h) else None
  {
    var m := Only(pieces, seen);
    JoinIsPrefix(m, h);
    StrictPrefixHasNoHello(h, Contiguous(m));
  }

  lemma StrictPrefixHasNoHello(h: seq<byte>, stream: seq<byte>)
    requires IsHello(h) && stream <= h
    ensures HelloOf(stream) == if stream == h then Some(h) else None
  {
    assert |stream| >= 4 ==> stream[..4] == h[..4];
    assert h[..|h|] == h;
  }

  // ---- what one packet stores -------------------------------------------------------------

  lemma {:induction false} FoldCrypto(f: Frames.Summary, fs: seq<Frames.Frame>)
    ensures Frames.FoldAll(f, fs).crypto == f.crypto + Frames.CryptoOf(fs)
    decreases |fs|
  {
    if fs != [] {
      FoldCrypto(Frames.Fold(f, fs[0]), fs[1..]);
    }
  }

  /** Every CRYPTO frame carries one of the pieces; other frames are unrestricted. */
  ghost predicate Carries(fs: seq<Frames.Frame>, pieces: Segments) {
    forall i :: 0 <= i < |fs| && fs[i].Crypto? ==> IsPiece(fs[i].segment, pieces)
  }

  ghost predicate IsPiece(s: Frames.Segment, pieces: Segments) {
    s.offset in pieces && pieces[s.offset] == s.data
  }

  ghost predicate ArePieces(ss: seq<Frames.Segment>, pieces: Segments) {
    forall i :: 0 <= i < |ss| ==> IsPiece(ss[i], pieces)
  }

  ghost function OffsetsOf(ss: seq<Frames.Segment>): set<nat> {
    set i | 0 <= i < |ss| :: ss[i].offset
  }

  lemma {:induction false} CarriedArePieces(fs: seq<Frames.Frame>, pieces: Segments)
    requires Carries(fs, pieces)
    ensures ArePieces(Frames.CryptoOf(fs), pieces)
    decreases |fs|
  {
    if fs != [] {
      CarriedArePieces(fs[1..], pieces);
    }
  }

  /** The attempt holds exactly the pieces of `seen`. */
  ghost predicate Holds(at: Attempt, pieces: Segments, seen: set<nat>) {
    at.segments == Only(pieces, seen) && at.stored == TotalBytes(at.segments)
  }

  lemma OnlyGrows(pieces: Segments, seen: set<nat>, o: nat)
    requires o in pieces && o !in seen
    ensures Only(pieces, seen + {o}) == Only(pieces, seen)[o := pieces[o]]
    ensures o !in Only(pieces, seen) && |Only(pieces, seen)| < |pieces|
    ensures TotalBytes(Only(pieces, seen)[o := pieces[o]]) == TotalBytes(Only(pieces, seen)) + |pieces[o]| <= TotalBytes(pieces)
  {
    var m, n := Only(pieces, seen), Only(pieces, seen + {o});
    assert n == m[o := pieces[o]];
    TotalBytesAdd(m, o, pieces[o]);
    TotalBytesOfPart(n, pieces);
    SubsetSize(m.Keys + {o}, pieces.Keys);
    KeyCount(m);
    KeyCount(pieces);
  }

  lemma PieceFits(h: seq<byte>, pieces: Segments, o: nat)
    requires Cut(h, pieces) && o in pieces && |h| <= MAX_CRYPTO_BYTES
    ensures pieces[o] != [] && o < MAX_CRYPTO_BYTES
    ensures |pieces| <= MAX_SEGMENTS && TotalBytes(pieces) <= MAX_CRYPTO_BYTES
  {}

  lemma StorePiece(h: seq<byte>, at: Attempt, pieces: Segments, seen: set<nat>, s: Frames.Segment)
    requires Cut(h, pieces) && |h| <= MAX_CRYPTO_BYTES && Holds(at, pieces, seen) && IsPiece(s, pieces)
    ensures Holds(Store(at, s), pieces, seen + {s.offset})
  {
    if s.offset in seen {
      assert seen + {s.offset} == seen;
      assert s.offset in at.segments;
    } else {
      hide TotalBytes, Only, Cut;
      OnlyGrows(pieces, seen, s.offset);
      PieceFits(h, pieces, s.offset);
    }
  }

  lemma {:induction false} StorePieces(h: seq<byte>, at: Attempt, pieces: Segments, seen: set<nat>, ss: seq<Frames.Segment>)
    requires Cut(h, pieces) && |h| <= MAX_CRYPTO_BYTES && Holds(at, pieces, seen) && ArePieces(ss, pieces)
    ensures Holds(StoreAll(at, ss), pieces, seen + OffsetsOf(ss))
  {
    hide Cut, Holds, Store, IsPiece;
    if ss == [] {
      assert seen + OffsetsOf(ss) == seen;
    } else {
      var front, last := ss[..|ss| - 1], ss[|ss| - 1];
      StorePieces(h, at, pieces, seen, front);
      StorePiece(h, StoreAll(at, front), pieces, seen + OffsetsOf(front), last);
      OffsetsOfSnoc(ss);
      assert seen + OffsetsOf(front) + {last.offset} == seen + OffsetsOf(ss);
    }
  }

  lemma OffsetsOfSnoc(ss: seq<Frames.Segment>)
    requires ss != []
    ensures OffsetsOf(ss) == OffsetsOf(ss[..|ss| - 1]) + {ss[|ss| - 1].offset}
  {
    var front := ss[..|ss| - 1];
    forall o | o in OffsetsOf(ss) ensures o in OffsetsOf(front) + {ss[|ss| - 1].offset} {
      var i :| 0 <= i < |ss| && ss[i].offset == o;
      assert i < |front| ==> front[i].offset == o;
    }
    forall o | o in OffsetsOf(front) ensures o in OffsetsOf(ss) {
      var i :| 0 <= i < |front| && front[i].offset == o;
      assert ss[i].offset == o;
    }
  }

  // ---- deliveries ---------------------------------------------------------------------------

  /** A packet of the connection attempt in question, given by the frames its payload was printed from,
      or any other event of the table. */
  datatype Delivery =
    | Mine(now: Time, frames: seq<Frames.Frame>, header: Packet, raw: seq<byte>, first: bool)
    | Other(event: Event)

  /** The packet as the parser hands it on: its frames are read back from the printed payload. */
  ghost function PacketOf(d: Delivery): Packet
    requires d.Mine? && Frames.AllValid(d.frames)
  {
    d.header.(frames := Some(Frames.ParseFrom(Frames.EncodeFrames(d.frames), Frames.EMPTY).summary))
  }

  ghost function EventOf(key: Key, d: Delivery): Event
    requires d.Mine? ==> Frames.AllValid(d.frames)
  {
    match d
    case Mine(now, frames, header, raw, first) => Arrive(key, now, PacketOf(d), raw, first)
    case Other(event) => event
  }

  /** Within PendingTTL of the first packet; other packets belong to other keys. */
  ghost predicate InWindow(key: Key, d: Delivery, t0: Time, pieces: Segments) {
    match d
    case Mine(now, frames, _, _, _) =>
      t0 <= now < t0 + PENDING_TTL && Frames.AllValid(frames) && Carries(frames, pieces)
    case Other(Arrive(k, _, _, _, _)) => k != key
    case Other(Sweep(now)) => t0 <= now < t0 + PENDING_TTL
  }

  ghost predicate Printable(ds: seq<Delivery>) {
    forall i :: 0 <= i < |ds| && ds[i].Mine? ==> Frames.AllValid(ds[i].frames)
  }

  ghost predicate Window(key: Key, ds: seq<Delivery>, t0: Time, pieces: Segments) {
    && Printable(ds)
    && (forall i :: 0 <= i < |ds| ==> InWindow(key, ds[i], t0, pieces))
    && (ds != [] ==> ds[0].Mine? && ds[0].now == t0)
  }

  ghost function EventsOf(key: Key, ds: seq<Delivery>): (evs: seq<Event>)
    requires Printable(ds)
    ensures |evs| == |ds|
    ensures forall i :: 0 <= i < |ds| ==> evs[i] == EventOf(key, ds[i])
  {
    if ds == [] then [] else EventsOf(key, ds[..|ds| - 1]) + [EventOf(key, ds[|ds| - 1])]
  }

  ghost function SeenIn(d: Delivery): set<nat> {
    if d.Mine? then OffsetsOf(Frames.CryptoOf(d.frames)) else {}
  }

  /** The offsets that have arrived for the attempt. */
  ghost function Seen(ds: seq<Delivery>): set<nat> {
    if ds == [] then {} else Seen(ds[..|ds| - 1]) + SeenIn(ds[|ds| - 1])
  }

  /** Where the attempt stands: not begun, waiting with exactly the pieces seen, or completed. */
  ghost predicate Stands(s: State, key: Key, h: seq<byte>, pieces: Segments, begun: bool, seen: set<nat>, t0: Time) {
    if !begun then key !in s.pending && key !in s.completed && Admits(s, key)
    else if Complete(h, pieces, seen) then
      key !in s.pending && key in s.completed && t0 <= s.completed[key]
    else
      && key in s.pending && key !in s.completed
      && s.pending[key].firstSeen == t0
      && Holds(s.pending[key], pieces, seen)
  }

  lemma AbsorbPieces(h: seq<byte>, at: Attempt, pieces: Segments, seen: set<nat>, d: Delivery)
    requires d.Mine? && Frames.AllValid(d.frames) && Carries(d.frames, pieces)
    requires Cut(h, pieces) && |h| <= MAX_CRYPTO_BYTES && Holds(at, pieces, seen)
    ensures Holds(Absorb(at, PacketOf(d), d.raw, d.first), pieces, seen + SeenIn(d))
  {
    hide Cut, StoreAll, Only, Carries;
    Frames.FramesRoundTrip(d.frames);
    FoldCrypto(Frames.EMPTY, d.frames);
    CarriedArePieces(d.frames, pieces);
    var f := PacketOf(d).frames.value;
    assert f.crypto == Frames.CryptoOf(d.frames);
    StorePieces(h, Noted(Counted(at, d.raw, d.first), f), pieces, seen, f.crypto);
  }

  /** What a delivery reports about the key: the whole hello when it completes it, otherwise nothing. */
  ghost predicate RightReport(key: Key, h: seq<byte>, reports: set<Attempt>, completes: bool) {
    && (completes <==> exists at :: at in reports && at.key == key)
    && forall at :: at in reports && at.key == key ==> at.complete && at.hello == Some(h)
  }

  lemma Concludes(s: State, key: Key, h: seq<byte>, pieces: Segments, seen: set<nat>, t0: Time, now: Time, at: Attempt)
    requires IsHello(h) && Cut(h, pieces) && key !in s.completed && t0 <= now
    requires Holds(at, pieces, seen) && at.key == key && at.firstSeen == t0
    ensures var r := Concluded(s, key, now, at);
      && Stands(r.0, key, h, pieces, true, seen, t0)
      && RightReport(key, h, if r.1.Some? then {r.1.value} else {}, Complete(h, pieces, seen))
  {
    hide Cut, Contiguous, HelloOf, IsHello, Only, Complete, TotalBytes;
    HelloWhenComplete(h, pieces, seen);
  }

  lemma MineStep(s: State, key: Key, h: seq<byte>, pieces: Segments, begun: bool, seen: set<nat>, t0: Time, d: Delivery)
    requires IsHello(h) && Cut(h, pieces) && Inv(s)
    requires Stands(s, key, h, pieces, begun, seen, t0) && d.Mine? && InWindow(key, d, t0, pieces)
    requires !begun ==> seen == {} && d.now == t0
    ensures Stands(Next(s, EventOf(key, d)), key, h, pieces, true, seen + SeenIn(d), t0)
    ensures RightReport(key, h, Reports(s, EventOf(key, d)),
                        !(begun && Complete(h, pieces, seen)) && Complete(h, pieces, seen + SeenIn(d)))
  {
    hide Cut, Absorb, Carries, PacketOf, Holds, Inv, Concluded, Complete;
    if begun && Complete(h, pieces, seen) {
      CompleteGrows(h, pieces, seen, SeenIn(d));
    } else {
      var before := if begun then s.pending[key] else NewAttempt(key, d.now, PacketOf(d), d.raw);
      if begun {
        KeyOf(s, key);
      } else {
        NothingHeld(key, d.now, PacketOf(d), d.raw, pieces);
      }
      AbsorbPieces(h, before, pieces, seen, d);
      AbsorbFrame(before, PacketOf(d), d.raw, d.first);
      Concludes(s, key, h, pieces, seen + SeenIn(d), t0, d.now, Absorb(before, PacketOf(d), d.raw, d.first));
    }
  }

  lemma KeyOf(s: State, key: Key)
    requires Inv(s) && key in s.pending
    ensures s.pending[key].key == key
  {}

  lemma NothingHeld(key: Key, now: Time, p: Packet, raw: seq<byte>, pieces: Segments)
    ensures Holds(NewAttempt(key, now, p, raw), pieces, {})
  {}

  lemma CompleteGrows(h: seq<byte>, pieces: Segments, seen: set<nat>, more: set<nat>)
    requires Complete(h, pieces, seen)
    ensures Complete(h, pieces, seen + more)
  {
    var m, n := Only(pieces, seen), Only(pieces, seen + more);
    forall p: nat | p < |h| ensures Covered(n, p) {
      assert Covered(m, p);
      var o: nat :| Covers(m, o, p);
      assert Covers(n, o, p);
    }
  }

  lemma OtherStep(s: State, key: Key, h: seq<byte>, pieces: Segments, seen: set<nat>, t0: Time, d: Delivery)
    requires Inv(s) && Stands(s, key, h, pieces, true, seen, t0) && d.Other? && InWindow(key, d, t0, pieces)
    ensures Stands(Next(s, d.event), key, h, pieces, true, seen, t0)
    ensures RightReport(key, h, Reports(s, d.event), false)
  {
    hide Complete, Holds, Added, Inv, AllGivenUp;
    match d.event
    case Arrive(k, now, p, raw, first) =>
      OthersUntouched(s, k, now, p, raw, first, key);
      AddedKeeps(s, k, now, p, raw, first);
    case Sweep(now) =>
      assert key !in TimedOut(s, now);
      forall at | at in ExpiredAttempts(s, now) ensures at.key != key {
        ExpiredKey(s, now, at);
      }
  }

  lemma ExpiredKey(s: State, now: Time, at: Attempt)
    requires Inv(s) && at in ExpiredAttempts(s, now)
    ensures at.key in TimedOut(s, now)
  {
    hide Waiting, GivenUp;
    var k :| k in TimedOut(s, now) && at == GivenUp(s.pending[k]);
    GivenUpKey(s.pending[k]);
  }

  ghost predicate Given(s: State, key: Key, h: seq<byte>, pieces: Segments, ds: seq<Delivery>, t0: Time) {
    && IsHello(h) && Cut(h, pieces)
    && Inv(s) && key !in s.pending && key !in s.completed && Admits(s, key)
    && Window(key, ds, t0, pieces)
  }

  /** One delivery, of the attempt or of anything else. */
  lemma DeliveryStep(s: State, key: Key, h: seq<byte>, pieces: Segments, begun: bool, seen: set<nat>, t0: Time, d: Delivery)
    requires IsHello(h) && Cut(h, pieces) && Inv(s)
    requires Stands(s, key, h, pieces, begun, seen, t0) && InWindow(key, d, t0, pieces)
    requires !begun ==> seen == {} && d.Mine? && d.now == t0
    ensures Stands(Next(s, EventOf(key, d)), key, h, pieces, true, seen + SeenIn(d), t0)
    ensures RightReport(key, h, Reports(s, EventOf(key, d)),
                        !Complete(h, pieces, seen) && Complete(h, pieces, seen + SeenIn(d)))
  {
    hide Cut, Stands, IsHello, Inv, Next, Reports, Complete, RightReport;
    if !begun {
      NothingComplete(h, pieces);
    }
    if d.Mine? {
      MineStep(s, key, h, pieces, begun, seen, t0, d);
    } else {
      OtherStep(s, key, h, pieces, seen, t0, d);
      assert seen + SeenIn(d) == seen;
    }
  }

  lemma {:induction false} StandsAfter(s: State, key: Key, h: seq<byte>, pieces: Segments, ds: seq<Delivery>, t0: Time, i: nat)
    requires Given(s, key, h, pieces, ds, t0) && i <= |ds|
    ensures Stands(After(s, EventsOf(key, ds)[..i]), key, h, pieces, i > 0, Seen(ds[..i]), t0)
  {
    hide Stands, Inv, IsHello, Cut, InWindow, Next, SeenIn, EventOf, After, Seen;
    var evs := EventsOf(key, ds);
    if i == 0 {
      BeforeFirst(s, key, h, pieces, t0);
      FromNothing(s, evs[..0], ds[..0]);
    } else {
      var j := i - 1;
      StandsAfter(s, key, h, pieces, ds, t0, j);
      AfterOneMore(s, evs, j);
      SeenOneMore(ds, j);
      if j == 0 {
        FromNothing(s, evs[..0], ds[..0]);
      }
      RunKeeps(s, evs[..j]);
      DeliveryStep(After(s, evs[..j]), key, h, pieces, j > 0, Seen(ds[..j]), t0, ds[j]);
    }
  }

  lemma FromNothing(s: State, evs: seq<Event>, ds: seq<Delivery>)
    requires evs == [] && ds == []
    ensures After(s, evs) == s && Seen(ds) == {}
  {}

  lemma SeenOneMore(ds: seq<Delivery>, j: nat)
    requires j < |ds|
    ensures Seen(ds[..j + 1]) == Seen(ds[..j]) + SeenIn(ds[j])
  {
    assert ds[..j + 1][..j] == ds[..j];
  }

  lemma BeforeFirst(s: State, key: Key, h: seq<byte>, pieces: Segments, t0: Time)
    requires key !in s.pending && key !in s.completed && Admits(s, key)
    ensures Stands(s, key, h, pieces, false, {}, t0)
  {}

  /** The main result: over any deliveries within PendingTTL of the first, in any order and with repeats,
      between packets of other keys and sweeps, event i reports the attempt if and only if it is the one
      that completes the hello, and then it reports exactly that hello. */
  lemma HelloReportedOnce(s: State, key: Key, h: seq<byte>, pieces: Segments, ds: seq<Delivery>, t0: Time, i: nat)
    requires Given(s, key, h, pieces, ds, t0) && i < |ds|
    ensures var evs := EventsOf(key, ds);
            RightReport(key, h, Reports(After(s, evs[..i]), evs[i]),
                        !Complete(h, pieces, Seen(ds[..i])) && Complete(h, pieces, Seen(ds[..i + 1])))
  {
    hide Stands, Inv, IsHello, Cut, InWindow, Next, SeenIn, EventOf, Reports, Complete, RightReport, After, Seen;
    var evs := EventsOf(key, ds);
    StandsAfter(s, key, h, pieces, ds, t0, i);
    RunKeeps(s, evs[..i]);
    SeenOneMore(ds, i);
    if i == 0 {
      FromNothing(s, evs[..0], ds[..0]);
    }
    DeliveryStep(After(s, evs[..i]), key, h, pieces, i > 0, Seen(ds[..i]), t0, ds[i]);
  }

  lemma NothingComplete(h: seq<byte>, pieces: Segments)
    requires IsHello(h)
    ensures !Complete(h, pieces, {})
  {
    var m := Only(pieces, {});
    assert !Covered(m, 0);
  }

  // ---- consecutive chunks -------------------------------------------------------------------

  function Flatten(chunks: seq<seq<byte>>): seq<byte> {
    if chunks == [] then [] else Flatten(chunks[..|chunks| - 1]) + chunks[|chunks| - 1]
  }

  /** Each chunk at the offset where it starts. */
  function PiecesOf(chunks: seq<seq<byte>>): Segments {
    if chunks == [] then map[]
    else
      var front := chunks[..|chunks| - 1];
      PiecesOf(front)[|Flatten(front)| := chunks[|chunks| - 1]]
  }

  ghost predicate ChunksLaidOut(m: Segments, h: seq<byte>) {
    SlicesOf(m, h) && AllCovered(h, m) && TotalBytes(m) == |h| && forall o :: o in m ==> m[o] != [] && o < |h|
  }

  lemma OneMoreChunk(m: Segments, g: seq<byte>, last: seq<byte>)
    requires ChunksLaidOut(m, g) && last != []
    ensures |g| !in m && ChunksLaidOut(m[|g| := last], g + last)
  {
    var n, h := m[|g| := last], g + last;
    TotalBytesAdd(m, |g|, last);
    forall p: nat | p < |h| ensures Covered(n, p) {
      if p < |g| {
        assert Covered(m, p);
        var o: nat :| Covers(m, o, p);
        assert Covers(n, o, p);
      } else {
        assert Covers(n, |g|, p);
      }
    }
    assert SlicesOf(n, h) by { hide TotalBytes; }
  }

  lemma {:induction false} ChunkPieces(chunks: seq<seq<byte>>)
    requires forall i :: 0 <= i < |chunks| ==> chunks[i] != []
    ensures ChunksLaidOut(PiecesOf(chunks), Flatten(chunks)) && |PiecesOf(chunks)| == |chunks|
  {
    if chunks != [] {
      var front := chunks[..|chunks| - 1];
      ChunkPieces(front);
      hide ChunksLaidOut;
      OneMoreChunk(PiecesOf(front), Flatten(front), chunks[|chunks| - 1]);
      KeyCount(PiecesOf(front));
      KeyCount(PiecesOf(chunks));
      assert PiecesOf(chunks).Keys == PiecesOf(front).Keys + {|Flatten(front)|};
    }
  }

  /** At most 64 nonempty chunks of a hello, one after the other, are pieces the result above applies to. */
  lemma ChunksCut(h: seq<byte>, chunks: seq<seq<byte>>)
    requires IsHello(h) && Flatten(chunks) == h && |chunks| <= MAX_SEGMENTS
    requires forall i :: 0 <= i < |chunks| ==> chunks[i] != []
    ensures Cut(h, PiecesOf(chunks))
  {
    ChunkPieces(chunks);
  }
}

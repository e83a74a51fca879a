/** The table of QUIC connection attempts: Assembler of internal/quic/assemble.go. */
module Assembler {
  import opened Options
  import opened Bytes
  import opened Packets
  import opened Reassembly
  import Frames

  type Key = string

  /** Nanoseconds. */
  type Time = int

  const MAX_PENDING: nat := 1024
  const MAX_TRACKED: nat := MAX_PENDING * 8
  const MAX_SEGMENTS: nat := 64
  const MAX_RAW_KEEP: nat := 1500
  const PENDING_TTL: Time := 3_000_000_000
  const COMPLETED_TTL: Time := 30_000_000_000

  datatype Attempt = Attempt(
    key: Key,
    firstSeen: Time,
    version: nat, dcid: seq<byte>, scid: seq<byte>, tokenLen: nat,
    datagrams: nat, bytes: nat, raw: seq<byte>,
    hello: Option<seq<byte>>, complete: bool, cryptoBytes: nat,
    pings: nat, closeReason: seq<byte>,
    segments: Segments, stored: nat)

  datatype State = State(pending: map<Key, Attempt>, completed: map<Key, Time>, overflow: nat, retransmits: nat)

  // ---- what one call does ---------------------------------------------------------

  function NewAttempt(key: Key, now: Time, p: Packet, raw: seq<byte>): Attempt {
    Attempt(key, now, p.version, p.dcid, p.scid, p.tokenLen, 0, 0,
            if |raw| <= MAX_RAW_KEEP then raw else raw[..MAX_RAW_KEEP],
            None, false, 0, 0, [], map[], 0)
  }

  /** One CRYPTO segment: kept unless empty, out of bounds, at a taken offset, or over a cap. */
  function Store(at: Attempt, s: Frames.Segment): Attempt {
    if |s.data| == 0 || s.offset >= MAX_CRYPTO_BYTES || |at.segments| >= MAX_SEGMENTS then at
    else if s.offset in at.segments || at.stored + |s.data| > MAX_CRYPTO_BYTES then at
    else at.(segments := at.segments[s.offset := s.data], stored := at.stored + |s.data|)
  }

  function StoreAll(at: Attempt, ss: seq<Frames.Segment>): Attempt {
    if ss == [] then at else Store(StoreAll(at, ss[..|ss| - 1]), ss[|ss| - 1])
  }

  function Counted(at: Attempt, raw: seq<byte>, first: bool): Attempt {
    if first then at.(datagrams := at.datagrams + 1, bytes := at.bytes + |raw|) else at
  }

  function Noted(at: Attempt, f: Frames.Summary): Attempt {
    at.(pings := at.pings + f.pings,
        closeReason := if f.close && at.closeReason == [] then f.closeReason else at.closeReason)
  }

  /** A packet folded into its attempt, before the hello is looked for. */
  function Absorb(at: Attempt, p: Packet, raw: seq<byte>, first: bool): Attempt {
    match p.frames
    case None => Counted(at, raw, first)
    case Some(f) => StoreAll(Noted(Counted(at, raw, first), f), f.crypto)
  }

  ghost function Added(s: State, key: Key, now: Time, p: Packet, raw: seq<byte>, first: bool)
    : (r: (State, Option<Attempt>))
  {
    if key in s.completed then
      (if first then s.(retransmits := s.retransmits + 1) else s, None)
    else if key !in s.pending && (|s.pending| + |s.completed| >= MAX_TRACKED || |s.pending| >= MAX_PENDING) then
      (s.(overflow := s.overflow + 1), None)
    else
      var before := if key in s.pending then s.pending[key] else NewAttempt(key, now, p, raw);
      Concluded(s, key, now, Absorb(before, p, raw, first))
  }

  /** The attempt goes back to the table, or leaves it with its hello. */
  ghost function Concluded(s: State, key: Key, now: Time, absorbed: Attempt): (r: (State, Option<Attempt>)) {
    var stream := Contiguous(absorbed.segments);
    var at := absorbed.(cryptoBytes := |stream|);
    match HelloOf(stream)
    case None => (s.(pending := s.pending[key := at]), None)
    case Some(h) =>
      (s.(pending := s.pending - {key}, completed := s.completed[key := now]),
       Some(at.(hello := Some(h), complete := true, segments := map[])))
  }

  ghost function TimedOut(s: State, now: Time): set<Key> {
    set k | k in s.pending && now - s.pending[k].firstSeen >= PENDING_TTL
  }

  lemma TimedOutMember(s: State, now: Time, k: Key)
    requires k in s.pending
    ensures k in TimedOut(s, now) <==> now - s.pending[k].firstSeen >= PENDING_TTL
  {}

  lemma TimedOutWithin(s: State, now: Time)
    ensures TimedOut(s, now) <= s.pending.Keys
  {}

  /** An attempt given up incomplete. */
  ghost function GivenUp(at: Attempt): Attempt {
    at.(cryptoBytes := |Contiguous(at.segments)|, segments := map[])
  }

  ghost function Stamp(ks: set<Key>, now: Time): map<Key, Time> {
    map k | k in ks :: now
  }

  lemma OneMoreStamp(m: map<Key, Time>, ks: set<Key>, k: Key, now: Time)
    ensures (m + Stamp(ks, now))[k := now] == m + Stamp(ks + {k}, now)
  {}

  ghost function AfterExpire(s: State, now: Time): State {
    var over := TimedOut(s, now);
    var moved := s.completed + Stamp(over, now);
    s.(pending := s.pending - over,
       completed := map k | k in moved && now - moved[k] < COMPLETED_TTL :: moved[k])
  }

  ghost function AllGivenUp(m: map<Key, Attempt>, ks: set<Key>): set<Attempt> {
    set k | k in ks && k in m :: GivenUp(m[k])
  }

  ghost function ExpiredAttempts(s: State, now: Time): set<Attempt> {
    AllGivenUp(s.pending, TimedOut(s, now))
  }

  ghost function Elements(s: seq<Attempt>): set<Attempt> {
    set at | at in s
  }

  /** The fields and the result of Expire's first loop once the attempts of `seen` are dealt with. */
  ghost predicate Moved(s: State, seen: set<Key>, now: Time,
                        pending: map<Key, Attempt>, completed: map<Key, Time>, out: seq<Attempt>) {
    && pending == s.pending - seen
    && completed == s.completed + Stamp(seen, now)
    && |out| == |seen|
    && Elements(out) == AllGivenUp(s.pending, seen)
  }

  lemma NothingMoved(s: State, now: Time)
    ensures Moved(s, TimedOut(s, now) - s.pending.Keys, now, s.pending, s.completed, [])
  {
    assert TimedOut(s, now) - s.pending.Keys == {};
  }

  lemma OneMore(s: State, now: Time, todo: set<Key>, k: Key,
                pending: map<Key, Attempt>, completed: map<Key, Time>, out: seq<Attempt>)
    requires k in todo && k in s.pending && k in TimedOut(s, now)
    requires Moved(s, TimedOut(s, now) - todo, now, pending, completed, out)
    ensures Moved(s, TimedOut(s, now) - (todo - {k}), now, pending - {k}, completed[k := now], out + [GivenUp(s.pending[k])])
  {
    hide TimedOut, GivenUp, AllGivenUp, Stamp, Elements;
    var seen := TimedOut(s, now) - todo;
    assert TimedOut(s, now) - (todo - {k}) == seen + {k};
    OneMoreGivenUp(s.pending, seen, k);
    OneMoreStamp(s.completed, seen, k, now);
    OneMoreElement(out, GivenUp(s.pending[k]));
    assert (s.pending - seen) - {k} == s.pending - (seen + {k});
  }

  lemma OneMoreElement(s: seq<Attempt>, at: Attempt)
    ensures Elements(s + [at]) == Elements(s) + {at}
  {}

  lemma MovedAll(s: State, seen: set<Key>, now: Time,
                 pending: map<Key, Attempt>, completed: map<Key, Time>, out: seq<Attempt>)
    requires Moved(s, seen, now, pending, completed, out)
    ensures pending == s.pending - seen
    ensures completed == s.completed + Stamp(seen, now)
    ensures |out| == |seen|
    ensures Elements(out) == AllGivenUp(s.pending, seen)
  {}

  lemma OneOther(over: set<Key>, todo: set<Key>, k: Key)
    requires k !in over
    ensures over - (todo - {k}) == over - todo
  {}

  lemma OneMoreGivenUp(m: map<Key, Attempt>, ks: set<Key>, k: Key)
    requires k in m
    ensures AllGivenUp(m, ks + {k}) == AllGivenUp(m, ks) + {GivenUp(m[k])}
  {
    hide GivenUp;
    forall at ensures at in AllGivenUp(m, ks + {k}) <==> at in AllGivenUp(m, ks) + {GivenUp(m[k])} {}
  }

  // ---- the object -----------------------------------------------------------------

  class Table {
    var pending: map<Key, Attempt>
    var completed: map<Key, Time>
    var overflow: nat
    var retransmits: nat

    ghost function View(): State
      reads this
    {
      State(pending, completed, overflow, retransmits)
    }

    constructor ()
      ensures View() == State(map[], map[], 0, 0)
    {
      pending, completed, overflow, retransmits := map[], map[], 0, 0;
    }

    method Add(key: Key, now: Time, p: Packet, raw: seq<byte>, firstInDatagram: bool) returns (done: Option<Attempt>)
      modifies this
      ensures (View(), done) == Added(old(View()), key, now, p, raw, firstInDatagram)
    {
      hide Absorb, NewAttempt, Concluded;
      if key in completed {
        if firstInDatagram {
          retransmits := retransmits + 1;
        }
        return None;
      }
      var at;
      if key in pending {
        at := pending[key];
      } else {
        if |pending| + |completed| >= MAX_TRACKED || |pending| >= MAX_PENDING {
          overflow := overflow + 1;
          return None;
        }
        at := NewAttempt(key, now, p, raw);
      }
      at := AbsorbPacket(at, p, raw, firstInDatagram);
      done := Conclude(key, now, at);
    }

    method Conclude(key: Key, now: Time, absorbed: Attempt) returns (done: Option<Attempt>)
      modifies this`pending, this`completed
      ensures (View(), done) == Concluded(old(View()), key, now, absorbed)
    {
      hide HelloOf, Contiguous;
      var stream := JoinSegments(absorbed.segments);
      ContiguousUnique(absorbed.segments, stream, Contiguous(absorbed.segments));
      var at := absorbed.(cryptoBytes := |stream|);
      var hello := HelloOf(stream);
      if hello.Some? {
        pending := pending - {key};
        completed := completed[key := now];
        return Some(at.(hello := hello, complete := true, segments := map[]));
      }
      pending := pending[key := at];
      return None;
    }

    /** Attempts come back in the order a map is ranged over, which is any order. */
    method Expire(now: Time) returns (out: seq<Attempt>)
      modifies this
      ensures View() == AfterExpire(old(View()), now)
      ensures Elements(out) == ExpiredAttempts(old(View()), now)
      ensures |out| == |TimedOut(old(View()), now)|
    {
      out := MoveTimedOut(now);
      ForgetOld(now);
    }

    /** The first loop of Expire. */
    method MoveTimedOut(now: Time) returns (out: seq<Attempt>)
      modifies this`pending, this`completed
      ensures pending == old(pending) - TimedOut(old(View()), now)
      ensures completed == old(completed) + Stamp(TimedOut(old(View()), now), now)
      ensures Elements(out) == ExpiredAttempts(old(View()), now)
      ensures |out| == |TimedOut(old(View()), now)|
    {
      hide TimedOut, GivenUp, Moved;
      out := [];
      ghost var before := View();
      ghost var over := TimedOut(before, now);
      TimedOutWithin(before, now);
      NothingMoved(before, now);
      var todo := pending.Keys;
      while todo != {}
        invariant todo <= before.pending.Keys
        invariant Moved(before, over - todo, now, pending, completed, out)
        decreases |todo|
      {
        var k :| k in todo;
        MovedAll(before, over - todo, now, pending, completed, out);
        var at := pending[k];
        TimedOutMember(before, now, k);
        if now - at.firstSeen >= PENDING_TTL {
          OneMore(before, now, todo, k, pending, completed, out);
          at := GiveUp(at);
          pending := pending - {k};
          completed := completed[k := now];
          out := out + [at];
        } else {
          OneOther(over, todo, k);
        }
        todo := todo - {k};
      }
      assert over - todo == over;
      MovedAll(before, over, now, pending, completed, out);
    }

    /** The second loop of Expire. */
    method ForgetOld(now: Time)
      modifies this`completed
      ensures completed == map k | k in old(completed) && now - old(completed)[k] < COMPLETED_TTL :: old(completed)[k]
    {
      var todo := completed.Keys;
      while todo != {}
        invariant todo <= old(completed).Keys
        invariant completed == map k | k in old(completed) && (k in todo || now - old(completed)[k] < COMPLETED_TTL) :: old(completed)[k]
        decreases |todo|
      {
        var k :| k in todo;
        todo := todo - {k};
        if now - completed[k] >= COMPLETED_TTL {
          completed := completed - {k};
        }
      }
    }
  }

  method GiveUp(at: Attempt) returns (g: Attempt)
    ensures g == GivenUp(at)
  {
    var stream := JoinSegments(at.segments);
    ContiguousUnique(at.segments, stream, Contiguous(at.segments));
    g := at.(cryptoBytes := |stream|, segments := map[]);
  }

  /** The part of Add that folds a packet into its attempt. */
  method AbsorbPacket(before: Attempt, p: Packet, raw: seq<byte>, firstInDatagram: bool) returns (at: Attempt)
    ensures at == Absorb(before, p, raw, firstInDatagram)
  {
    at := before;
    if firstInDatagram {
      at := at.(datagrams := at.datagrams + 1, bytes := at.bytes + |raw|);
    }
    if p.frames.Some? {
      var f := p.frames.value;
      at := at.(pings := at.pings + f.pings);
      if f.close && at.closeReason == [] {
        at := at.(closeReason := f.closeReason);
      }
      at := StoreSegments(at, f.crypto);
    }
  }

  /** The loop of Add over a packet's CRYPTO segments. */
  method StoreSegments(before: Attempt, ss: seq<Frames.Segment>) returns (at: Attempt)
    ensures at == StoreAll(before, ss)
  {
    at := before;
    var i := 0;
    while i < |ss|
      invariant 0 <= i <= |ss|
      invariant at == StoreAll(before, ss[..i])
    {
      var s := ss[i];
      assert ss[..i + 1][..i] == ss[..i];
      i := i + 1;
      if |s.data| == 0 || s.offset >= MAX_CRYPTO_BYTES || |at.segments| >= MAX_SEGMENTS {
        continue;
      }
      if s.offset in at.segments || at.stored + |s.data| > MAX_CRYPTO_BYTES {
        continue;
      }
      at := at.(segments := at.segments[s.offset := s.data], stored := at.stored + |s.data|);
    }
    assert ss[..|ss|] == ss;
  }
}

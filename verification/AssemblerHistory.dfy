/** What an attempt is made of: over every run of the table, its segments, its counts and its header fields as a function of
    the packets that came for it since it began (Add and Expire of internal/quic/assemble.go). */
module AssemblerHistory {
  import opened Options
  import opened Bytes
  import opened Packets
  import opened Reassembly
  import opened Assembler
  import opened AssemblerRuns
  import opened HelloDelivery
  import Frames

  // ---- the first segment at an offset wins -----------------------------------------------------------

  /** The caps leave room for the segment: its size and offset, 64 segments, 8192 bytes in all. */
  predicate Fits(at: Attempt, s: Frames.Segment) {
    0 < |s.data| && s.offset < 8192 && |at.segments| < 64 && at.stored + |s.data| <= 8192
  }

  lemma StoreExactly(at: Attempt, s: Frames.Segment)
    ensures var at' := Store(at, s);
      if Fits(at, s) && s.offset !in at.segments
      then at'.segments == at.segments[s.offset := s.data] && at'.stored == at.stored + |s.data|
      else at' == at
  {}

  /** The caps leave room for segment i when its turn comes. */
  predicate Admitted(at: Attempt, ss: seq<Frames.Segment>, i: nat)
    requires i < |ss|
  {
    Fits(StoreAll(at, ss[..i]), ss[i])
  }

  /** Segment i is the first at its offset that the caps admit. */
  ghost predicate FirstAdmitted(at: Attempt, ss: seq<Frames.Segment>, o: nat, i: nat) {
    && i < |ss| && ss[i].offset == o && Admitted(at, ss, i)
    && forall j :: 0 <= j < i && ss[j].offset == o ==> !Admitted(at, ss, j)
  }

  /** No stored segment changes or leaves. */
  lemma {:induction false} SegmentsPersist(at: Attempt, ss: seq<Frames.Segment>, o: nat)
    requires o in at.segments
    ensures o in StoreAll(at, ss).segments && StoreAll(at, ss).segments[o] == at.segments[o]
  {
    hide Store;
    if ss != [] {
      SegmentsPersist(at, ss[..|ss| - 1], o);
      StoreExactly(StoreAll(at, ss[..|ss| - 1]), ss[|ss| - 1]);
    }
  }

  lemma {:induction false} StoreAllTwoParts(at: Attempt, ss: seq<Frames.Segment>, more: seq<Frames.Segment>)
    ensures StoreAll(at, ss + more) == StoreAll(StoreAll(at, ss), more)
    decreases |more|
  {
    hide Store;
    if more == [] {
      assert ss + more == ss;
    } else {
      assert (ss + more)[..|ss + more| - 1] == ss + more[..|more| - 1];
      StoreAllTwoParts(at, ss, more[..|more| - 1]);
    }
  }

  /** What is stored after i segments is stored after all of them. */
  lemma PersistsFrom(at: Attempt, ss: seq<Frames.Segment>, i: nat, o: nat)
    requires i <= |ss| && o in StoreAll(at, ss[..i]).segments
    ensures o in StoreAll(at, ss).segments && StoreAll(at, ss).segments[o] == StoreAll(at, ss[..i]).segments[o]
  {
    hide StoreAll;
    assert ss == ss[..i] + ss[i..];
    StoreAllTwoParts(at, ss[..i], ss[i..]);
    SegmentsPersist(StoreAll(at, ss[..i]), ss[i..], o);
  }

  lemma OneSegmentMore(at: Attempt, ss: seq<Frames.Segment>, i: nat)
    requires i < |ss|
    ensures StoreAll(at, ss[..i + 1]) == Store(StoreAll(at, ss[..i]), ss[i])
  {
    assert ss[..i + 1][..i] == ss[..i];
  }

  /** An admitted segment leaves its offset taken. */
  lemma AdmittedTakes(at: Attempt, ss: seq<Frames.Segment>, i: nat)
    requires i < |ss| && Admitted(at, ss, i)
    ensures ss[i].offset in StoreAll(at, ss).segments
    ensures ss[i].offset !in StoreAll(at, ss[..i]).segments ==> StoreAll(at, ss).segments[ss[i].offset] == ss[i].data
  {
    hide StoreAll, Store;
    OneSegmentMore(at, ss, i);
    StoreExactly(StoreAll(at, ss[..i]), ss[i]);
    PersistsFrom(at, ss, i + 1, ss[i].offset);
  }

  lemma EarlierAdmitted(at: Attempt, ss: seq<Frames.Segment>, n: nat, j: nat)
    requires j < n <= |ss|
    ensures Admitted(at, ss[..n], j) == Admitted(at, ss, j)
  {
    assert ss[..n][..j] == ss[..j];
  }

  /** Whatever is newly stored is the first admitted segment at its offset. */
  lemma {:induction false} StoredIsFirst(at: Attempt, ss: seq<Frames.Segment>, o: nat) returns (i: nat)
    requires o !in at.segments && o in StoreAll(at, ss).segments
    ensures FirstAdmitted(at, ss, o, i) && StoreAll(at, ss).segments[o] == ss[i].data
    decreases |ss|
  {
    hide Store, Fits;
    assert ss != [];
    var n := |ss| - 1;
    var before := StoreAll(at, ss[..n]);
    StoreExactly(before, ss[n]);
    forall j | 0 <= j < n ensures Admitted(at, ss[..n], j) == Admitted(at, ss, j) {
      EarlierAdmitted(at, ss, n, j);
    }
    if o in before.segments {
      i := StoredIsFirst(at, ss[..n], o);
    } else {
      i := n;
      forall j | 0 <= j < n && ss[j].offset == o ensures !Admitted(at, ss, j) {
        if Admitted(at, ss, j) {
          AdmittedTakes(at, ss[..n], j);
        }
      }
    }
  }

  /** An offset is stored exactly when some segment at it was admitted, with the bytes of the first that was. */
  lemma StoredExactly(at: Attempt, ss: seq<Frames.Segment>, o: nat)
    requires o !in at.segments
    ensures o in StoreAll(at, ss).segments <==> exists i: nat :: FirstAdmitted(at, ss, o, i)
    ensures forall i: nat :: FirstAdmitted(at, ss, o, i) ==> o in StoreAll(at, ss).segments && StoreAll(at, ss).segments[o] == ss[i].data
  {
    if o in StoreAll(at, ss).segments {
      var i := StoredIsFirst(at, ss, o);
    }
    hide StoreAll, Fits;
    forall i: nat | FirstAdmitted(at, ss, o, i)
      ensures o in StoreAll(at, ss).segments && StoreAll(at, ss).segments[o] == ss[i].data
    {
      if o in StoreAll(at, ss[..i]).segments {
        var j := StoredIsFirst(at, ss[..i], o);
        EarlierAdmitted(at, ss, i, j);
        assert false;
      }
      AdmittedTakes(at, ss, i);
    }
  }

  // ---- over a run ---------------------------------------------------------------------------------

  lemma AbsorbStores(at: Attempt, p: Packet, raw: seq<byte>, first: bool)
    ensures var at' := Absorb(at, p, raw, first);
            var all := StoreAll(at, if p.frames.Some? then p.frames.value.crypto else []);
            at'.segments == all.segments && at'.stored == all.stored
  {
    if p.frames.Some? {
      hide StoreAll;
      SameStore(Noted(Counted(at, raw, first), p.frames.value), at, p.frames.value.crypto);
    }
  }

  /** What is stored depends on nothing but what was. */
  lemma {:induction false} SameStore(a: Attempt, b: Attempt, ss: seq<Frames.Segment>)
    requires a.segments == b.segments && a.stored == b.stored
    ensures StoreAll(a, ss).segments == StoreAll(b, ss).segments && StoreAll(a, ss).stored == StoreAll(b, ss).stored
  {
    if ss != [] {
      SameStore(a, b, ss[..|ss| - 1]);
    }
  }

  /** While its key stays pending, an attempt keeps every segment it has. */
  lemma StepPersists(s: State, e: Event, k: Key, o: nat)
    requires k in s.pending && k in Next(s, e).pending && o in s.pending[k].segments
    ensures o in Next(s, e).pending[k].segments && Next(s, e).pending[k].segments[o] == s.pending[k].segments[o]
  {
    hide Absorb, StoreAll, NewAttempt, Contiguous, HelloOf, TimedOut, Stamp;
    if e.Arrive? && e.key == k && k !in s.completed {
      AbsorbStores(s.pending[k], e.packet, e.raw, e.first);
      SegmentsPersist(s.pending[k], if e.packet.frames.Some? then e.packet.frames.value.crypto else [], o);
    }
  }

  /** The same between any two moments of a run. */
  lemma {:induction false} RunPersists(s: State, evs: seq<Event>, k: Key, o: nat, i: nat, j: nat)
    requires i <= j <= |evs| && forall m :: i <= m <= j ==> k in After(s, evs[..m]).pending
    requires o in After(s, evs[..i]).pending[k].segments
    ensures o in After(s, evs[..j]).pending[k].segments
    ensures After(s, evs[..j]).pending[k].segments[o] == After(s, evs[..i]).pending[k].segments[o]
    decreases j
  {
    hide Next, After;
    if i < j {
      RunPersists(s, evs, k, o, i, j - 1);
      AfterOneMore(s, evs, j - 1);
      StepPersists(After(s, evs[..j - 1]), evs[j - 1], k, o);
    }
  }

  predicate IsFor(e: Event, k: Key) {
    e.Arrive? && e.key == k
  }

  /** Every CRYPTO segment that came for a key, in order of arrival. */
  function CryptoFor(evs: seq<Event>, k: Key): seq<Frames.Segment> {
    if evs == [] then []
    else
      var e := evs[|evs| - 1];
      CryptoFor(evs[..|evs| - 1], k) + if IsFor(e, k) && e.packet.frames.Some? then e.packet.frames.value.crypto else []
  }

  /** The sum of f over the packets that came for a key. */
  function SumFor(evs: seq<Event>, k: Key, f: Event -> nat): nat {
    if evs == [] then 0
    else SumFor(evs[..|evs| - 1], k, f) + if IsFor(evs[|evs| - 1], k) then f(evs[|evs| - 1]) else 0
  }

  function StartsDatagram(e: Event): nat {
    if e.Arrive? && e.first then 1 else 0
  }

  function DatagramBytes(e: Event): nat {
    if e.Arrive? && e.first then |e.raw| else 0
  }

  function PingsOf(e: Event): nat {
    if e.Arrive? && e.packet.frames.Some? then e.packet.frames.value.pings else 0
  }

  /** The event closes with a reason. */
  predicate GivesReason(e: Event, k: Key) {
    && IsFor(e, k) && e.packet.frames.Some? && e.packet.frames.value.close
    && e.packet.frames.value.closeReason != []
  }

  /** The reason is that of the first packet that closed with one; none if no packet did. */
  ghost predicate FirstReason(evs: seq<Event>, k: Key, reason: seq<byte>) {
    if reason == [] then forall i :: 0 <= i < |evs| ==> !GivesReason(evs[i], k)
    else exists i :: ReasonAt(evs, k, reason, i)
  }

  ghost predicate ReasonAt(evs: seq<Event>, k: Key, reason: seq<byte>, i: int) {
    && 0 <= i < |evs| && GivesReason(evs[i], k) && evs[i].packet.frames.value.closeReason == reason
    && forall j :: 0 <= j < i ==> !GivesReason(evs[j], k)
  }

  const NOTHING := Attempt("", 0, 0, [], [], 0, 0, 0, [], None, false, 0, 0, [], map[], 0)

  /** What the segments that came for a key leave stored. */
  function StoredFor(evs: seq<Event>, k: Key): Attempt {
    StoreAll(NOTHING, CryptoFor(evs, k))
  }

  /** The header fields are those of the first packet, which began the attempt; of its datagram at most 1500 bytes are kept. */
  ghost predicate BegunBy(at: Attempt, e: Event) {
    && e.Arrive? && at.key == e.key && at.firstSeen == e.now
    && at.version == e.packet.version && at.dcid == e.packet.dcid && at.scid == e.packet.scid
    && at.tokenLen == e.packet.tokenLen
    && at.raw <= e.raw && |at.raw| == if |e.raw| <= 1500 then |e.raw| else 1500
  }

  /** The counts are those of all the packets that came. */
  ghost predicate CountedFor(at: Attempt, evs: seq<Event>, k: Key) {
    && at.datagrams == SumFor(evs, k, StartsDatagram) && at.bytes == SumFor(evs, k, DatagramBytes)
    && at.pings == SumFor(evs, k, PingsOf) && FirstReason(evs, k, at.closeReason)
  }

  ghost predicate Describes(at: Attempt, evs: seq<Event>, k: Key) {
    evs != [] && at.key == k && BegunBy(at, evs[0]) && CountedFor(at, evs, k)
  }

  ghost predicate Holding(at: Attempt, evs: seq<Event>, k: Key) {
    at.segments == StoredFor(evs, k).segments && at.stored == StoredFor(evs, k).stored
  }

  lemma OneReasonMore(evs: seq<Event>, k: Key, reason: seq<byte>, e: Event)
    requires FirstReason(evs, k, reason)
    ensures FirstReason(evs + [e], k, if reason == [] && GivesReason(e, k) then e.packet.frames.value.closeReason else reason)
  {
    var more := evs + [e];
    assert forall i :: 0 <= i < |evs| ==> more[i] == evs[i];
    if reason != [] {
      var i :| ReasonAt(evs, k, reason, i);
      assert ReasonAt(more, k, reason, i);
    } else if GivesReason(e, k) {
      assert ReasonAt(more, k, e.packet.frames.value.closeReason, |evs|);
    }
  }

  lemma OneSumMore(evs: seq<Event>, k: Key, e: Event, f: Event -> nat)
    ensures SumFor(evs + [e], k, f) == SumFor(evs, k, f) + if IsFor(e, k) then f(e) else 0
  {
    assert (evs + [e])[..|evs|] == evs;
  }

  lemma OneCryptoMore(evs: seq<Event>, k: Key, e: Event)
    ensures CryptoFor(evs + [e], k) == CryptoFor(evs, k) + if IsFor(e, k) && e.packet.frames.Some? then e.packet.frames.value.crypto else []
  {
    assert (evs + [e])[..|evs|] == evs;
  }

  /** Absorbing changes counts and segments only. */
  lemma AbsorbExactly(at: Attempt, e: Event)
    requires e.Arrive?
    ensures var at' := Absorb(at, e.packet, e.raw, e.first);
      && at'.datagrams == at.datagrams + StartsDatagram(e) && at'.bytes == at.bytes + DatagramBytes(e)
      && at'.pings == at.pings + PingsOf(e)
      && at'.closeReason == (if at.closeReason == [] && GivesReason(e, e.key) then e.packet.frames.value.closeReason else at.closeReason)
      && at' == at.(datagrams := at'.datagrams, bytes := at'.bytes, pings := at'.pings, closeReason := at'.closeReason,
                    segments := at'.segments, stored := at'.stored)
  {
    if e.packet.frames.Some? {
      hide StoreAll;
      StoreAllFrame(Noted(Counted(at, e.raw, e.first), e.packet.frames.value), e.packet.frames.value.crypto);
    }
  }

  lemma AbsorbCounts(at: Attempt, evs: seq<Event>, k: Key, e: Event)
    requires IsFor(e, k) && CountedFor(at, evs, k)
    ensures CountedFor(Absorb(at, e.packet, e.raw, e.first), evs + [e], k)
  {
    hide Absorb, FirstReason, SumFor;
    AbsorbExactly(at, e);
    OneSumMore(evs, k, e, StartsDatagram);
    OneSumMore(evs, k, e, DatagramBytes);
    OneSumMore(evs, k, e, PingsOf);
    OneReasonMore(evs, k, at.closeReason, e);
  }

  lemma AbsorbHolds(at: Attempt, evs: seq<Event>, k: Key, e: Event)
    requires IsFor(e, k) && Holding(at, evs, k)
    ensures Holding(Absorb(at, e.packet, e.raw, e.first), evs + [e], k)
  {
    hide Absorb, StoreAll, CryptoFor;
    var crypto := if e.packet.frames.Some? then e.packet.frames.value.crypto else [];
    AbsorbStores(at, e.packet, e.raw, e.first);
    SameStore(at, StoredFor(evs, k), crypto);
    OneCryptoMore(evs, k, e);
    StoreAllTwoParts(NOTHING, CryptoFor(evs, k), crypto);
  }

  /** A packet more: an attempt that describes the packets so far describes them with this one. */
  lemma AbsorbDescribes(at: Attempt, evs: seq<Event>, k: Key, e: Event)
    requires IsFor(e, k) && Describes(at, evs, k) && Holding(at, evs, k)
    ensures var at' := Absorb(at, e.packet, e.raw, e.first); Describes(at', evs + [e], k) && Holding(at', evs + [e], k)
  {
    hide Absorb, CountedFor, Holding;
    AbsorbCounts(at, evs, k, e);
    AbsorbHolds(at, evs, k, e);
    AbsorbExactly(at, e);
  }

  /** The packet that begins an attempt. */
  lemma BeginDescribes(k: Key, e: Event)
    requires IsFor(e, k)
    ensures var at := Absorb(NewAttempt(k, e.now, e.packet, e.raw), e.packet, e.raw, e.first);
            Describes(at, [e], k) && Holding(at, [e], k)
  {
    var at := NewAttempt(k, e.now, e.packet, e.raw);
    assert BegunBy(at, e) && CountedFor(at, [], k) && Holding(at, [], k);
    hide Absorb, CountedFor, Holding, NewAttempt;
    assert [] + [e] == [e];
    AbsorbCounts(at, [], k, e);
    AbsorbHolds(at, [], k, e);
    AbsorbExactly(at, e);
  }

  /** Events that are not for a key change nothing of what came for it. */
  lemma OthersDescribe(at: Attempt, evs: seq<Event>, k: Key, e: Event)
    requires !IsFor(e, k) && Describes(at, evs, k) && Holding(at, evs, k)
    ensures Describes(at, evs + [e], k) && Holding(at, evs + [e], k)
  {
    assert (evs + [e])[..|evs|] == evs;
    OneReasonMore(evs, k, at.closeReason, e);
    OneCryptoMore(evs, k, e);
    assert CryptoFor(evs, k) + [] == CryptoFor(evs, k);
    hide FirstReason, StoreAll, CryptoFor;
  }

  /** A waiting attempt is what the packets since it began make it. */
  ghost predicate Recorded(at: Attempt, evs: seq<Event>, k: Key) {
    Describes(at, evs, k) && Holding(at, evs, k) && at.cryptoBytes == |Contiguous(at.segments)|
  }

  lemma SetCryptoBytes(at: Attempt, evs: seq<Event>, k: Key)
    requires Describes(at, evs, k) && Holding(at, evs, k)
    ensures Recorded(at.(cryptoBytes := |Contiguous(at.segments)|), evs, k)
  {
    hide SumFor, FirstReason, StoredFor;
  }

  /** Only a packet for it begins an attempt. */
  lemma StepBegins(s: State, e: Event, k: Key)
    requires k !in s.pending && k in Next(s, e).pending
    ensures IsFor(e, k) && Recorded(Next(s, e).pending[k], [e], k)
  {
    hide Absorb, NewAttempt, Contiguous, HelloOf, TimedOut, Stamp, Recorded, Describes, Holding;
    assert IsFor(e, k);
    BeginDescribes(k, e);
    SetCryptoBytes(Absorb(NewAttempt(k, e.now, e.packet, e.raw), e.packet, e.raw, e.first), [e], k);
  }

  /** An attempt that stays pending goes on being recorded. */
  lemma StepContinues(s: State, e: Event, k: Key, evs: seq<Event>)
    requires k !in s.completed && k in s.pending && k in Next(s, e).pending && Recorded(s.pending[k], evs, k)
    ensures Recorded(Next(s, e).pending[k], evs + [e], k)
  {
    var at := s.pending[k];
    assert Describes(at, evs, k) && Holding(at, evs, k);
    if IsFor(e, k) {
      AbsorbDescribes(at, evs, k, e);
      SetCryptoBytes(Absorb(at, e.packet, e.raw, e.first), evs + [e], k);
      hide Absorb, NewAttempt, Contiguous, HelloOf, Recorded, Describes, Holding;
    } else {
      OthersDescribe(at, evs, k, e);
      SetCryptoBytes(at, evs + [e], k);
      hide Describes, Holding;
      OtherEvent(s, e, k);
    }
  }

  lemma OtherEvent(s: State, e: Event, k: Key)
    requires !IsFor(e, k) && k in s.pending && k in Next(s, e).pending
    ensures Next(s, e).pending[k] == s.pending[k]
  {
    hide Added, TimedOut, Stamp;
    if e.Arrive? {
      OthersUntouched(s, e.key, e.now, e.packet, e.raw, e.first, k);
    }
  }

  /** Event b began the attempt of k that is pending ever since. */
  ghost predicate Since(s: State, evs: seq<Event>, k: Key, b: nat) {
    && b < |evs| && IsFor(evs[b], k) && k !in After(s, evs[..b]).pending
    && forall i :: b < i <= |evs| ==> k in After(s, evs[..i]).pending
  }

  lemma SinceOneMore(s: State, evs: seq<Event>, k: Key, b: nat)
    requires evs != [] && Since(s, evs[..|evs| - 1], k, b) && k in After(s, evs).pending
    ensures Since(s, evs, k, b)
  {
    hide After;
    var n := |evs| - 1;
    assert evs[..|evs|] == evs;
    forall i | b < i <= |evs| ensures k in After(s, evs[..i]).pending {
      if i <= n {
        assert evs[..n][..i] == evs[..i];
      }
    }
    assert evs[..n][..b] == evs[..b];
  }

  lemma Apart(s: State, k: Key)
    requires Inv(s)
    ensures !(k in s.pending && k in s.completed)
  {
    hide Waiting;
  }

  /** In every run from a table with nothing pending, a pending attempt is what the packets since it began make it. */
  lemma {:induction false} AttemptIsItsPackets(s: State, evs: seq<Event>, k: Key) returns (b: nat)
    requires Inv(s) && s.pending == map[] && k in After(s, evs).pending
    ensures b < |evs| && Since(s, evs, k, b) && Recorded(After(s, evs).pending[k], evs[b..], k)
    decreases |evs|
  {
    hide Next, Inv, Recorded;
    assert evs != [];
    var n := |evs| - 1;
    var before := After(s, evs[..n]);
    RunKeeps(s, evs[..n]);
    Apart(before, k);
    if k in before.pending {
      b := AttemptIsItsPackets(s, evs[..n], k);
      StepContinues(before, evs[n], k, evs[..n][b..]);
      assert evs[..n][b..] + [evs[n]] == evs[b..];
      SinceOneMore(s, evs, k, b);
    } else {
      b := n;
      StepBegins(before, evs[n], k);
      assert evs[n..] == [evs[n]];
      assert evs[..|evs|] == evs;
    }
  }

  // ---- what is reported --------------------------------------------------------------------------------

  /** The stream that came for a key. */
  ghost function StreamFor(evs: seq<Event>, k: Key): seq<byte> {
    Contiguous(StoredFor(evs, k).segments)
  }

  /** A hello is found exactly when the stream begins with one, and it is that one. */
  lemma HelloExactly(stream: seq<byte>, h: seq<byte>)
    ensures HelloOf(stream) == Some(h) <==> h <= stream && IsHello(h)
  {
    if h <= stream && IsHello(h) {
      assert stream[..4] == h[..4];
      assert stream[..|h|] == h;
    }
  }

  /** A complete attempt, reported at its last packet: its packets, and the hello their stream begins with. */
  ghost predicate ReportedWhole(at: Attempt, seen: seq<Event>) {
    && Describes(at, seen, at.key) && at.complete && at.cryptoBytes == |StreamFor(seen, at.key)|
    && at.hello.Some? && at.hello.value <= StreamFor(seen, at.key) && IsHello(at.hello.value)
  }

  /** An attempt given up, three seconds or more after it began: its packets, whose stream begins with no hello. */
  ghost predicate ReportedLate(at: Attempt, seen: seq<Event>, now: Time) {
    && Describes(at, seen, at.key) && !at.complete && at.hello == None && at.cryptoBytes == |StreamFor(seen, at.key)|
    && now - at.firstSeen >= 3_000_000_000
    && forall h :: h <= StreamFor(seen, at.key) ==> !IsHello(h)
  }

  lemma ConcludedWhole(s: State, k: Key, now: Time, at: Attempt, seen: seq<Event>)
    requires Describes(at, seen, k) && Holding(at, seen, k) && Concluded(s, k, now, at).1.Some?
    ensures ReportedWhole(Concluded(s, k, now, at).1.value, seen)
  {
    hide StoredFor, HelloOf, Contiguous, SumFor, FirstReason, IsHello;
    HelloExactly(Contiguous(at.segments), Concluded(s, k, now, at).1.value.hello.value);
  }

  lemma ArrivalReports(s: State, evs: seq<Event>, e: Event, at: Attempt) returns (b: nat)
    requires Inv(s) && s.pending == map[] && e.Arrive? && at in Reports(After(s, evs), e)
    ensures b <= |evs| && (b < |evs| ==> Since(s, evs, at.key, b)) && ReportedWhole(at, evs[b..] + [e])
  {
    hide After, Inv, Absorb, NewAttempt, Concluded, Recorded, Since, Describes, Holding;
    var t := After(s, evs);
    if e.key in t.pending {
      b := AttemptIsItsPackets(s, evs, e.key);
      RecordedParts(t.pending[e.key], evs[b..], e.key);
      AbsorbDescribes(t.pending[e.key], evs[b..], e.key, e);
      ConcludedWhole(t, e.key, e.now, Absorb(t.pending[e.key], e.packet, e.raw, e.first), evs[b..] + [e]);
      WholeKey(t, e.key, e.now, Absorb(t.pending[e.key], e.packet, e.raw, e.first), evs[b..] + [e]);
    } else {
      b := |evs|;
      assert evs[b..] + [e] == [e];
      BeginDescribes(e.key, e);
      ConcludedWhole(t, e.key, e.now, Absorb(NewAttempt(e.key, e.now, e.packet, e.raw), e.packet, e.raw, e.first), [e]);
    }
  }

  lemma RecordedParts(at: Attempt, evs: seq<Event>, k: Key)
    requires Recorded(at, evs, k)
    ensures Describes(at, evs, k) && Holding(at, evs, k)
  {}

  lemma WholeKey(s: State, k: Key, now: Time, at: Attempt, seen: seq<Event>)
    requires Describes(at, seen, k) && Concluded(s, k, now, at).1.Some?
    ensures Concluded(s, k, now, at).1.value.key == k
  {
    hide HelloOf, Contiguous, BegunBy, CountedFor;
  }

  lemma SweepReports(s: State, evs: seq<Event>, now: Time, at: Attempt) returns (b: nat)
    requires Inv(s) && s.pending == map[] && at in ExpiredAttempts(After(s, evs), now)
    ensures b < |evs| && Since(s, evs, at.key, b) && ReportedLate(at, evs[b..], now)
  {
    hide After, Inv, Recorded, Since, GivenUp;
    var t := After(s, evs);
    var k :| k in TimedOut(t, now) && at == GivenUp(t.pending[k]);
    b := AttemptIsItsPackets(s, evs, k);
    RunKeeps(s, evs);
    WaitsFor(t, k);
    GivenUpLate(t.pending[k], evs[b..], k, now);
  }

  lemma WaitsFor(s: State, k: Key)
    requires Inv(s) && k in s.pending
    ensures Waiting(s.pending[k])
  {
    hide Waiting;
  }

  lemma GivenUpLate(at: Attempt, seen: seq<Event>, k: Key, now: Time)
    requires Recorded(at, seen, k) && Waiting(at) && now - at.firstSeen >= PENDING_TTL
    ensures GivenUp(at).key == k && ReportedLate(GivenUp(at), seen, now)
  {
    hide StoredFor, HelloOf, Contiguous, SumFor, FirstReason, IsHello, Bounded;
    forall h | h <= Contiguous(at.segments) ensures !IsHello(h) {
      HelloExactly(Contiguous(at.segments), h);
    }
  }

  // ---- sweeps and counters -------------------------------------------------------------------------

  /** What a sweep leaves: attempts younger than three seconds, keys completed less than thirty seconds ago, and the keys of
      the attempts it gives up. */
  lemma SweepExactly(s: State, now: Time, k: Key)
    requires Inv(s)
    ensures var t := AfterExpire(s, now);
            var late := k in s.pending && now - s.pending[k].firstSeen >= 3_000_000_000;
      && (k in t.pending <==> k in s.pending && !late)
      && (k in t.pending ==> t.pending[k] == s.pending[k])
      && (k in t.completed <==> late || (k in s.completed && now - s.completed[k] < 30_000_000_000))
      && (k in t.completed ==> t.completed[k] == if late then now else s.completed[k])
      && t.overflow == s.overflow && t.retransmits == s.retransmits
  {
    Apart(s, k);
    hide Inv;
  }

  /** A datagram of an attempt that was reported already. */
  predicate Repeats(s: State, e: Event) {
    e.Arrive? && e.first && e.key in s.completed
  }

  /** A packet that would begin an attempt, refused at capacity: 1024 attempts, or 8192 keys in all. */
  predicate Refused(s: State, e: Event) {
    && e.Arrive? && e.key !in s.pending && e.key !in s.completed
    && (|s.pending| >= 1024 || |s.pending| + |s.completed| >= 8192)
  }

  /** A packet that is neither a repeat nor refused leaves its attempt pending or has it reported, never both. */
  lemma NothingVanishes(s: State, e: Event)
    requires Inv(s) && e.Arrive? && e.key !in s.completed && !Refused(s, e)
    ensures e.key in Next(s, e).pending <==> Reports(s, e) == {}
    ensures e.key !in Next(s, e).pending ==> e.key in Next(s, e).completed && exists at :: Reports(s, e) == {at} && at.key == e.key
  {
    hide Absorb, NewAttempt, Contiguous, HelloOf, Inv;
    Apart(s, e.key);
    AddedKeeps(s, e.key, e.now, e.packet, e.raw, e.first);
    var r := Added(s, e.key, e.now, e.packet, e.raw, e.first).1;
    if r.Some? {
      assert Reports(s, e) == {r.value};
    }
  }

  /** Every attempt a sweep takes away, it reports. */
  lemma SweptIsReported(s: State, now: Time, k: Key)
    requires Inv(s) && k in s.pending && k !in AfterExpire(s, now).pending
    ensures exists at :: at in Reports(s, Sweep(now)) && at.key == k
  {
    hide Inv, GivenUp, AfterExpire, ExpiredAttempts;
    KeyOf(s, k);
    SweepExactly(s, now, k);
    GivenUpKey(s.pending[k]);
    LateIsGivenUp(s, now, k);
    assert GivenUp(s.pending[k]) in Reports(s, Sweep(now));
  }

  lemma LateIsGivenUp(s: State, now: Time, k: Key)
    requires k in s.pending && now - s.pending[k].firstSeen >= PENDING_TTL
    ensures GivenUp(s.pending[k]) in ExpiredAttempts(s, now)
  {
    hide GivenUp;
    assert k in TimedOut(s, now);
  }

  ghost function CountWhere(s: State, evs: seq<Event>, p: (State, Event) -> bool): nat {
    if evs == [] then 0
    else CountWhere(s, evs[..|evs| - 1], p) + if p(After(s, evs[..|evs| - 1]), evs[|evs| - 1]) then 1 else 0
  }

  /** A refused packet, and one for a completed key, change nothing but a counter. */
  lemma StepCounts(s: State, e: Event)
    ensures Next(s, e).retransmits == s.retransmits + if Repeats(s, e) then 1 else 0
    ensures Next(s, e).overflow == s.overflow + if Refused(s, e) then 1 else 0
    ensures Refused(s, e) || (e.Arrive? && e.key in s.completed) ==>
      Next(s, e).pending == s.pending && Next(s, e).completed == s.completed && Reports(s, e) == {}
  {
    hide Absorb, NewAttempt, Contiguous, HelloOf, TimedOut, Stamp, ExpiredAttempts;
  }

  /** Stats over every run: the datagrams of completed attempts, and the packets refused at capacity. */
  lemma {:induction false} CountersExact(s: State, evs: seq<Event>)
    ensures After(s, evs).retransmits == s.retransmits + CountWhere(s, evs, Repeats)
    ensures After(s, evs).overflow == s.overflow + CountWhere(s, evs, Refused)
  {
    hide Next, Repeats, Refused;
    if evs != [] {
      CountersExact(s, evs[..|evs| - 1]);
      StepCounts(After(s, evs[..|evs| - 1]), evs[|evs| - 1]);
    }
  }
}

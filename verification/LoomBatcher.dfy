/** The batcher of the shipper: Run's loop over the channel and the flush ticker
    (internal/exporters/loom/shipper.go). */
module LoomBatcher {
  import opened LoomQueues

  /** What the loop selects: a record that encodes, one that does not, or the ticker. */
  datatype Event = Record(doc: Doc) | Unencodable | Tick

  const DEFAULT_BATCH := 50
  const MAX_BATCH_EVENTS := 500

  function BatchSize(configured: int): (n: nat)
    ensures 1 <= n <= MAX_BATCH_EVENTS
    ensures n == if configured <= 0 then 50 else if configured <= 500 then configured else 500
  {
    var n := if configured <= 0 then DEFAULT_BATCH else configured;
    if n < MAX_BATCH_EVENTS then n else MAX_BATCH_EVENTS
  }

  // ---- the specification ----------------------------------------------------------------------

  /** The records that were encoded, in order. */
  function Records(events: seq<Event>): (r: seq<Doc>)
    ensures |r| <= |events|
  {
    if events == [] then []
    else
      var last, before := events[|events| - 1], Records(events[..|events| - 1]);
      if last.Record? then before + [last.doc] else before
  }

  function Flat(batches: seq<seq<Doc>>): (r: seq<Doc>) {
    if batches == [] then [] else Flat(batches[..|batches| - 1]) + batches[|batches| - 1]
  }

  /** One more record would take the batch over the body bound. */
  predicate Overflows(docs: seq<Doc>, next: Doc, maxBody: int) {
    Weighed(docs) + |next| + 1 > maxBody
  }

  /** A batch that may be stored: not empty, not over the count, and within the body bound unless it is one record. */
  predicate Fits(docs: seq<Doc>, size: nat, maxBody: int) {
    1 <= |docs| <= size && (|docs| >= 2 ==> Weighed(docs) <= maxBody)
  }

  /** The ticker fired when exactly n records had been accepted. */
  ghost predicate TickAfter(events: seq<Event>, n: nat) {
    exists k :: 0 <= k < |events| && events[k].Tick? && |Records(events[..k])| == n
  }

  /** Batch i was closed because it was full, because the record that follows it would not fit, or by the ticker.
      `open` is the batch in hand. */
  ghost predicate ClosedFor(events: seq<Event>, stored: seq<seq<Doc>>, open: seq<Doc>, size: nat, maxBody: int, i: nat)
    requires i < |stored|
  {
    || |stored[i]| == size
    || (i + 1 < |stored| && stored[i + 1] != [] && Overflows(stored[i], stored[i + 1][0], maxBody))
    || (i + 1 == |stored| && open != [] && Overflows(stored[i], open[0], maxBody))
    || TickAfter(events, |Flat(stored[..i + 1])|)
  }

  ghost predicate AllFit(stored: seq<seq<Doc>>, size: nat, maxBody: int) {
    forall i :: 0 <= i < |stored| ==> Fits(stored[i], size, maxBody)
  }

  ghost predicate AllClosedFor(events: seq<Event>, stored: seq<seq<Doc>>, open: seq<Doc>, size: nat, maxBody: int) {
    forall i :: 0 <= i < |stored| ==> ClosedFor(events, stored, open, size, maxBody, i)
  }

  /** A batch ends, or nothing is open, where n records have been accepted. */
  ghost predicate BatchEnds(stored: seq<seq<Doc>>, n: nat) {
    exists i :: 0 <= i <= |stored| && |Flat(stored[..i])| == n
  }

  /** No batch reaches across a tick. */
  ghost predicate TicksSeparate(events: seq<Event>, stored: seq<seq<Doc>>) {
    forall k :: 0 <= k < |events| && events[k].Tick? ==> BatchEnds(stored, |Records(events[..k])|)
  }

  ghost predicate Batches(events: seq<Event>, stored: seq<seq<Doc>>, open: seq<Doc>, size: nat, maxBody: int) {
    && Flat(stored) + open == Records(events)
    && AllFit(stored, size, maxBody) && (open != [] ==> Fits(open, size, maxBody))
    && |open| < size
    && AllClosedFor(events, stored, open, size, maxBody)
    && TicksSeparate(events, stored)
  }

  // ---- the loop -------------------------------------------------------------------------------

  /** The loop from the first event to the closing of the channel. */
  method Collect(events: seq<Event>, configured: int, maxBody: int) returns (stored: seq<seq<Doc>>)
    ensures Flat(stored) == Records(events)
    ensures AllFit(stored, BatchSize(configured), maxBody)
    ensures forall i :: 0 <= i < |stored| - 1 ==> ClosedFor(events, stored, [], BatchSize(configured), maxBody, i)
    ensures TicksSeparate(events, stored)
  {
    hide Batches, Weighed, BatchSize;
    var batchSize := BatchSize(configured);
    stored := [];
    var docs: seq<Doc>, size := [], 0;
    StartBatches(batchSize, maxBody);
    var k := 0;
    while k < |events|
      invariant 0 <= k <= |events|
      invariant Batches(events[..k], stored, docs, batchSize, maxBody)
      invariant size == Weighed(docs)
    {
      ghost var had, have, before := docs, stored, events[..k];
      assert events[..k + 1] == before + [events[k]];
      match events[k] {
        case Record(b) =>
          if |docs| > 0 && size + |b| + 1 > maxBody {
            stored, docs, size := stored + [docs], [], 0;
          }
          WeighedOneMore(docs, b);
          docs := docs + [b];
          size := size + |b| + 1;
          if |docs| >= batchSize {
            stored, docs, size := stored + [docs], [], 0;
          }
          RecordKeeps(before, have, had, b, batchSize, maxBody, stored, docs);
        case Unencodable =>
          OtherKeeps(before, stored, docs, batchSize, maxBody);
        case Tick =>
          if |docs| > 0 {
            stored, docs, size := stored + [docs], [], 0;
          }
          TickKeeps(before, have, had, batchSize, maxBody);
      }
      WeighedNothing();
      k := k + 1;
    }
    assert events[..k] == events;
    LastBatch(events, stored, docs, batchSize, maxBody);
    if |docs| > 0 {
      stored := stored + [docs];
    }
  }

  // ---- its steps --------------------------------------------------------------------------------

  lemma WeighedNothing()
    ensures Weighed([]) == 0
  {}

  lemma WeighedOneMore(docs: seq<Doc>, b: Doc)
    ensures Weighed(docs + [b]) == Weighed(docs) + |b| + 1
  {
    assert (docs + [b])[..|docs|] == docs;
  }

  lemma StartBatches(size: nat, maxBody: int)
    requires size >= 1
    ensures Batches([], [], [], size, maxBody) && Weighed([]) == 0
  {}

  /** What the loop makes of a record. */
  function Step(stored: seq<seq<Doc>>, docs: seq<Doc>, b: Doc, size: nat, maxBody: int): (r: (seq<seq<Doc>>, seq<Doc>)) {
    var r := if docs != [] && Overflows(docs, b, maxBody) then (stored + [docs], []) else (stored, docs);
    if |r.1| + 1 >= size then (r.0 + [r.1 + [b]], []) else (r.0, r.1 + [b])
  }

  lemma FlatSnoc(stored: seq<seq<Doc>>, docs: seq<Doc>)
    ensures Flat(stored + [docs]) == Flat(stored) + docs
    ensures forall i :: 0 <= i <= |stored| ==> (stored + [docs])[..i] == stored[..i]
  {
    assert (stored + [docs])[..|stored|] == stored;
  }

  lemma MoreEvents(events: seq<Event>, e: Event)
    ensures Records(events + [e]) == Records(events) + if e.Record? then [e.doc] else []
    ensures forall k :: 0 <= k <= |events| ==> (events + [e])[..k] == events[..k]
  {
    assert (events + [e])[..|events|] == events;
  }

  lemma TickStays(events: seq<Event>, e: Event, n: nat)
    requires TickAfter(events, n)
    ensures TickAfter(events + [e], n)
  {
    var k :| 0 <= k < |events| && events[k].Tick? && |Records(events[..k])| == n;
    MoreEvents(events, e);
    assert (events + [e])[k].Tick?;
  }

  /** A batch is added: what was closed stays closed for its reason. */
  lemma ClosedStays(events: seq<Event>, e: Event, stored: seq<seq<Doc>>, open: seq<Doc>, next: seq<Doc>, size: nat, maxBody: int, i: nat)
    requires i < |stored| && ClosedFor(events, stored, open, size, maxBody, i)
    requires open != [] ==> next != [] && next[0] == open[0]
    ensures ClosedFor(events + [e], stored, next, size, maxBody, i)
    ensures next != [] ==> ClosedFor(events + [e], stored + [next], [], size, maxBody, i)
  {
    hide TickAfter, Overflows, Flat;
    FlatSnoc(stored, next);
    if TickAfter(events, |Flat(stored[..i + 1])|) {
      TickStays(events, e, |Flat(stored[..i + 1])|);
    }
    var more := stored + [next];
    assert more[i] == stored[i] && (i + 1 < |stored| ==> more[i + 1] == stored[i + 1]);
  }

  lemma EndsStay(stored: seq<seq<Doc>>, docs: seq<Doc>, n: nat)
    requires BatchEnds(stored, n)
    ensures BatchEnds(stored + [docs], n)
  {
    var i :| 0 <= i <= |stored| && |Flat(stored[..i])| == n;
    FlatSnoc(stored, docs);
    assert (stored + [docs])[..i] == stored[..i];
  }

  lemma SeparateStays(events: seq<Event>, e: Event, stored: seq<seq<Doc>>, docs: seq<Doc>)
    requires TicksSeparate(events, stored) && !e.Tick?
    ensures TicksSeparate(events + [e], stored) && TicksSeparate(events + [e], stored + [docs])
  {
    hide BatchEnds, Records;
    MoreEvents(events, e);
    forall k | 0 <= k < |events + [e]| && (events + [e])[k].Tick?
      ensures BatchEnds(stored, |Records((events + [e])[..k])|)
      ensures BatchEnds(stored + [docs], |Records((events + [e])[..k])|)
    {
      assert events[k].Tick? && (events + [e])[..k] == events[..k];
      EndsStay(stored, docs, |Records(events[..k])|);
    }
  }

  /** A record joins the batch in hand, which then stays open. */
  lemma Grows(events: seq<Event>, stored: seq<seq<Doc>>, docs: seq<Doc>, b: Doc, size: nat, maxBody: int)
    requires Batches(events, stored, docs, size, maxBody) && (docs == [] || !Overflows(docs, b, maxBody))
    requires |docs| + 1 < size
    ensures Batches(events + [Record(b)], stored, docs + [b], size, maxBody)
  {
    hide ClosedFor, TicksSeparate, Flat, Records, Weighed;
    MoreEvents(events, Record(b));
    assert Flat(stored) + (docs + [b]) == Flat(stored) + docs + [b];
    WeighedOneMore(docs, b);
    SeparateStays(events, Record(b), stored, []);
    forall i | 0 <= i < |stored| ensures ClosedFor(events + [Record(b)], stored, docs + [b], size, maxBody, i) {
      ClosedStays(events, Record(b), stored, docs, docs + [b], size, maxBody, i);
    }
  }

  /** A record joins the batch in hand and fills it. */
  lemma Fills(events: seq<Event>, stored: seq<seq<Doc>>, docs: seq<Doc>, b: Doc, size: nat, maxBody: int)
    requires Batches(events, stored, docs, size, maxBody) && (docs == [] || !Overflows(docs, b, maxBody))
    requires |docs| + 1 >= size
    ensures Batches(events + [Record(b)], stored + [docs + [b]], [], size, maxBody)
  {
    hide TicksSeparate, Flat, Records, Weighed, TickAfter;
    var full, e := docs + [b], Record(b);
    MoreEvents(events, e);
    FlatSnoc(stored, full);
    assert Flat(stored) + full + [] == Flat(stored) + docs + [b];
    WeighedOneMore(docs, b);
    SeparateStays(events, e, stored, full);
    forall i | 0 <= i < |stored| + 1 ensures ClosedFor(events + [e], stored + [full], [], size, maxBody, i) {
      if i < |stored| {
        ClosedStays(events, e, stored, docs, full, size, maxBody, i);
      }
    }
  }

  /** A record does not fit: the batch in hand is closed, and the record begins the next. */
  lemma Overflow(events: seq<Event>, stored: seq<seq<Doc>>, docs: seq<Doc>, b: Doc, size: nat, maxBody: int)
    requires Batches(events, stored, docs, size, maxBody) && docs != [] && Overflows(docs, b, maxBody)
    ensures Batches(events + [Record(b)], stored + [docs], [b], size, maxBody)
  {
    hide TicksSeparate, Flat, Records, Weighed, TickAfter, Overflows;
    var e := Record(b);
    MoreEvents(events, e);
    FlatSnoc(stored, docs);
    SeparateStays(events, e, stored, docs);
    forall i | 0 <= i < |stored| + 1 ensures ClosedFor(events + [e], stored + [docs], [b], size, maxBody, i) {
      if i < |stored| {
        ClosedStays(events, e, stored, docs, docs, size, maxBody, i);
      }
    }
  }

  lemma RecordKeeps(events: seq<Event>, stored: seq<seq<Doc>>, docs: seq<Doc>, b: Doc, size: nat, maxBody: int,
                    stored': seq<seq<Doc>>, docs': seq<Doc>)
    requires Batches(events, stored, docs, size, maxBody) && (stored', docs') == Step(stored, docs, b, size, maxBody)
    ensures Batches(events + [Record(b)], stored', docs', size, maxBody)
  {
    if docs != [] && Overflows(docs, b, maxBody) {
      assert |docs| < size;
      hide Batches;
      Overflow(events, stored, docs, b, size, maxBody);
      assert [] + [b] == [b];
    } else {
      hide Batches;
      if |docs| + 1 >= size {
        Fills(events, stored, docs, b, size, maxBody);
      } else {
        Grows(events, stored, docs, b, size, maxBody);
      }
    }
  }

  lemma OtherKeeps(events: seq<Event>, stored: seq<seq<Doc>>, docs: seq<Doc>, size: nat, maxBody: int)
    requires Batches(events, stored, docs, size, maxBody)
    ensures Batches(events + [Unencodable], stored, docs, size, maxBody)
  {
    hide ClosedFor, TicksSeparate, Flat, Records, Weighed;
    MoreEvents(events, Unencodable);
    SeparateStays(events, Unencodable, stored, []);
    forall i | 0 <= i < |stored| ensures ClosedFor(events + [Unencodable], stored, docs, size, maxBody, i) {
      ClosedStays(events, Unencodable, stored, docs, docs, size, maxBody, i);
    }
  }

  lemma TickKeeps(events: seq<Event>, stored: seq<seq<Doc>>, docs: seq<Doc>, size: nat, maxBody: int)
    requires Batches(events, stored, docs, size, maxBody)
    ensures Batches(events + [Tick], if docs == [] then stored else stored + [docs], [], size, maxBody)
  {
    hide TicksSeparate, Flat, Records, Weighed, Overflows, TickAfter;
    var stored' := if docs == [] then stored else stored + [docs];
    MoreEvents(events, Tick);
    FlatSnoc(stored, docs);
    assert Flat(stored') == Records(events + [Tick]);
    TickSeparates(events, stored, docs, stored');
    TickNow(events);
    forall i | 0 <= i < |stored'| ensures ClosedFor(events + [Tick], stored', [], size, maxBody, i) {
      if i < |stored| {
        ClosedStays(events, Tick, stored, docs, docs, size, maxBody, i);
      } else {
        assert stored'[..i + 1] == stored';
      }
    }
  }

  lemma TickNow(events: seq<Event>)
    ensures TickAfter(events + [Tick], |Records(events + [Tick])|)
  {
    hide Records;
    MoreEvents(events, Tick);
    assert (events + [Tick])[|events|].Tick? && (events + [Tick])[..|events|] == events;
  }

  lemma TickSeparates(events: seq<Event>, stored: seq<seq<Doc>>, docs: seq<Doc>, stored': seq<seq<Doc>>)
    requires TicksSeparate(events, stored) && stored' == (if docs == [] then stored else stored + [docs])
    requires |Flat(stored')| == |Records(events)|
    ensures TicksSeparate(events + [Tick], stored')
  {
    MoreEvents(events, Tick);
    hide Records, Flat;
    forall k | 0 <= k < |events + [Tick]| && (events + [Tick])[k].Tick?
      ensures BatchEnds(stored', |Records((events + [Tick])[..k])|)
    {
      assert (events + [Tick])[..k] == events[..k];
      if k < |events| {
        assert events[k].Tick?;
        EndsStay(stored, docs, |Records(events[..k])|);
      } else {
        assert events[..k] == events && stored'[..|stored'|] == stored';
      }
    }
  }

  /** The channel closes: the batch in hand is stored, and every batch before it was closed for a reason. */
  lemma LastBatch(events: seq<Event>, stored: seq<seq<Doc>>, docs: seq<Doc>, size: nat, maxBody: int)
    requires Batches(events, stored, docs, size, maxBody)
    ensures var all := if docs == [] then stored else stored + [docs];
      && Flat(all) == Records(events) && AllFit(all, size, maxBody) && TicksSeparate(events, all)
      && forall i :: 0 <= i < |all| - 1 ==> ClosedFor(events, all, [], size, maxBody, i)
  {
    hide Flat, Records, Weighed, Overflows, TickAfter, BatchEnds;
    FlatSnoc(stored, docs);
    forall k | 0 <= k < |events| && events[k].Tick? ensures BatchEnds(stored + [docs], |Records(events[..k])|) {
      EndsStay(stored, docs, |Records(events[..k])|);
    }
    assert docs == [] ==> Flat(stored) + docs == Flat(stored);
    forall i | 0 <= i < |stored| && docs != [] ensures ClosedFor(events, stored + [docs], [], size, maxBody, i) {
      assert ClosedFor(events, stored, docs, size, maxBody, i);
      assert (stored + [docs])[..i + 1] == stored[..i + 1];
    }
  }

  /** In bytes: a stored body is at most one byte over the bound, unless it is a single record. */
  lemma BodyBound(docs: seq<Doc>, size: nat, maxBody: int)
    requires Fits(docs, size, maxBody)
    ensures |docs| == 1 || |Body(docs)| <= maxBody + 1
  {
    BodySize(docs);
  }
}

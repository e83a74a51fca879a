/** From the record to its delivery: batches are closed in the order their records were encoded in, and each queue delivers in
    that order (internal/exporters/loom/shipper.go). */
module LoomOrder {
  import opened LoomQueues
  import opened Subsequences
  import opened LoomDelivery
  import opened LoomDeliveryLaws
  import opened LoomAccounts

  /** The records that were encoded, in order. */
  function EncodedBy(steps: seq<Step>): seq<Doc> {
    if steps == [] then []
    else EncodedBy(steps[..|steps| - 1]) + if steps[|steps| - 1].Encode? then [steps[|steps| - 1].doc] else []
  }

  /** `closed` are the records of all batches closed so far; `found` is what the spool held at the start. */
  ghost predicate Ordered(s: State, found: seq<Doc>, closed: seq<Doc>, spoken: seq<Doc>) {
    && closed + s.inHand == spoken
    && Subseq(s.spool.put, found + closed) && Subseq(s.mem.put + RefusedDocs(s), closed)
  }

  /** Only the steps that close a batch add to the closed records. */
  function Closing(s: State, step: Step): seq<Doc> {
    if step.SpoolStores? || step.SpoolRefuses? then s.inHand else []
  }

  /** What one step does to the records in hand and to what was put. */
  lemma StepPuts(s: State, step: Step)
    requires Enabled(s, step)
    ensures var t := Next(s, step);
      && t.inHand == (if step.Encode? then s.inHand + [step.doc] else if step.SpoolStores? || step.SpoolRefuses? then [] else s.inHand)
      && t.spool.put == (if step.SpoolStores? then s.spool.put + s.inHand else s.spool.put)
      && t.mem.put == (if step.MemStores? then s.mem.put + RefusedDocs(s) else s.mem.put)
      && RefusedDocs(t) == (if step.SpoolRefuses? then s.inHand else if step.MemStores? then [] else RefusedDocs(s))
      && (step.SpoolStores? || step.SpoolRefuses? ==> RefusedDocs(s) == [])
  {
    hide Lose, Append, Fresh, Deliver, GiveUp, SplitUp, WithLane;
    match step
    case SpoolStores(id, lost) =>
      LosePuts(s, SpoolLane, lost);
      AppendPuts(Lose(s, SpoolLane, lost), SpoolLane, id, s.inHand);
    case SpoolRefuses(lost) => LosePuts(s, SpoolLane, lost);
    case MemStores(id, lost) =>
      LosePuts(s, MemLane, lost);
      AppendPuts(Lose(s, MemLane, lost), MemLane, id, s.batcher.docs);
    case CheckSpool(lost) => LosePuts(s, SpoolLane, lost);
    case Act(ok) => ActPuts(s, s.sender.w, s.sender.it, ok);
    case Discard => ActPuts(s, s.sender.w, s.sender.it, false);
    case _ =>
  }

  ghost predicate SamePuts(s: State, t: State) {
    t.inHand == s.inHand && t.batcher == s.batcher && t.spool.put == s.spool.put && t.mem.put == s.mem.put
  }

  lemma LosePuts(s: State, w: Which, d: nat)
    requires d <= |LaneOf(s, w).items|
    ensures SamePuts(s, Lose(s, w, d))
  {
    hide DocsOf, Orphan;
  }

  lemma AppendPuts(s: State, w: Which, id: string, docs: seq<Doc>)
    ensures var t := Append(s, w, id, docs);
      && t.inHand == s.inHand && t.batcher == s.batcher
      && t.spool.put == (if w.SpoolLane? then s.spool.put + docs else s.spool.put)
      && t.mem.put == (if w.MemLane? then s.mem.put + docs else s.mem.put)
  {}

  lemma ActPuts(s: State, w: Which, it: Item, ok: bool)
    ensures SamePuts(s, Deliver(s, w, it)) && SamePuts(s, GiveUp(s, w, it)) && SamePuts(s, SplitUp(s, w, it, ok))
  {
    hide Without, Halved, Present, Again;
  }

  lemma StepOrdered(s: State, step: Step, found: seq<Doc>, closed: seq<Doc>, spoken: seq<Doc>)
    requires Enabled(s, step) && Ordered(s, found, closed, spoken)
    ensures Ordered(Next(s, step), found, closed + Closing(s, step), spoken + if step.Encode? then [step.doc] else [])
  {
    hide Enabled, Next, Subseq, RefusedDocs;
    assert s.mem.put + [] == s.mem.put;
    StepPuts(s, step);
    var t, x := Next(s, step), Closing(s, step);
    assert s.mem.put + RefusedDocs(s) + [] == s.mem.put + RefusedDocs(s);
    assert (found + closed) + x == found + (closed + x);
    SubseqAppend(s.spool.put, found + closed, x);
    SubseqAppend(s.mem.put + RefusedDocs(s), closed, x);
    SubseqLonger(s.spool.put, found + closed, x);
    SubseqLonger(s.mem.put + RefusedDocs(s), closed, x);
    assert closed + x + t.inHand == spoken + if step.Encode? then [step.doc] else [];
    assert x == [] ==> closed + x == closed;
  }

  lemma StartOrdered(s: State)
    requires Start(s)
    ensures Ordered(s, s.spool.put, [], [])
  {
    SubseqSelf(s.spool.put);
    assert s.spool.put + [] == s.spool.put && s.mem.put + RefusedDocs(s) == [];
    SubseqSelf<Doc>([]);
    hide Subseq;
  }

  /** At any moment of any run, the records of all closed batches and those in hand are the encoded ones, in order; the spool was
      given a part of the closed ones, behind what it held at the start, and memory, with the batch on its way there, another. */
  lemma {:induction false} RunOrdered(ss: seq<State>, steps: seq<Step>, n: nat) returns (closed: seq<Doc>)
    requires Follows(ss, steps) && Start(ss[0]) && n <= |steps|
    ensures Ordered(ss[n], ss[0].spool.put, closed, EncodedBy(steps[..n]))
    decreases n
  {
    hide Ordered, Start, Enabled, Next;
    if n == 0 {
      closed := [];
      StartOrdered(ss[0]);
    } else {
      var before := RunOrdered(ss, steps, n - 1);
      assert Enabled(ss[n - 1], steps[n - 1]) && ss[n] == Next(ss[n - 1], steps[n - 1]);
      StepOrdered(ss[n - 1], steps[n - 1], ss[0].spool.put, before, EncodedBy(steps[..n - 1]));
      closed := before + Closing(ss[n - 1], steps[n - 1]);
      assert steps[..n][..n - 1] == steps[..n - 1];
    }
  }

  /** What is delivered from the spool is in the order of what it held at the start and then of the encoded records; what is
      delivered from memory is in the order of the encoded records. */
  lemma DeliveredAsEncoded(ss: seq<State>, steps: seq<Step>, n: nat)
    requires IsRun(ss, steps) && n <= |steps|
    ensures Subseq(ss[n].spool.delivered, ss[0].spool.put + EncodedBy(steps[..n]))
    ensures Subseq(ss[n].mem.delivered, EncodedBy(steps[..n]))
  {
    DeliveredInOrder(ss, steps, n, SpoolLane);
    DeliveredInOrder(ss, steps, n, MemLane);
    var closed := RunOrdered(ss, steps, n);
    hide IsRun, Subseq, EncodedBy;
    var s, found, spoken := ss[n], ss[0].spool.put, EncodedBy(steps[..n]);
    SubseqLonger(s.spool.put, found + closed, s.inHand);
    assert found + closed + s.inHand == found + spoken;
    SubseqTransitive(s.spool.delivered, s.spool.put, found + spoken);
    assert s.mem.put + RefusedDocs(s) == s.mem.put + (RefusedDocs(s) + []);
    SubseqWithout(s.mem.put, RefusedDocs(s), [], closed);
    assert s.mem.put + [] == s.mem.put;
    SubseqLonger(s.mem.put, closed, s.inHand);
    SubseqTransitive(s.mem.delivered, s.mem.put, spoken);
  }
}

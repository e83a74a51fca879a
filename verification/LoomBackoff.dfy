/** How long the sender pauses after failures: the backoff of send (internal/exporters/loom/shipper.go). */
module LoomBackoff {
  import opened Options

  /** What a pass of drain came back with: all posted; or a failure, with the pause that was asked for, 0 for none. */
  datatype Pass = Done | Failed(asked: int)

  /** The pass leaves the length of the pause to the sender. */
  predicate Own(p: Pass) {
    p.Failed? && p.asked <= 0
  }

  /** The sender's own pauses since the last pass that was done. */
  function OwnSince(passes: seq<Pass>): (n: nat) {
    if passes == [] || passes[|passes| - 1].Done? then 0
    else OwnSince(passes[..|passes| - 1]) + if Own(passes[|passes| - 1]) then 1 else 0
  }

  function Pow2(k: nat): (p: nat)
    ensures p > 0
  {
    if k == 0 then 1 else 2 * Pow2(k - 1)
  }

  /** The first pause, and then twice as long each time, up to the longest. */
  function Length(base: nat, longest: nat, k: nat): nat {
    if k == 0 then base else if base * Pow2(k) <= longest then base * Pow2(k) else longest
  }

  /** The pause after pass i; none after one that was done. */
  ghost predicate RightPause(passes: seq<Pass>, i: nat, pause: Option<int>, base: nat, longest: nat)
    requires i < |passes|
  {
    match passes[i]
    case Done => pause == None
    case Failed(asked) => pause == Some(if asked > 0 then asked else Length(base, longest, OwnSince(passes[..i])))
  }

  lemma LengthDoubles(base: nat, longest: nat, k: nat)
    ensures var l := Length(base, longest, k); Length(base, longest, k + 1) == if 2 * l <= longest then 2 * l else longest
  {
    assert base * Pow2(k + 1) == 2 * (base * Pow2(k));
  }

  /** The loop over the passes: a pause that was asked for is kept to, and does not count; otherwise pauses double up to the
      longest until a pass is done. */
  method Send(passes: seq<Pass>, base: nat, longest: nat) returns (pauses: seq<Option<int>>)
    ensures |pauses| == |passes|
    ensures forall i :: 0 <= i < |passes| ==> RightPause(passes, i, pauses[i], base, longest)
  {
    hide Length;
    pauses := [];
    var backoff := base;
    LengthStarts(base, longest);
    for i := 0 to |passes|
      invariant |pauses| == i && backoff == Length(base, longest, OwnSince(passes[..i]))
      invariant forall j :: 0 <= j < i ==> RightPause(passes, j, pauses[j], base, longest)
    {
      assert passes[..i + 1][..i] == passes[..i];
      match passes[i] {
        case Done =>
          backoff := base;
          pauses := pauses + [None];
        case Failed(asked) =>
          var wait := asked;
          if wait <= 0 {
            wait := backoff;
            LengthDoubles(base, longest, OwnSince(passes[..i]));
            backoff := if 2 * backoff <= longest then 2 * backoff else longest;
          }
          pauses := pauses + [Some(wait)];
      }
    }
  }

  lemma LengthStarts(base: nat, longest: nat)
    ensures Length(base, longest, 0) == base
  {}

  /** No pause of the sender's own is longer than the longest, and none is shorter than the first, if it may be that long. */
  lemma {:induction false} LengthBounds(base: nat, longest: nat, k: nat)
    requires base <= longest
    ensures base <= Length(base, longest, k) <= longest
  {
    hide Length;
    if k == 0 {
      LengthStarts(base, longest);
    } else {
      LengthBounds(base, longest, k - 1);
      LengthDoubles(base, longest, k - 1);
    }
  }
}

/** Joining stored CRYPTO segments into a stream: Attempt.contiguous and Attempt.hello
    of internal/quic/assemble.go. */
module Reassembly {
  import opened Options
  import opened Bytes

  /** Stored segments by the offset they start at. */
  type Segments = map<nat, seq<byte>>

  const MAX_CRYPTO_BYTES: nat := 8192

  predicate Covers(m: Segments, o: nat, p: nat) {
    o in m && o <= p < o + |m[o]|
  }

  ghost predicate Covered(m: Segments, p: nat) {
    exists o: nat :: Covers(m, o, p)
  }

  /** Segment o is the one of lowest offset among those that cover position p. */
  ghost predicate LowestCover(m: Segments, o: nat, p: nat) {
    Covers(m, o, p) && forall q: nat :: Covers(m, q, p) ==> o <= q
  }

  /** Byte p of the stream is c: it comes from the lowest-offset segment that covers p. */
  ghost predicate ByteAt(m: Segments, p: nat, c: byte) {
    exists o: nat :: LowestCover(m, o, p) && c == m[o][p - o]
  }

  /** r holds the bytes of positions 0 up to, not including, the first position no segment covers. */
  ghost predicate IsContiguous(m: Segments, r: seq<byte>) {
    && (forall p :: 0 <= p < |r| ==> ByteAt(m, p, r[p]))
    && !Covered(m, |r|)
  }

  lemma NotLonger(m: Segments, r: seq<byte>, t: seq<byte>)
    requires IsContiguous(m, r) && IsContiguous(m, t)
    ensures |t| <= |r|
  {
    forall p | 0 <= p < |t| ensures Covered(m, p) {
      assert ByteAt(m, p, t[p]);
    }
  }

  lemma ContiguousUnique(m: Segments, r: seq<byte>, t: seq<byte>)
    requires IsContiguous(m, r) && IsContiguous(m, t)
    ensures r == t
  {
    NotLonger(m, r, t);
    NotLonger(m, t, r);
    forall p | 0 <= p < |r| ensures r[p] == t[p] {
      assert ByteAt(m, p, r[p]) && ByteAt(m, p, t[p]);
    }
  }

  lemma {:induction false} LowestExists(m: Segments, o: nat, p: nat)
    requires Covers(m, o, p)
    ensures exists q: nat :: LowestCover(m, q, p)
    decreases o
  {
    if q: nat :| Covers(m, q, p) && q < o {
      LowestExists(m, q, p);
    } else {
      assert LowestCover(m, o, p);
    }
  }

  /** An upper bound on the end of every segment. */
  ghost function Extent(m: Segments): (e: nat)
    ensures forall o :: o in m ==> o + |m[o]| <= e
    decreases |m|
  {
    if m == map[] then 0
    else
      var o :| o in m;
      var e := Extent(m - {o});
      assert forall q :: q in m && q != o ==> q in m - {o};
      if o + |m[o]| > e then o + |m[o]| else e
  }

  lemma PrependByte(m: Segments, p: nat, c: byte, rest: seq<byte>)
    requires ByteAt(m, p, c)
    requires forall i :: 0 <= i < |rest| ==> ByteAt(m, p + 1 + i, rest[i])
    ensures forall i :: 0 <= i < |rest| + 1 ==> ByteAt(m, p + i, ([c] + rest)[i])
  {
    forall i | 0 <= i < |rest| + 1 ensures ByteAt(m, p + i, ([c] + rest)[i]) {
      if i > 0 {
        assert ByteAt(m, p + 1 + (i - 1), rest[i - 1]);
      }
    }
  }

  ghost function StreamFrom(m: Segments, p: nat, bound: nat): (r: seq<byte>)
    requires forall o :: o in m ==> o + |m[o]| <= bound
    ensures forall i :: 0 <= i < |r| ==> ByteAt(m, p + i, r[i])
    ensures !Covered(m, p + |r|)
    decreases bound - p
  {
    if p >= bound || !Covered(m, p) then []
    else
      var w :| Covers(m, w, p);
      LowestExists(m, w, p);
      var o: nat :| LowestCover(m, o, p);
      var rest := StreamFrom(m, p + 1, bound);
      PrependByte(m, p, m[o][p - o], rest);
      [m[o][p - o]] + rest
  }

  /** The stream from offset 0 up to the first gap. */
  ghost function Contiguous(m: Segments): (r: seq<byte>)
    ensures IsContiguous(m, r)
  {
    StreamFrom(m, 0, Extent(m))
  }

  ghost predicate Ascending(s: seq<nat>) {
    forall i, j :: 0 <= i < j < |s| ==> s[i] < s[j]
  }

  /** The offsets in increasing order, as sort.Slice leaves them. */
  method SortedOffsets(m: Segments) returns (offs: seq<nat>)
    ensures Ascending(offs)
    ensures forall o :: o in m <==> o in offs
  {
    offs := [];
    var todo := m.Keys;
    while todo != {}
      invariant Ascending(offs)
      invariant todo <= m.Keys
      invariant forall o :: o in m <==> o in offs || o in todo
      invariant forall o, q :: o in offs && q in todo ==> o < q
      decreases |todo|
    {
      var least := Least(todo);
      assert forall j :: 0 <= j < |offs| ==> offs[j] in offs;
      offs := offs + [least];
      todo := todo - {least};
    }
  }

  method Least(s: set<nat>) returns (least: nat)
    requires s != {}
    ensures least in s && forall o :: o in s ==> least <= o
  {
    least :| least in s;
    var todo := s - {least};
    while todo != {}
      invariant least in s && todo <= s
      invariant forall o :: o in s ==> o in todo || least <= o
      decreases |todo|
    {
      var o :| o in todo;
      todo := todo - {o};
      if o < least {
        least := o;
      }
    }
  }

  /** contiguous: segments in offset order, each adding what lies past the end so far, up to the first gap. */
  method JoinSegments(m: Segments) returns (out: seq<byte>)
    ensures IsContiguous(m, out)
  {
    var offs := SortedOffsets(m);
    out := [];
    var i := 0;
    while i < |offs|
      invariant 0 <= i <= |offs|
      invariant forall p :: 0 <= p < |out| ==> ByteAt(m, p, out[p])
      invariant forall j :: 0 <= j < i ==> offs[j] + |m[offs[j]]| <= |out|
    {
      var o, have := offs[i], |out|;
      if o > have {
        break;
      }
      var d := m[o];
      if o + |d| > have {
        var longer := out + d[have - o..];
        forall p | have <= p < |longer| ensures ByteAt(m, p, longer[p]) {
          assert LowestCover(m, o, p) by {
            forall q: nat | Covers(m, q, p) ensures o <= q {
              var j :| 0 <= j < |offs| && offs[j] == q;
            }
          }
        }
        out := longer;
      }
      i := i + 1;
    }
    forall q: nat ensures !Covers(m, q, |out|) {
      if q in m {
        var j :| 0 <= j < |offs| && offs[j] == q;
      }
    }
  }

  /** hello: a ClientHello message (type 1, a 24-bit length) at the start of the stream, once all of it is there. */
  function HelloOf(stream: seq<byte>): (h: Option<seq<byte>>)
    ensures h.Some? ==> 4 <= |h.value| <= MAX_CRYPTO_BYTES && h.value <= stream
  {
    if |stream| < 4 || stream[0] != 0x01 then None
    else
      var n := stream[1] as int * 0x1_0000 + stream[2] as int * 0x100 + stream[3];
      if 4 + n > MAX_CRYPTO_BYTES || |stream| < 4 + n then None
      else Some(stream[..4 + n])
  }

  // ---- segments cut from one stream ----------------------------------------------

  /** Every stored segment is the slice of s at its offset. */
  ghost predicate SlicesOf(m: Segments, s: seq<byte>) {
    forall o :: o in m ==> o + |m[o]| <= |s| && m[o] == s[o..o + |m[o]|]
  }

  /** Overlapping slices of one stream join to a prefix of it, and to all of it exactly when no position is missing. */
  lemma JoinIsPrefix(m: Segments, s: seq<byte>)
    requires SlicesOf(m, s)
    ensures Contiguous(m) <= s
    ensures Contiguous(m) == s <==> forall p: nat :: p < |s| ==> Covered(m, p)
  {
    var r := Contiguous(m);
    forall p | 0 <= p < |r| ensures p < |s| && r[p] == s[p] {
      assert ByteAt(m, p, r[p]);
    }
    var last := if |r| > 0 then r[|r| - 1] else 0;
    if r == s {
      forall p: nat | p < |s| ensures Covered(m, p) {
        assert ByteAt(m, p, r[p]);
      }
    }
  }

  /** Two stores of slices of one stream with the same covered positions join to the same bytes. */
  lemma JoinByCoverage(m: Segments, n: Segments, s: seq<byte>)
    requires SlicesOf(m, s) && SlicesOf(n, s)
    requires forall p: nat :: Covered(m, p) <==> Covered(n, p)
    ensures Contiguous(m) == Contiguous(n)
  {
    JoinIsPrefix(m, s);
    JoinIsPrefix(n, s);
    var r, t := Contiguous(m), Contiguous(n);
    forall p | 0 <= p < |t| ensures Covered(n, p) {
      assert ByteAt(n, p, t[p]);
    }
    forall p | 0 <= p < |r| ensures Covered(m, p) {
      assert ByteAt(m, p, r[p]);
    }
  }
}

/** Asking the connection tracking table for an original destination: the request, and the reading of the replies
    (pkg/conntrack/message.go). */
module Conntrack {
  import opened Bytes
  import opened Netlink

  const HEADER: nat := 16
  const NLMSG_ERROR: nat := 2
  const NLMSG_DONE: nat := 3
  const NLM_F_REQUEST: nat := 1
  const CT_NEW: nat := 0x100
  const CT_GET: nat := 0x101
  const TUPLE_ORIG: nat := 1
  const TUPLE_REPLY: nat := 2
  const TUPLE_IP: nat := 1
  const TUPLE_PROTO: nat := 2
  const IPV4_SRC: nat := 1
  const IPV4_DST: nat := 2
  const IPV6_SRC: nat := 3
  const IPV6_DST: nat := 4
  const PROTO_NUM: nat := 1
  const PROTO_SRC: nat := 2
  const PROTO_DST: nat := 3
  const AF_INET: byte := 2
  const AF_INET6: byte := 10

  /** The bytes of an address: 4, 16, or none for the zero address. */
  type Addr = a: seq<byte> | |a| == 0 || |a| == 4 || |a| == 16

  predicate Is4(a: Addr) {
    |a| == 4
  }

  /** netip.AddrFromSlice succeeds. */
  predicate IsAddress(val: seq<byte>) {
    |val| == 4 || |val| == 16
  }

  datatype AddrPort = AddrPort(addr: Addr, port: nat)

  // ---- the original destination ---------------------------------------------------------------------

  /** The variables the nested callbacks assign. */
  datatype Found = Found(ip: Addr, port: nat, havePort: bool)

  function IpStep(st: Found, typ: nat, val: seq<byte>): (r: Result<Found>) {
    Ok(if (typ == IPV4_DST || typ == IPV6_DST) && IsAddress(val) then st.(ip := val) else st)
  }

  function ProtoStep(st: Found, typ: nat, val: seq<byte>): (r: Result<Found>) {
    Ok(if typ == PROTO_DST && |val| >= 2 then st.(port := Get16(Big, val[..2]), havePort := true) else st)
  }

  function TupleStep(e: Endian): (Found, nat, seq<byte>) -> Result<Found> {
    (st: Found, typ: nat, val: seq<byte>) =>
      if typ == TUPLE_IP then Attrs(e, val, IpStep, st)
      else if typ == TUPLE_PROTO then Attrs(e, val, ProtoStep, st)
      else Ok(st)
  }

  function TopStep(e: Endian): (Found, nat, seq<byte>) -> Result<Found> {
    (st: Found, typ: nat, val: seq<byte>) => if typ == TUPLE_ORIG then Attrs(e, val, TupleStep(e), st) else Ok(st)
  }

  function OrigDst(e: Endian, b: seq<byte>): (r: Result<AddrPort>) {
    var f := Attrs(e, b, TopStep(e), Found([], 0, false));
    if f.Err? then Err(f.error)
    else if !IsAddress(f.value.ip) || !f.value.havePort then Err(NoDestination)
    else Ok(AddrPort(f.value.ip, f.value.port))
  }

  // ---- what it is in the tree of attributes ---------------------------------------------------------

  /** A value with the types that lead to it. */
  datatype Leaf = Leaf(path: seq<nat>, payload: seq<byte>)

  function LeavesOf(path: seq<nat>, n: Node): (r: seq<Leaf>)
    decreases n
  {
    match n
    case Value(typ, payload) => [Leaf(path + [typ], payload)]
    case Nest(typ, inner) => Leaves(path + [typ], inner)
  }

  function Leaves(path: seq<nat>, nodes: seq<Node>): (r: seq<Leaf>)
    decreases nodes
  {
    if nodes == [] then [] else LeavesOf(path, nodes[0]) + Leaves(path, nodes[1..])
  }

  /** The original tuple's destination address, of a length an address has. */
  predicate IsDstAddress(l: Leaf) {
    (l.path == [TUPLE_ORIG, TUPLE_IP, IPV4_DST] || l.path == [TUPLE_ORIG, TUPLE_IP, IPV6_DST]) && IsAddress(l.payload)
  }

  /** The original tuple's destination port. */
  predicate IsDstPort(l: Leaf) {
    l.path == [TUPLE_ORIG, TUPLE_PROTO, PROTO_DST] && |l.payload| >= 2
  }

  function Update(st: Found, l: Leaf): (r: Found) {
    if IsDstAddress(l) then st.(ip := l.payload)
    else if IsDstPort(l) then st.(port := Get16(Big, l.payload[..2]), havePort := true)
    else st
  }

  function Updates(st: Found, leaves: seq<Leaf>): (r: Found) {
    if leaves == [] then st else Update(Updates(st, leaves[..|leaves| - 1]), leaves[|leaves| - 1])
  }

  /** Where a path to a destination goes through, there is a nest; and at its end there is a value. */
  ghost predicate Shaped(nodes: seq<Node>) {
    forall i :: 0 <= i < |nodes| && nodes[i].typ == TUPLE_ORIG ==> nodes[i].Nest? && ShapedTuple(nodes[i].inner)
  }

  ghost predicate ShapedTuple(nodes: seq<Node>) {
    forall i :: 0 <= i < |nodes| ==>
      && (nodes[i].typ == TUPLE_IP ==> nodes[i].Nest? && ShapedIp(nodes[i].inner))
      && (nodes[i].typ == TUPLE_PROTO ==> nodes[i].Nest? && ShapedProto(nodes[i].inner))
  }

  ghost predicate ShapedIp(nodes: seq<Node>) {
    forall i :: 0 <= i < |nodes| && (nodes[i].typ == IPV4_DST || nodes[i].typ == IPV6_DST) ==> nodes[i].Value?
  }

  ghost predicate ShapedProto(nodes: seq<Node>) {
    forall i :: 0 <= i < |nodes| && nodes[i].typ == PROTO_DST ==> nodes[i].Value?
  }

  lemma {:induction false} UpdatesTwoParts(st: Found, x: seq<Leaf>, y: seq<Leaf>)
    ensures Updates(st, x + y) == Updates(Updates(st, x), y)
    decreases |y|
  {
    hide Update;
    if y == [] {
      assert x + y == x;
    } else {
      UpdatesTwoParts(st, x, y[..|y| - 1]);
      assert (x + y)[..|x + y| - 1] == x + y[..|y| - 1];
    }
  }

  lemma UpdatesOne(st: Found, l: Leaf)
    ensures Updates(st, [l]) == Update(st, l)
  {
    hide Update;
    assert [l][..0] == [];
  }

  /** Paths on the way to a destination. */
  predicate Leads(path: seq<nat>) {
    path == [] || path == [TUPLE_ORIG] || path == [TUPLE_ORIG, TUPLE_IP] || path == [TUPLE_ORIG, TUPLE_PROTO]
  }

  lemma ShorterLeads(path: seq<nat>, typ: nat, payload: seq<byte>)
    requires !Leads(path)
    ensures !Leads(path + [typ]) && !IsDstAddress(Leaf(path + [typ], payload)) && !IsDstPort(Leaf(path + [typ], payload))
  {
    var longer := path + [typ];
    assert path == longer[..|longer| - 1];
  }

  /** Nothing off the paths is read. */
  lemma {:induction false} Unread(st: Found, path: seq<nat>, nodes: seq<Node>)
    requires !Leads(path)
    ensures Updates(st, Leaves(path, nodes)) == st
    decreases nodes, 1
  {
    hide Leads, Updates;
    NoUpdates(st);
    if nodes != [] {
      UnreadOne(st, path, nodes[0]);
      Unread(st, path, nodes[1..]);
      UpdatesTwoParts(st, LeavesOf(path, nodes[0]), Leaves(path, nodes[1..]));
    }
  }

  lemma {:induction false} UnreadOne(st: Found, path: seq<nat>, n: Node)
    requires !Leads(path)
    ensures Updates(st, LeavesOf(path, n)) == st
    decreases n, 0
  {
    hide Leads, Updates;
    match n
    case Value(typ, payload) =>
      ShorterLeads(path, typ, payload);
      UpdatesOne(st, Leaf(path + [typ], payload));
    case Nest(typ, inner) =>
      ShorterLeads(path, typ, []);
      Unread(st, path + [typ], inner);
  }

  lemma NoUpdates(st: Found)
    ensures Updates(st, []) == st
  {}

  /** The callback does to one node what its leaves say. */
  ghost predicate Reads(e: Endian, step: (Found, nat, seq<byte>) -> Result<Found>, path: seq<nat>, n: Node) {
    forall st :: step(st, n.typ, PairOf(e, n).1) == Ok(Updates(st, LeavesOf(path, n)))
  }

  lemma {:induction false} FoldReads(e: Endian, step: (Found, nat, seq<byte>) -> Result<Found>, path: seq<nat>, nodes: seq<Node>, st: Found)
    requires Sound(e, nodes) && forall i :: 0 <= i < |nodes| ==> Reads(e, step, path, nodes[i])
    ensures Fold(AllMasked(PairsOf(e, nodes)), step, st) == Ok(Updates(st, Leaves(path, nodes)))
    decreases nodes
  {
    hide Masked, PairOf, LeavesOf, Updates;
    NoUpdates(st);
    if nodes != [] {
      var pairs := AllMasked(PairsOf(e, nodes));
      TypeSeen(e, nodes[0]);
      assert pairs[1..] == AllMasked(PairsOf(e, nodes[1..]));
      assert Reads(e, step, path, nodes[0]);
      var next := Updates(st, LeavesOf(path, nodes[0]));
      FoldReads(e, step, path, nodes[1..], next);
      UpdatesTwoParts(st, LeavesOf(path, nodes[0]), Leaves(path, nodes[1..]));
    }
  }

  lemma TypeSeen(e: Endian, n: Node)
    requires n.typ <= TYPE_MASK
    ensures Masked(PairOf(e, n).0) == n.typ
  {
    MaskOfNested(n.typ);
  }

  lemma SoundIsShort(e: Endian, nodes: seq<Node>)
    requires Sound(e, nodes)
    ensures AllShort(PairsOf(e, nodes))
  {
    hide PairOf;
  }

  lemma WalkReads(e: Endian, step: (Found, nat, seq<byte>) -> Result<Found>, path: seq<nat>, nodes: seq<Node>, st: Found)
    requires Sound(e, nodes) && forall i :: 0 <= i < |nodes| ==> Reads(e, step, path, nodes[i])
    ensures Attrs(e, EncodeNodes(e, nodes), step, st) == Ok(Updates(st, Leaves(path, nodes)))
  {
    hide Attrs, EncodeNodes, Updates, Leaves, Reads, Sound;
    var pairs := PairsOf(e, nodes);
    SoundIsShort(e, nodes);
    NodesArePairs(e, nodes);
    WalksWhatWasBuilt(e, pairs, [], step, st);
    assert EncodeAll(e, pairs) + [] == EncodeAll(e, pairs);
    FoldReads(e, step, path, nodes, st);
    NothingToWalk(e, step, Updates(st, Leaves(path, nodes)));
  }

  lemma IpReads(e: Endian, n: Node)
    requires n.typ == IPV4_DST || n.typ == IPV6_DST ==> n.Value?
    ensures Reads(e, IpStep, [TUPLE_ORIG, TUPLE_IP], n)
  {
    hide Updates, Leaves;
    var path := [TUPLE_ORIG, TUPLE_IP] + [n.typ];
    assert path == [TUPLE_ORIG, TUPLE_IP, n.typ];
    forall st ensures IpStep(st, n.typ, PairOf(e, n).1) == Ok(Updates(st, LeavesOf([TUPLE_ORIG, TUPLE_IP], n))) {
      match n
      case Value(_, payload) => UpdatesOne(st, Leaf(path, payload));
      case Nest(_, inner) => Unread(st, path, inner);
    }
  }

  lemma ProtoReads(e: Endian, n: Node)
    requires n.typ == PROTO_DST ==> n.Value?
    ensures Reads(e, ProtoStep, [TUPLE_ORIG, TUPLE_PROTO], n)
  {
    hide Updates, Leaves, Get16;
    var path := [TUPLE_ORIG, TUPLE_PROTO] + [n.typ];
    assert path == [TUPLE_ORIG, TUPLE_PROTO, n.typ];
    forall st ensures ProtoStep(st, n.typ, PairOf(e, n).1) == Ok(Updates(st, LeavesOf([TUPLE_ORIG, TUPLE_PROTO], n))) {
      match n
      case Value(_, payload) => UpdatesOne(st, Leaf(path, payload));
      case Nest(_, inner) => Unread(st, path, inner);
    }
  }

  lemma TupleReads(e: Endian, n: Node)
    requires ShapedTuple([n]) && (n.Nest? ==> Sound(e, n.inner))
    ensures Reads(e, TupleStep(e), [TUPLE_ORIG], n)
  {
    hide Updates, Attrs, Leaves, Sound;
    assert [n][0] == n;
    forall st ensures TupleStep(e)(st, n.typ, PairOf(e, n).1) == Ok(Updates(st, LeavesOf([TUPLE_ORIG], n))) {
      var path := [TUPLE_ORIG] + [n.typ];
      if n.typ == TUPLE_IP {
        forall i | 0 <= i < |n.inner| ensures Reads(e, IpStep, path, n.inner[i]) {
          assert path == [TUPLE_ORIG, TUPLE_IP];
          IpReads(e, n.inner[i]);
        }
        WalkReads(e, IpStep, path, n.inner, st);
      } else if n.typ == TUPLE_PROTO {
        forall i | 0 <= i < |n.inner| ensures Reads(e, ProtoStep, path, n.inner[i]) {
          assert path == [TUPLE_ORIG, TUPLE_PROTO];
          ProtoReads(e, n.inner[i]);
        }
        WalkReads(e, ProtoStep, path, n.inner, st);
      } else {
        assert path[1] == n.typ;
        OffPath([TUPLE_ORIG], n, st);
      }
    }
  }

  /** A node that no path to a destination goes through. */
  lemma OffPath(path: seq<nat>, n: Node, st: Found)
    requires |path| <= 1 && !Leads(path + [n.typ])
    ensures Updates(st, LeavesOf(path, n)) == st
  {
    hide Updates;
    match n
    case Value(typ, payload) => UpdatesOne(st, Leaf(path + [typ], payload));
    case Nest(typ, inner) => Unread(st, path + [typ], inner);
  }

  lemma TopReads(e: Endian, n: Node)
    requires Shaped([n]) && (n.Nest? ==> Sound(e, n.inner))
    ensures Reads(e, TopStep(e), [], n)
  {
    hide Updates, Attrs, Leaves, Reads, ShapedTuple;
    assert [n][0] == n;
    forall st ensures TopStep(e)(st, n.typ, PairOf(e, n).1) == Ok(Updates(st, LeavesOf([], n))) {
      if n.typ == TUPLE_ORIG {
        assert [] + [n.typ] == [TUPLE_ORIG];
        forall i | 0 <= i < |n.inner| ensures Reads(e, TupleStep(e), [TUPLE_ORIG], n.inner[i]) {
          PartsShaped(n.inner, i);
          PartsSound(e, n.inner, i);
          TupleReads(e, n.inner[i]);
        }
        WalkReads(e, TupleStep(e), [TUPLE_ORIG], n.inner, st);
      } else {
        assert ([] + [n.typ])[0] == n.typ;
        OffPath([], n, st);
      }
    }
    assert Reads(e, TopStep(e), [], n) by { ReadsIs(e, TopStep(e), [], n); }
  }

  lemma ReadsIs(e: Endian, step: (Found, nat, seq<byte>) -> Result<Found>, path: seq<nat>, n: Node)
    requires forall st :: step(st, n.typ, PairOf(e, n).1) == Ok(Updates(st, LeavesOf(path, n)))
    ensures Reads(e, step, path, n)
  {}

  lemma PartsShaped(nodes: seq<Node>, i: nat)
    requires ShapedTuple(nodes) && i < |nodes|
    ensures ShapedTuple([nodes[i]])
  {}

  lemma PartsSound(e: Endian, nodes: seq<Node>, i: nat)
    requires Sound(e, nodes) && i < |nodes|
    ensures nodes[i].Nest? ==> Sound(e, nodes[i].inner)
  {
    hide PairOf;
  }

  /** On attributes that were built, reading the original destination is updating by their leaves, in order. */
  lemma OrigDstReads(e: Endian, nodes: seq<Node>)
    requires Sound(e, nodes) && Shaped(nodes)
    ensures Attrs(e, EncodeNodes(e, nodes), TopStep(e), Found([], 0, false)) == Ok(Updates(Found([], 0, false), Leaves([], nodes)))
  {
    hide Attrs, Updates, Leaves, Sound, EncodeNodes, Reads, ShapedTuple;
    forall i | 0 <= i < |nodes| ensures Reads(e, TopStep(e), [], nodes[i]) {
      PartsSound(e, nodes, i);
      assert Shaped([nodes[i]]);
      TopReads(e, nodes[i]);
    }
    WalkReads(e, TopStep(e), [], nodes, Found([], 0, false));
  }

  /** i is the last leaf that gives an address, or -1. */
  ghost predicate LastAddress(leaves: seq<Leaf>, i: int) {
    && -1 <= i < |leaves| && (i >= 0 ==> IsDstAddress(leaves[i]))
    && forall j :: i < j < |leaves| ==> !IsDstAddress(leaves[j])
  }

  ghost predicate LastPort(leaves: seq<Leaf>, i: int) {
    && -1 <= i < |leaves| && (i >= 0 ==> IsDstPort(leaves[i]))
    && forall j :: i < j < |leaves| ==> !IsDstPort(leaves[j])
  }

  lemma {:induction false} LastOnesWin(leaves: seq<Leaf>, a: int, p: int)
    requires LastAddress(leaves, a) && LastPort(leaves, p)
    ensures var st := Updates(Found([], 0, false), leaves);
      && st.ip == (if a < 0 then [] else leaves[a].payload)
      && st.havePort == (p >= 0)
      && st.port == (if p < 0 then 0 else Get16(Big, leaves[p].payload[..2]))
    decreases |leaves|
  {
    hide Get16;
    if leaves != [] {
      var n := |leaves| - 1;
      var front := leaves[..n];
      var a' := if a == n then SomeLastAddress(front) else a;
      var p' := if p == n then SomeLastPort(front) else p;
      LastOnesWin(front, a', p');
    }
  }

  ghost function SomeLastAddress(leaves: seq<Leaf>): (i: int)
    ensures LastAddress(leaves, i)
  {
    if leaves == [] then -1
    else if IsDstAddress(leaves[|leaves| - 1]) then |leaves| - 1
    else SomeLastAddress(leaves[..|leaves| - 1])
  }

  ghost function SomeLastPort(leaves: seq<Leaf>): (i: int)
    ensures LastPort(leaves, i)
  {
    if leaves == [] then -1
    else if IsDstPort(leaves[|leaves| - 1]) then |leaves| - 1
    else SomeLastPort(leaves[..|leaves| - 1])
  }

  /** What an entry answers: the last destination address and the last destination port of its original tuple, or
      that one of them is missing. */
  ghost predicate Answers(r: Result<AddrPort>, nodes: seq<Node>) {
    var leaves := Leaves([], nodes);
    forall a, p :: LastAddress(leaves, a) && LastPort(leaves, p) ==>
      r == if a < 0 || p < 0 then Err(NoDestination) else Ok(AddrPort(leaves[a].payload, Get16(Big, leaves[p].payload[..2])))
  }

  lemma OrigDstAnswers(e: Endian, nodes: seq<Node>)
    requires Sound(e, nodes) && Shaped(nodes)
    ensures Answers(OrigDst(e, EncodeNodes(e, nodes)), nodes)
  {
    hide Attrs, Updates, Leaves, Sound, EncodeNodes, Shaped, Get16, IsDstPort;
    OrigDstReads(e, nodes);
    var leaves := Leaves([], nodes);
    forall a, p | LastAddress(leaves, a) && LastPort(leaves, p)
      ensures var st := Updates(Found([], 0, false), leaves);
        && st.ip == (if a < 0 then [] else leaves[a].payload)
        && st.havePort == (p >= 0)
    {
      LastOnesWin(leaves, a, p);
    }
    forall a, p | LastAddress(leaves, a) && LastPort(leaves, p) && p >= 0
      ensures IsDstPort(leaves[p]) && |leaves[p].payload| >= 2
              && Updates(Found([], 0, false), leaves).port == Get16(Big, leaves[p].payload[..2])
    {
      LastOnesWin(leaves, a, p);
      PortIsLong(leaves[p]);
    }
  }

  lemma PortIsLong(l: Leaf)
    requires IsDstPort(l)
    ensures |l.payload| >= 2
  {}
}

/** Netlink as it may arrive: what the attribute walk and the message walk of pkg/conntrack/message.go make of every input, one
    attribute and one message at a time, with numbers in the byte order of the machine. */
module NetlinkGrammar {
  import opened Options
  import opened Bytes
  import opened Netlink
  import opened Conntrack
  import opened ConntrackReplies

  // ---- numbers -----------------------------------------------------------------------------------------

  /** Lowest byte first. */
  function LittleEndian(b: seq<byte>): nat {
    if b == [] then 0 else b[0] as int + 256 * LittleEndian(b[1..])
  }

  function Number(e: Endian, b: seq<byte>): nat {
    if e.Little? then LittleEndian(b) else BigEndian(b)
  }

  lemma TwoBytes(e: Endian, b: seq<byte>)
    requires |b| == 2
    ensures Get16(e, b) == Number(e, b)
  {
    hide BigEndian, LittleEndian;
    assert b == [b[0]] + [b[1]];
    BigEndianOne(b[0]);
    BigEndianSnoc([b[0]], b[1]);
    LittleEndianCons(b[0], [b[1]]);
    assert [b[1]] == [b[1]] + [];
    LittleEndianCons(b[1], []);
  }

  lemma LittleEndianCons(x: byte, rest: seq<byte>)
    ensures LittleEndian([x] + rest) == x as int + 256 * LittleEndian(rest) && LittleEndian([]) == 0
  {
    assert ([x] + rest)[1..] == rest;
  }

  lemma FourBytes(e: Endian, b: seq<byte>)
    requires |b| == 4
    ensures Get32(e, b) == Number(e, b)
  {
    hide BigEndian, LittleEndian, Get16;
    TwoBytes(e, b[..2]);
    TwoBytes(e, b[2..]);
    if e.Little? {
      assert b == [b[0]] + ([b[1]] + b[2..]) && b[..2] == [b[0]] + ([b[1]] + []);
      LittleEndianCons(b[0], [b[1]] + b[2..]);
      LittleEndianCons(b[1], b[2..]);
      LittleEndianCons(b[0], [b[1]] + []);
      LittleEndianCons(b[1], []);
    } else {
      assert b == b[..2] + [b[2]] + [b[3]] && b[2..] == [b[2]] + [b[3]];
      BigEndianSnoc(b[..2], b[2]);
      BigEndianSnoc(b[..2] + [b[2]], b[3]);
      BigEndianOne(b[2]);
      BigEndianSnoc([b[2]], b[3]);
    }
  }

  // ---- attributes ----------------------------------------------------------------------------------------

  /** The attribute is at the front of b, in n bytes: its length, its type with two flag bits, its value. */
  ghost predicate AttrFirst(e: Endian, b: seq<byte>, typ: nat, value: seq<byte>, n: nat) {
    && n == 4 + |value| <= |b| && Number(e, b[..2]) == n && Number(e, b[2..4]) % 0x4000 == typ && b[4..n] == value
  }

  /** Behind the first n bytes, rounded up to a multiple of four; nothing if that is behind the end. */
  function Behind(b: seq<byte>, n: nat): seq<byte> {
    if n + (4 - n % 4) % 4 <= |b| then b[n + (4 - n % 4) % 4..] else []
  }

  lemma BehindIs(b: seq<byte>, n: nat)
    requires n <= |b|
    ensures Behind(b, n) == (if Aligned(n) > |b| then [] else b[Aligned(n)..]) == After(b, n)
  {}

  /** attrs on every input: fewer than four bytes end it; an attribute is handed on, and the walk ends with its error or goes on
      behind it; anything else is malformed. */
  lemma AttrsExactly<S(!new)>(e: Endian, b: seq<byte>, fn: (S, nat, seq<byte>) -> Result<S>, st: S)
    ensures |b| < 4 ==> Attrs(e, b, fn, st) == Ok(st)
    ensures forall typ, value, n :: AttrFirst(e, b, typ, value, n) ==>
      Attrs(e, b, fn, st) == (var r := fn(st, typ, value); if r.Err? then r else Attrs(e, Behind(b, n), fn, r.value))
    ensures |b| >= 4 && (forall typ, value, n :: !AttrFirst(e, b, typ, value, n)) ==>
      Attrs(e, b, fn, st) == Err(MalformedAttribute)
  {
    hide Get16, BigEndian, LittleEndian;
    if |b| >= 4 {
      TwoBytes(e, b[..2]);
      TwoBytes(e, b[2..4]);
      var l := Get16(e, b[..2]);
      if 4 <= l <= |b| {
        assert AttrFirst(e, b, Masked(Get16(e, b[2..4])), b[4..l], l);
        BehindIs(b, l);
      }
    }
  }

  // ---- messages -------------------------------------------------------------------------------------------

  /** The message is at the front of b, in n bytes. */
  ghost predicate MessageFirst(e: Endian, b: seq<byte>, typ: nat, number: nat, body: seq<byte>, n: nat) {
    && n == 16 + |body| <= |b| && Number(e, b[..4]) == n && Number(e, b[4..6]) == typ && Number(e, b[8..12]) == number
    && b[16..n] == body
  }

  /** What a message of the request means: an error with its number, the end of a dump, an entry; none for one that settles
      nothing. */
  ghost predicate Meaning(e: Endian, typ: nat, body: seq<byte>, r: Option<Reply>) {
    if typ == 2 then
      if |body| < 4 then r == Some(Failed(ShortError))
      else
        var v := Number(e, body[..4]);
        && (v == 0 ==> r == None)
        && (v == 0xffff_fffe ==> r == Some(Failed(NotFound)))
        && (0 < v < 0x8000_0000 ==> r == Some(Failed(Errno(0 - v as int))))
        && (v == 0x8000_0000 ==> r == Some(Failed(Errno(-0x8000_0000))))
        && (v > 0x8000_0000 && v != 0xffff_fffe ==> r == Some(Failed(Errno(0x1_0000_0000 - v))))
    else if typ == 3 then r == Some(Failed(NotFound))
    else if typ == 0x100 then
      r == Some(if |body| < 4 then Failed(ShortMessage) else Outcome(OrigDst(e, body[4..])))
    else r == None
  }

  lemma HandledMeans(e: Endian, typ: nat, body: seq<byte>)
    ensures Meaning(e, typ, body, Handled(e, typ, body))
  {
    hide Get32, BigEndian, LittleEndian, OrigDst;
    if |body| >= 4 {
      FourBytes(e, body[..4]);
    }
  }

  /** What the walk does with the message at its front. */
  ghost predicate Settles(e: Endian, b: seq<byte>, wanted: nat, typ: nat, number: nat, body: seq<byte>, n: nat) {
    if number != wanted then ParseReply(e, b, wanted) == ParseReply(e, Behind(b, n), wanted)
    else exists r :: Meaning(e, typ, body, r)
                     && ParseReply(e, b, wanted) == if r.Some? then r.value else ParseReply(e, Behind(b, n), wanted)
  }

  /** parseReply on every input: fewer than sixteen bytes leave the request pending; a message of another request, or one that
      settles nothing, is passed over; one that settles it ends the walk; anything else is malformed. */
  lemma ReplyExactly(e: Endian, b: seq<byte>, wanted: nat)
    ensures |b| < 16 ==> ParseReply(e, b, wanted) == Pending
    ensures forall typ, number, body, n :: MessageFirst(e, b, typ, number, body, n) ==> Settles(e, b, wanted, typ, number, body, n)
    ensures |b| >= 16 && (forall typ, number, body, n :: !MessageFirst(e, b, typ, number, body, n)) ==>
      ParseReply(e, b, wanted) == Failed(MalformedMessage)
  {
    hide Get16, Get32, BigEndian, LittleEndian, Handled, Meaning, After, Behind;
    if |b| >= 16 {
      FourBytes(e, b[..4]);
      TwoBytes(e, b[4..6]);
      FourBytes(e, b[8..12]);
      var l := Get32(e, b[..4]);
      if 16 <= l <= |b| {
        assert MessageFirst(e, b, Get16(e, b[4..6]), Get32(e, b[8..12]), b[16..l], l);
        BehindIs(b, l);
        HandledMeans(e, Get16(e, b[4..6]), b[16..l]);
      }
    }
  }

  // ---- the numbers of ctnetlink -----------------------------------------------------------------------------

  /** The five values of the tuple a request asks for, under their attribute numbers: the reply comes from the local address and
      port and goes to the remote ones, ports with their high byte first. */
  lemma RequestedTuple(proto: byte, remote: AddrPort, local: AddrPort)
    ensures var v4 := |local.addr| == 4;
            var leaves := Leaves([], ReplyTuple(proto, remote, local));
      && |leaves| == 5
      && leaves[0] == Leaf([2, 1, if v4 then 1 else 3], local.addr) && leaves[1] == Leaf([2, 1, if v4 then 2 else 4], remote.addr)
      && leaves[2] == Leaf([2, 2, 1], [proto])
      && leaves[3].path == [2, 2, 2] && |leaves[3].payload| == 2 && BigEndian(leaves[3].payload) == local.port % 0x1_0000
      && leaves[4].path == [2, 2, 3] && |leaves[4].payload| == 2 && BigEndian(leaves[4].payload) == remote.port % 0x1_0000
      && Family(local.addr) == [if v4 then 2 else 10, 0, 0, 0]
  {
    PortBytes(local.port);
    PortBytes(remote.port);
    hide BigEndian, Put16, Leaves;
    var ip, l4 := IpNodes(remote, local), ProtoNodes(proto, remote, local);
    TwoLeaves([2, 1], ip[0], ip[1]);
    ThreeLeaves([2, 2], l4[0], l4[1], l4[2]);
    TupleLeaves(ip, l4);
    assert ip == [ip[0], ip[1]] && l4 == [l4[0], l4[1], l4[2]];
  }

  lemma TupleLeaves(ip: seq<Node>, l4: seq<Node>)
    ensures Leaves([], [Nest(2, [Nest(1, ip), Nest(2, l4)])]) == Leaves([2, 1], ip) + Leaves([2, 2], l4)
  {
    hide Leaves;
    var inner := [Nest(1, ip), Nest(2, l4)];
    assert inner == [Nest(1, ip)] + [Nest(2, l4)];
    assert [2] + [1] == [2, 1] && [2] + [2] == [2, 2] && [] + [2] == [2];
    NoMore([], Nest(2, inner));
    LeavesMore([2], Nest(1, ip), [Nest(2, l4)]);
    NoMore([2], Nest(2, l4));
  }

  lemma LeavesMore(path: seq<nat>, n: Node, rest: seq<Node>)
    ensures Leaves(path, [n] + rest)
         == (if n.Value? then [Leaf(path + [n.typ], n.payload)] else Leaves(path + [n.typ], n.inner)) + Leaves(path, rest)
    ensures Leaves(path, []) == []
  {
    assert ([n] + rest)[1..] == rest;
  }

  lemma NoMore(path: seq<nat>, n: Node)
    ensures Leaves(path, [n]) == if n.Value? then [Leaf(path + [n.typ], n.payload)] else Leaves(path + [n.typ], n.inner)
  {
    hide Leaves;
    assert [n] + [] == [n];
    LeavesMore(path, n, []);
  }

  lemma TwoLeaves(path: seq<nat>, a: Node, b: Node)
    requires a.Value? && b.Value?
    ensures Leaves(path, [a, b]) == [Leaf(path + [a.typ], a.payload), Leaf(path + [b.typ], b.payload)]
  {
    hide Leaves;
    assert [a, b] == [a] + [b];
    LeavesMore(path, a, [b]);
    NoMore(path, b);
  }

  lemma ThreeLeaves(path: seq<nat>, a: Node, b: Node, c: Node)
    requires a.Value? && b.Value? && c.Value?
    ensures Leaves(path, [a, b, c])
         == [Leaf(path + [a.typ], a.payload), Leaf(path + [b.typ], b.payload), Leaf(path + [c.typ], c.payload)]
  {
    hide Leaves;
    assert [a, b, c] == [a] + [b, c];
    LeavesMore(path, a, [b, c]);
    TwoLeaves(path, b, c);
  }

  lemma PortBytes(port: nat)
    ensures |Put16(Big, port)| == 2 && BigEndian(Put16(Big, port)) == port % 0x1_0000
  {
    TwoBytes(Big, Put16(Big, port));
    ReadBack16(Big, port);
    hide BigEndian;
  }

  /** Where the original destination is looked for. */
  lemma DestinationPaths(l: Leaf)
    ensures IsDstAddress(l) <==> (l.path == [1, 1, 2] || l.path == [1, 1, 4]) && (|l.payload| == 4 || |l.payload| == 16)
    ensures IsDstPort(l) <==> l.path == [1, 2, 3] && |l.payload| >= 2
  {}
}

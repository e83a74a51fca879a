/** The ctnetlink request for a reply tuple, and the walk over the messages that come back
    (pkg/conntrack/message.go). */
module ConntrackReplies {
  import opened Options
  import opened Bytes
  import opened Netlink
  import opened Conntrack

  // ---- replies ----------------------------------------------------------------------------------------

  /** Nothing that belongs to the request yet; its destination; or why there is none. */
  datatype Reply = Pending | Destination(dst: AddrPort) | Failed(error: Error)

  /** `-int32(v)` for a 32-bit v. */
  function NegatedInt32(v: nat): (n: int)
    requires v < 0x1_0000_0000
  {
    if v == 0x8000_0000 then -0x8000_0000 else if v < 0x8000_0000 then 0 - v as int else 0x1_0000_0000 - v
  }

  function Outcome(r: Result<AddrPort>): Reply {
    if r.Ok? then Destination(r.value) else Failed(r.error)
  }

  /** What a message of the request says; none when the walk goes on. */
  function Handled(e: Endian, typ: nat, msg: seq<byte>): (r: Option<Reply>) {
    if typ == NLMSG_ERROR then
      if |msg| < 4 then Some(Failed(ShortError))
      else
        var errno := NegatedInt32(Get32(e, msg[..4]));
        if errno == 0 then None else if errno == 2 then Some(Failed(NotFound)) else Some(Failed(Errno(errno)))
    else if typ == NLMSG_DONE then Some(Failed(NotFound))
    else if typ == CT_NEW then
      if |msg| < 4 then Some(Failed(ShortMessage)) else Some(Outcome(OrigDst(e, msg[4..])))
    else None
  }

  function After(b: seq<byte>, l: nat): (rest: seq<byte>)
    requires l <= |b|
    ensures l > 0 ==> |rest| < |b|
  {
    if Aligned(l) < |b| then b[Aligned(l)..] else []
  }

  function ParseReply(e: Endian, b: seq<byte>, number: nat): (r: Reply)
    decreases |b|
  {
    if |b| < HEADER then Pending
    else
      var l := Get32(e, b[..4]);
      if l < HEADER || l > |b| then Failed(MalformedMessage)
      else if Get32(e, b[8..12]) != number then ParseReply(e, After(b, l), number)
      else
        var r := Handled(e, Get16(e, b[4..6]), b[HEADER..l]);
        if r.Some? then r.value else ParseReply(e, After(b, l), number)
  }

  method ReadReply(e: Endian, b0: seq<byte>, number: nat) returns (r: Reply)
    ensures r == ParseReply(e, b0, number)
  {
    hide Get16, Get32, OrigDst, NegatedInt32;
    var b := b0;
    while |b| >= HEADER
      invariant ParseReply(e, b, number) == ParseReply(e, b0, number)
      decreases |b|
    {
      var l := Get32(e, b[..4]);
      if l < HEADER || l > |b| {
        return Failed(MalformedMessage);
      }
      var typ := Get16(e, b[4..6]);
      var mseq := Get32(e, b[8..12]);
      var msg := b[HEADER..l];
      var next := Aligned(l);
      if next < |b| {
        b := b[next..];
      } else {
        b := [];
      }
      if mseq != number {
        continue;
      }
      if typ == NLMSG_ERROR {
        if |msg| < 4 {
          return Failed(ShortError);
        }
        var errno := NegatedInt32(Get32(e, msg[..4]));
        if errno == 0 {
          continue;
        }
        if errno == 2 {
          return Failed(NotFound);
        }
        return Failed(Errno(errno));
      } else if typ == NLMSG_DONE {
        return Failed(NotFound);
      } else if typ == CT_NEW {
        if |msg| < 4 {
          return Failed(ShortMessage);
        }
        return Outcome(OrigDst(e, msg[4..]));
      }
    }
    return Pending;
  }

  // ---- messages as they are sent -----------------------------------------------------------------------

  datatype Message = Message(typ: nat, flags: nat, number: nat, sender: nat, body: seq<byte>)

  predicate InWidth(m: Message) {
    m.typ < 0x1_0000 && m.number < 0x1_0000_0000 && HEADER + |m.body| < 0x1_0000_0000
  }

  function Header(e: Endian, m: Message): (h: seq<byte>)
    ensures |h| == HEADER
  {
    Put32(e, HEADER + |m.body|) + Put16(e, m.typ) + Put16(e, m.flags) + Put32(e, m.number) + Put32(e, m.sender)
  }

  function Encode(e: Endian, m: Message): (b: seq<byte>) {
    Header(e, m) + m.body + Padding(HEADER + |m.body|)
  }

  function EncodeMessages(e: Endian, ms: seq<Message>): (b: seq<byte>) {
    if ms == [] then [] else Encode(e, ms[0]) + EncodeMessages(e, ms[1..])
  }

  lemma HeaderReads(e: Endian, m: Message)
    requires InWidth(m)
    ensures var h := Header(e, m);
      && Get32(e, h[..4]) == HEADER + |m.body| && Get16(e, h[4..6]) == m.typ && Get16(e, h[6..8]) == m.flags % 0x1_0000
      && Get32(e, h[8..12]) == m.number
  {
    hide Get16, Put16, Get32, Put32;
    var h := Header(e, m);
    ReadBack32(e, HEADER + |m.body|);
    ReadBack16(e, m.typ);
    ReadBack16(e, m.flags);
    ReadBack32(e, m.number);
    assert h[..4] == Put32(e, HEADER + |m.body|);
    assert h[4..6] == Put16(e, m.typ);
    assert h[6..8] == Put16(e, m.flags);
    assert h[8..12] == Put32(e, m.number);
  }

  lemma MessageParts(e: Endian, m: Message, rest: seq<byte>)
    requires InWidth(m)
    ensures var b, l := Encode(e, m) + rest, HEADER + |m.body|;
      && l <= |b| && Get32(e, b[..4]) == l && Get16(e, b[4..6]) == m.typ && Get32(e, b[8..12]) == m.number
      && b[HEADER..l] == m.body && After(b, l) == rest
  {
    hide Get16, Get32, Header, Padding;
    var b, h := Encode(e, m) + rest, Header(e, m);
    HeaderReads(e, m);
    assert b[..4] == h[..4] && b[4..6] == h[4..6] && b[8..12] == h[8..12];
  }

  /** Messages the walk passes over: of another request, acknowledgements without an error, or of a type it does not know. */
  ghost predicate PassedOver(e: Endian, m: Message, number: nat) {
    InWidth(m) && (m.number != number || Handled(e, m.typ, m.body).None?)
  }

  lemma {:induction false} SkipsOthers(e: Endian, ms: seq<Message>, rest: seq<byte>, number: nat)
    requires forall i :: 0 <= i < |ms| ==> PassedOver(e, ms[i], number)
    ensures ParseReply(e, EncodeMessages(e, ms) + rest, number) == ParseReply(e, rest, number)
    decreases |ms|
  {
    hide Get16, Get32, Handled, Encode, After;
    if ms == [] {
      assert EncodeMessages(e, ms) + rest == rest;
    } else {
      var tail := EncodeMessages(e, ms[1..]) + rest;
      assert EncodeMessages(e, ms) + rest == Encode(e, ms[0]) + tail;
      MessageParts(e, ms[0], tail);
      assert PassedOver(e, ms[0], number);
      SkipsOthers(e, ms[1..], rest, number);
    }
  }

  lemma AnswerRead(e: Endian, m: Message, rest: seq<byte>, number: nat)
    requires InWidth(m) && m.number == number && Handled(e, m.typ, m.body).Some?
    ensures ParseReply(e, Encode(e, m) + rest, number) == Handled(e, m.typ, m.body).value
  {
    hide Get16, Get32, Handled, Encode, After;
    MessageParts(e, m, rest);
  }

  /** Round trip: past any messages that do not settle the request, the entry that matches it is read, whatever other
      attributes it carries and whatever follows it: its original destination comes back, or that it has none. */
  lemma EntryIsFound(e: Endian, others: seq<Message>, entry: Message, family: seq<byte>, nodes: seq<Node>, rest: seq<byte>)
    requires forall i :: 0 <= i < |others| ==> PassedOver(e, others[i], entry.number)
    requires InWidth(entry) && entry.typ == CT_NEW && |family| == 4 && entry.body == family + EncodeNodes(e, nodes)
    requires Sound(e, nodes) && Shaped(nodes)
    ensures exists r :: Answers(r, nodes) && ParseReply(e, EncodeMessages(e, others) + (Encode(e, entry) + rest), entry.number) == Outcome(r)
  {
    hide ParseReply, Encode, EncodeNodes, Answers, OrigDst, Sound, Shaped, PassedOver;
    SkipsOthers(e, others, Encode(e, entry) + rest, entry.number);
    assert entry.body[4..] == EncodeNodes(e, nodes);
    AnswerRead(e, entry, rest, entry.number);
    OrigDstAnswers(e, nodes);
    assert Answers(OrigDst(e, EncodeNodes(e, nodes)), nodes);
  }

  /** An error for the request, any but 0, ends the walk with its negated number: not found for ENOENT. */
  lemma ErrorIsRead(e: Endian, others: seq<Message>, err: Message, rest: seq<byte>, v: nat, tail: seq<byte>)
    requires forall i :: 0 <= i < |others| ==> PassedOver(e, others[i], err.number)
    requires InWidth(err) && err.typ == NLMSG_ERROR && 0 < v < 0x1_0000_0000 && err.body == Put32(e, v) + tail
    ensures ParseReply(e, EncodeMessages(e, others) + (Encode(e, err) + rest), err.number)
            == Failed(if v == 0x1_0000_0000 - 2 then NotFound else Errno(NegatedInt32(v)))
    ensures v > 0x8000_0000 ==> NegatedInt32(v) == 0x1_0000_0000 - v
  {
    hide ParseReply, Encode, PassedOver, Get32, Put32;
    SkipsOthers(e, others, Encode(e, err) + rest, err.number);
    assert err.body[..4] == Put32(e, v);
    ReadBack32(e, v);
    AnswerRead(e, err, rest, err.number);
  }

  /** A message cut short, for the request, ends the walk with an error of its own; so does the end of a dump. */
  lemma ShortIsRead(e: Endian, others: seq<Message>, m: Message, rest: seq<byte>)
    requires forall i :: 0 <= i < |others| ==> PassedOver(e, others[i], m.number)
    requires InWidth(m) && (m.typ == NLMSG_DONE || ((m.typ == NLMSG_ERROR || m.typ == CT_NEW) && |m.body| < 4))
    ensures ParseReply(e, EncodeMessages(e, others) + (Encode(e, m) + rest), m.number)
            == Failed(if m.typ == NLMSG_DONE then NotFound else if m.typ == NLMSG_ERROR then ShortError else ShortMessage)
  {
    hide ParseReply, Encode, PassedOver;
    SkipsOthers(e, others, Encode(e, m) + rest, m.number);
    AnswerRead(e, m, rest, m.number);
  }

  // ---- the request --------------------------------------------------------------------------------------

  /** getRequest; none for addresses of different families. */
  function GetRequest(e: Endian, number: nat, proto: byte, remote: AddrPort, local: AddrPort): (r: Option<seq<byte>>) {
    if Is4(local.addr) != Is4(remote.addr) then None
    else
      var v4 := Is4(local.addr);
      var src, dst := if v4 then IPV4_SRC else IPV6_SRC, if v4 then IPV4_DST else IPV6_DST;
      var ip := Attr(e, src, local.addr) + Attr(e, dst, remote.addr);
      var l4 := Attr(e, PROTO_NUM, [proto]) + Attr(e, PROTO_SRC, Put16(Big, local.port));
      var l4' := l4 + Attr(e, PROTO_DST, Put16(Big, remote.port));
      var tuple := Attr(e, TUPLE_IP + NESTED, ip) + Attr(e, TUPLE_PROTO + NESTED, l4');
      var body := Family(local.addr) + Attr(e, TUPLE_REPLY + NESTED, tuple);
      Some(Header(e, Message(CT_GET, NLM_F_REQUEST, number, 0, body)) + body)
  }

  /** The address family, and the three zero bytes behind it. */
  function Family(a: Addr): (b: seq<byte>)
    ensures |b| == 4
  {
    [if Is4(a) then AF_INET else AF_INET6, 0, 0, 0]
  }

  function IpNodes(remote: AddrPort, local: AddrPort): seq<Node> {
    var v4 := Is4(local.addr);
    [Value(if v4 then IPV4_SRC else IPV6_SRC, local.addr), Value(if v4 then IPV4_DST else IPV6_DST, remote.addr)]
  }

  function ProtoNodes(proto: byte, remote: AddrPort, local: AddrPort): seq<Node> {
    [Value(PROTO_NUM, [proto]), Value(PROTO_SRC, Put16(Big, local.port)), Value(PROTO_DST, Put16(Big, remote.port))]
  }

  /** The reply tuple that runs from local to remote. */
  function ReplyTuple(proto: byte, remote: AddrPort, local: AddrPort): seq<Node> {
    [Nest(TUPLE_REPLY, [Nest(TUPLE_IP, IpNodes(remote, local)), Nest(TUPLE_PROTO, ProtoNodes(proto, remote, local))])]
  }

  lemma OneNode(e: Endian, n: Node)
    ensures EncodeNodes(e, [n]) == (var p := PairOf(e, n); Attr(e, p.0, p.1))
  {
    hide Attr, PairOf;
    assert [n][1..] == [];
  }

  lemma MoreNodes(e: Endian, n: Node, rest: seq<Node>)
    ensures EncodeNodes(e, [n] + rest) == (var p := PairOf(e, n); Attr(e, p.0, p.1)) + EncodeNodes(e, rest)
  {
    hide Attr, PairOf;
    assert ([n] + rest)[1..] == rest;
  }

  lemma TwoNodes(e: Endian, n: Node, m: Node)
    ensures EncodeNodes(e, [n, m]) == (var p := PairOf(e, n); Attr(e, p.0, p.1)) + (var p := PairOf(e, m); Attr(e, p.0, p.1))
  {
    hide Attr, PairOf, EncodeNodes;
    assert [n, m] == [n] + [m];
    MoreNodes(e, n, [m]);
    OneNode(e, m);
  }

  lemma IpBytes(e: Endian, remote: AddrPort, local: AddrPort)
    ensures var nodes := IpNodes(remote, local);
      && EncodeNodes(e, nodes) == Attr(e, nodes[0].typ, local.addr) + Attr(e, nodes[1].typ, remote.addr)
      && |EncodeNodes(e, nodes)| <= 40 && Sound(e, nodes)
  {
    hide Attr, EncodeNodes;
    var nodes := IpNodes(remote, local);
    TwoNodes(e, nodes[0], nodes[1]);
  }

  lemma ProtoBytes(e: Endian, proto: byte, remote: AddrPort, local: AddrPort)
    ensures var nodes := ProtoNodes(proto, remote, local);
      && EncodeNodes(e, nodes) == Attr(e, PROTO_NUM, [proto]) + Attr(e, PROTO_SRC, Put16(Big, local.port))
                                  + Attr(e, PROTO_DST, Put16(Big, remote.port))
      && |EncodeNodes(e, nodes)| == 24 && Sound(e, nodes)
  {
    hide Attr, EncodeNodes, Put16;
    var nodes := ProtoNodes(proto, remote, local);
    assert nodes == [nodes[0]] + [nodes[1], nodes[2]];
    MoreNodes(e, nodes[0], [nodes[1], nodes[2]]);
    TwoNodes(e, nodes[1], nodes[2]);
  }

  lemma RequestBytes(e: Endian, number: nat, proto: byte, remote: AddrPort, local: AddrPort)
    requires Is4(local.addr) == Is4(remote.addr)
    ensures var body := Family(local.addr) + EncodeNodes(e, ReplyTuple(proto, remote, local));
            GetRequest(e, number, proto, remote, local) == Some(Header(e, Message(CT_GET, NLM_F_REQUEST, number, 0, body)) + body)
  {
    hide Attr, EncodeNodes, Put16, Header, Family, Sound;
    IpBytes(e, remote, local);
    ProtoBytes(e, proto, remote, local);
    TupleBytes(e, proto, remote, local);
  }

  /** The header says what the request is, and its attributes walk, at every level, as the tree. */
  ghost predicate Requests(e: Endian, b: seq<byte>, number: nat, family: seq<byte>, nodes: seq<Node>) {
    && |b| >= HEADER + 4
    && Get32(e, b[..4]) == |b| && Get16(e, b[4..6]) == CT_GET && Get16(e, b[6..8]) == NLM_F_REQUEST
    && Get32(e, b[8..12]) == number
    && b[HEADER..HEADER + 4] == family && WalksAs(e, b[HEADER + 4..], nodes)
  }

  lemma HeaderRequests(e: Endian, number: nat, family: seq<byte>, nodes: seq<Node>, m: Message)
    requires number < 0x1_0000_0000 && |family| == 4 && Sound(e, nodes) && |EncodeNodes(e, nodes)| <= 100
    requires m == Message(CT_GET, NLM_F_REQUEST, number, 0, family + EncodeNodes(e, nodes))
    ensures Requests(e, Header(e, m) + m.body, number, family, nodes)
  {
    hide Get16, Get32, EncodeNodes, Header, WalksAs, Sound;
    var h := Header(e, m);
    var b := h + m.body;
    HeaderReads(e, m);
    TreeWalks(e, nodes);
    assert b[..4] == h[..4] && b[4..6] == h[4..6] && b[6..8] == h[6..8] && b[8..12] == h[8..12];
    assert b[HEADER + 4..] == EncodeNodes(e, nodes);
  }

  /** Round trip: walking a request recovers the reply tuple; only addresses of different families get none. */
  lemma RequestWalks(e: Endian, number: nat, proto: byte, remote: AddrPort, local: AddrPort)
    requires number < 0x1_0000_0000
    ensures var r := GetRequest(e, number, proto, remote, local);
      && (r.None? <==> Is4(local.addr) != Is4(remote.addr))
      && (r.Some? ==> Requests(e, r.value, number, Family(local.addr), ReplyTuple(proto, remote, local)))
  {
    hide EncodeNodes, Header, Sound, Requests, ReplyTuple;
    if Is4(local.addr) == Is4(remote.addr) {
      var nodes := ReplyTuple(proto, remote, local);
      RequestBytes(e, number, proto, remote, local);
      hide GetRequest;
      TupleBytes(e, proto, remote, local);
      HeaderRequests(e, number, Family(local.addr), nodes,
                     Message(CT_GET, NLM_F_REQUEST, number, 0, Family(local.addr) + EncodeNodes(e, nodes)));
    }
  }

  lemma TupleBytes(e: Endian, proto: byte, remote: AddrPort, local: AddrPort)
    ensures var nodes, ip, l4 := ReplyTuple(proto, remote, local), EncodeNodes(e, IpNodes(remote, local)),
                                 EncodeNodes(e, ProtoNodes(proto, remote, local));
      && Sound(e, nodes) && |EncodeNodes(e, nodes)| <= 100
      && EncodeNodes(e, nodes) == Attr(e, TUPLE_REPLY + NESTED, Attr(e, TUPLE_IP + NESTED, ip) + Attr(e, TUPLE_PROTO + NESTED, l4))
  {
    hide Attr, EncodeNodes, Put16;
    IpBytes(e, remote, local);
    ProtoBytes(e, proto, remote, local);
    var a, b := Nest(TUPLE_IP, IpNodes(remote, local)), Nest(TUPLE_PROTO, ProtoNodes(proto, remote, local));
    TwoNodes(e, a, b);
    OneNode(e, Nest(TUPLE_REPLY, [a, b]));
    SoundTwo(e, a, b);
    SoundOne(e, Nest(TUPLE_REPLY, [a, b]));
  }

  lemma SoundOne(e: Endian, n: Node)
    requires n.typ <= TYPE_MASK && 4 + |PairOf(e, n).1| < 0x1_0000 && (n.Nest? ==> Sound(e, n.inner))
    ensures Sound(e, [n])
  {
    hide PairOf;
  }

  lemma SoundTwo(e: Endian, n: Node, m: Node)
    requires n.typ <= TYPE_MASK && 4 + |PairOf(e, n).1| < 0x1_0000 && (n.Nest? ==> Sound(e, n.inner))
    requires m.typ <= TYPE_MASK && 4 + |PairOf(e, m).1| < 0x1_0000 && (m.Nest? ==> Sound(e, m.inner))
    ensures Sound(e, [n, m])
  {
    hide PairOf;
  }
}

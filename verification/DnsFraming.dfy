/** Where a DNS message ends: framedLen, skipName and padding of internal/dnsinfo/dnsinfo.go, against the grammar of
    section 4.1 of RFC 1035. */
module DnsFraming {
  import opened Bytes

  const MAX_QUESTIONS: nat := 4
  const MAX_NAME_BYTES: nat := 255
  const MAX_RECORDS: nat := 32
  const MAX_TRAILING: nat := 4
  const HEADER: nat := 12

  // ---- the grammar ------------------------------------------------------------------------------------

  /** A name ends with the root, or with a pointer to an earlier one. */
  datatype End = Root | Pointer(target: nat)

  datatype Name = Name(labels: seq<seq<byte>>, end: End)

  /** The type and the class behind the name. */
  datatype Question = Question(name: Name, fixed: seq<byte>)

  /** Type, class and time to live behind the name, and the data. */
  datatype Record = Record(name: Name, fixed: seq<byte>, data: seq<byte>)

  /** The identifier and the flags; how the records are shared out between the three sections; and what follows. */
  datatype Message = Message(head: seq<byte>, answers: nat, authority: nat, additional: nat, questions: seq<Question>, records: seq<Record>)

  function Be16(v: nat): (b: seq<byte>)
    ensures |b| == 2
  {
    [v / 256 % 256, v % 256]
  }

  function EncodeLabels(labels: seq<seq<byte>>): (b: seq<byte>)
    requires LabelsOk(labels)
    ensures |b| == Weight(labels)
  {
    if labels == [] then [] else [|labels[0]|] + labels[0] + EncodeLabels(labels[1..])
  }

  function EncodeEnd(end: End): (b: seq<byte>)
    requires EndOk(end)
  {
    if end.Root? then [0] else [0xC0 + end.target / 256, end.target % 256]
  }

  /** A pointer has 14 bits. */
  predicate EndOk(end: End) {
    end.Pointer? ==> end.target < 0x4000
  }

  predicate Encodable(n: Name) {
    LabelsOk(n.labels) && EndOk(n.end)
  }

  /** Labels have 1 to 63 bytes. */
  predicate LabelsOk(labels: seq<seq<byte>>) {
    forall i :: 0 <= i < |labels| ==> 1 <= |labels[i]| <= 63
  }

  function Weight(labels: seq<seq<byte>>): (n: nat) {
    if labels == [] then 0 else 1 + |labels[0]| + Weight(labels[1..])
  }

  predicate LeadsBack(end: End, off: nat) {
    end.Pointer? ==> HEADER <= end.target < off
  }

  /** A name that may stand at `off`: its pointer leads back, but not into the header. */
  predicate NameOk(n: Name, off: nat) {
    Encodable(n) && Weight(n.labels) <= MAX_NAME_BYTES && LeadsBack(n.end, off)
  }

  function EncodeName(n: Name): (b: seq<byte>)
    requires Encodable(n)
  {
    EncodeLabels(n.labels) + EncodeEnd(n.end)
  }

  predicate QuestionOk(q: Question, off: nat) {
    NameOk(q.name, off) && |q.fixed| == 4
  }

  function EncodeQuestion(q: Question): (b: seq<byte>)
    requires Encodable(q.name)
  {
    EncodeName(q.name) + q.fixed
  }

  predicate RecordOk(r: Record, off: nat) {
    NameOk(r.name, off) && |r.fixed| == 8 && |r.data| < 0x1_0000
  }

  function EncodeRecord(r: Record): (b: seq<byte>)
    requires Encodable(r.name)
  {
    EncodeName(r.name) + r.fixed + Be16(|r.data|) + r.data
  }

  /** b has x at off. */
  predicate At(b: seq<byte>, off: nat, x: seq<byte>) {
    off + |x| <= |b| && b[off..off + |x|] == x
  }

  /** The questions stand in b one after the other, from off to end. */
  ghost predicate QuestionsAt(b: seq<byte>, off: nat, qs: seq<Question>, end: nat)
    decreases |qs|
  {
    if qs == [] then off == end
    else
      && QuestionOk(qs[0], off) && At(b, off, EncodeQuestion(qs[0]))
      && QuestionsAt(b, off + |EncodeQuestion(qs[0])|, qs[1..], end)
  }

  ghost predicate RecordsAt(b: seq<byte>, off: nat, rs: seq<Record>, end: nat)
    decreases |rs|
  {
    if rs == [] then off == end
    else
      && RecordOk(rs[0], off) && At(b, off, EncodeRecord(rs[0]))
      && RecordsAt(b, off + |EncodeRecord(rs[0])|, rs[1..], end)
  }

  predicate CountsOk(m: Message) {
    && |m.head| == 4 && 1 <= |m.questions| <= MAX_QUESTIONS
    && m.answers < 0x1_0000 && m.authority < 0x1_0000 && m.additional < 0x1_0000
    && |m.records| == m.answers + m.authority + m.additional && |m.records| <= MAX_RECORDS
  }

  function EncodeHeader(m: Message): (b: seq<byte>)
    requires |m.head| == 4
    ensures |b| == HEADER
  {
    m.head + Be16(|m.questions|) + Be16(m.answers) + Be16(m.authority) + Be16(m.additional)
  }

  /** The first `end` bytes of b are the message: header, questions and records, with nothing between them. */
  ghost predicate IsMessage(b: seq<byte>, m: Message, end: nat) {
    && CountsOk(m) && At(b, 0, EncodeHeader(m))
    && exists mid: nat :: QuestionsAt(b, HEADER, m.questions, mid) && RecordsAt(b, mid, m.records, end)
  }

  // ---- the code ----------------------------------------------------------------------------------------

  function Read16(b: seq<byte>, off: nat): (v: nat)
    requires off + 2 <= |b|
    ensures v < 0x1_0000
  {
    var x: int, y: int := b[off], b[off + 1];
    x * 256 + y
  }

  /** skipName from the label at off, with `total` bytes of labels before it; -1 for a name that does not end. */
  function SkipFrom(b: seq<byte>, start: nat, off: nat, total: nat): (r: int)
    ensures r == -1 || off < r <= |b|
    decreases |b| - off
  {
    if off >= |b| then -1
    else
      var c: int := b[off];
      if c == 0 then off + 1
      else if c >= 0xC0 then
        if off + 1 >= |b| then -1
        else
          var low: int := b[off + 1];
          var ptr := (c - 0xC0) * 256 + low;
          if ptr < HEADER || ptr >= start then -1 else off + 2
      else if c >= 0x40 then -1
      else if total + c + 1 > MAX_NAME_BYTES then -1
      else SkipFrom(b, start, off + 1 + c, total + c + 1)
  }

  method SkipName(b: seq<byte>, at: nat) returns (r: int)
    ensures r == SkipFrom(b, at, at, 0)
  {
    var start: nat, total: nat, off: nat := at, 0, at;
    while true
      invariant SkipFrom(b, start, off, total) == SkipFrom(b, at, at, 0)
      decreases |b| - off
    {
      if off >= |b| {
        return -1;
      }
      var c: int := b[off];
      if c == 0 {
        return off + 1;
      } else if c / 64 == 3 {
        if off + 1 >= |b| {
          return -1;
        }
        var low: int := b[off + 1];
        var ptr := c % 64 * 256 + low;
        if ptr < HEADER || ptr >= start {
          return -1;
        }
        return off + 2;
      } else if c / 64 != 0 {
        return -1;
      }
      total := total + c + 1;
      if total > MAX_NAME_BYTES {
        return -1;
      }
      off := off + 1 + c;
    }
  }

  function SkipQuestions(b: seq<byte>, off: nat, n: nat): (r: int)
    ensures r == -1 || off <= r
    decreases n
  {
    if n == 0 then off
    else
      var at := SkipFrom(b, off, off, 0);
      if at < 0 || at + 4 > |b| then -1 else SkipQuestions(b, at + 4, n - 1)
  }

  function SkipRecords(b: seq<byte>, off: nat, n: nat): (r: int)
    ensures r == -1 || off <= r
    decreases n
  {
    if n == 0 then off
    else
      var at := SkipFrom(b, off, off, 0);
      if at < 0 || at + 10 > |b| then -1
      else
        var next := at + 10 + Read16(b, at + 8);
        if next > |b| then -1 else SkipRecords(b, next, n - 1)
  }

  function Framed(b: seq<byte>): (r: int) {
    if |b| < HEADER then -1
    else
      var qd, rr := Read16(b, 4), Read16(b, 6) + Read16(b, 8) + Read16(b, 10);
      if qd < 1 || qd > MAX_QUESTIONS || rr > MAX_RECORDS then -1
      else
        var off := SkipQuestions(b, HEADER, qd);
        if off < 0 then -1 else SkipRecords(b, off, rr)
  }

  method FramedLen(b: seq<byte>) returns (r: int)
    ensures r == Framed(b)
  {
    hide SkipFrom, Read16;
    if |b| < 12 {
      return -1;
    }
    var qd, rr := Read16(b, 4), Read16(b, 6) + Read16(b, 8) + Read16(b, 10);
    if qd < 1 || qd > MAX_QUESTIONS || rr > MAX_RECORDS {
      return -1;
    }
    var off := 12;
    for i := 0 to qd
      invariant off >= 0 && SkipQuestions(b, off, qd - i) == SkipQuestions(b, HEADER, qd)
    {
      off := SkipName(b, off);
      if off < 0 || off + 4 > |b| {
        return -1;
      }
      off := off + 4;
    }
    ghost var mid := off;
    for i := 0 to rr
      invariant off >= 0 && SkipRecords(b, off, rr - i) == SkipRecords(b, mid, rr)
    {
      off := SkipName(b, off);
      if off < 0 || off + 10 > |b| {
        return -1;
      }
      off := off + 10 + Read16(b, off + 8);
      if off > |b| {
        return -1;
      }
    }
    return off;
  }

  /** At most four bytes behind the message, each zero, CR or LF. */
  method Padding(t: seq<byte>) returns (ok: bool)
    ensures ok <==> |t| <= MAX_TRAILING && forall i :: 0 <= i < |t| ==> t[i] in {0, 13, 10}
  {
    if |t| > MAX_TRAILING {
      return false;
    }
    for i := 0 to |t|
      invariant forall j :: 0 <= j < i ==> t[j] in {0, 13, 10}
    {
      if t[i] != 0 && t[i] != 13 && t[i] != 10 {
        return false;
      }
    }
    return true;
  }

  // ---- names -------------------------------------------------------------------------------------------

  lemma AtTwoParts(b: seq<byte>, off: nat, x: seq<byte>, y: seq<byte>)
    ensures At(b, off, x + y) <==> At(b, off, x) && At(b, off + |x|, y)
  {
    if At(b, off, x + y) {
      assert b[off..off + |x|] == (x + y)[..|x|];
      assert b[off + |x|..off + |x| + |y|] == (x + y)[|x|..];
    }
    if At(b, off, x) && At(b, off + |x|, y) {
      assert b[off..off + |x + y|] == b[off..off + |x|] + b[off + |x|..off + |x| + |y|];
    }
  }

  /** A name of the grammar is skipped, however it starts. */
  lemma {:induction false} NameSkipped(b: seq<byte>, start: nat, off: nat, total: nat, n: Name)
    requires NameOk(n, start) && total + Weight(n.labels) <= MAX_NAME_BYTES && At(b, off, EncodeName(n))
    ensures SkipFrom(b, start, off, total) == off + |EncodeName(n)|
    decreases |n.labels|
  {
    hide At, EncodeEnd, EndOk, LeadsBack, SkipFrom;
    if n.labels == [] {
      assert EncodeName(n) == EncodeEnd(n.end);
      EndSkipped(b, start, off, total, n.end);
    } else {
      var first, rest := n.labels[0], n.(labels := n.labels[1..]);
      assert EncodeName(n) == ([|first|] + first) + EncodeName(rest);
      AtTwoParts(b, off, [|first|] + first, EncodeName(rest));
      NameSkipped(b, start, off + 1 + |first|, total + 1 + |first|, rest);
      hide EncodeName;
      LabelSkipped(b, start, off, total, first);
    }
  }

  lemma LabelSkipped(b: seq<byte>, start: nat, off: nat, total: nat, first: seq<byte>)
    requires 1 <= |first| <= 63 && total + 1 + |first| <= MAX_NAME_BYTES && At(b, off, [|first|] + first)
    ensures SkipFrom(b, start, off, total) == SkipFrom(b, start, off + 1 + |first|, total + 1 + |first|)
  {
    assert b[off] == b[off..off + 1 + |first|][0] == |first|;
  }

  lemma EndSkipped(b: seq<byte>, start: nat, off: nat, total: nat, end: End)
    requires EndOk(end) && LeadsBack(end, start)
    requires At(b, off, EncodeEnd(end))
    ensures SkipFrom(b, start, off, total) == off + |EncodeEnd(end)|
  {
    var x := EncodeEnd(end);
    assert b[off] == b[off..off + |x|][0] == x[0];
    if end.Pointer? {
      assert b[off + 1] == b[off..off + |x|][1] == x[1];
    }
  }

  /** What is skipped is a name of the grammar. */
  lemma {:induction false} SkippedName(b: seq<byte>, start: nat, off: nat, total: nat) returns (n: Name)
    requires SkipFrom(b, start, off, total) >= 0 && total <= MAX_NAME_BYTES
    ensures NameOk(n, start) && total + Weight(n.labels) <= MAX_NAME_BYTES && At(b, off, EncodeName(n))
    ensures SkipFrom(b, start, off, total) == off + |EncodeName(n)|
    decreases |b| - off
  {
    var c: int := b[off];
    if c == 0 || c >= 0xC0 {
      var end := SkippedEnd(b, start, off, total);
      hide EncodeEnd, EndOk, LeadsBack, At, SkipFrom;
      n := Name([], end);
      assert EncodeName(n) == EncodeEnd(end);
    } else {
      var first := b[off + 1..off + 1 + c];
      assert At(b, off, [|first|] + first) by { assert b[off..off + 1 + c] == [|first|] + first; }
      hide EncodeName, NameOk, At;
      var rest := SkippedName(b, start, off + 1 + c, total + c + 1);
      hide SkipFrom;
      n := Name([first] + rest.labels, rest.end);
      PrependLabel(rest, first, start);
      AtTwoParts(b, off, [|first|] + first, EncodeName(rest));
    }
  }

  lemma SkippedEnd(b: seq<byte>, start: nat, off: nat, total: nat) returns (end: End)
    requires SkipFrom(b, start, off, total) >= 0 && (b[off] == 0 || b[off] >= 0xC0)
    ensures EndOk(end) && LeadsBack(end, start) && At(b, off, EncodeEnd(end))
    ensures SkipFrom(b, start, off, total) == off + |EncodeEnd(end)|
  {
    if b[off] == 0 {
      end := Root;
      assert b[off..off + 1] == [0];
    } else {
      var c: int, low: int := b[off], b[off + 1];
      end := Pointer((c - 0xC0) * 256 + low);
      assert EncodeEnd(end) == [b[off], b[off + 1]];
      assert b[off..off + 2] == [b[off], b[off + 1]];
    }
  }

  lemma PrependLabel(rest: Name, first: seq<byte>, start: nat)
    requires NameOk(rest, start) && 1 <= |first| <= 63 && 1 + |first| + Weight(rest.labels) <= MAX_NAME_BYTES
    ensures var n := Name([first] + rest.labels, rest.end);
      && NameOk(n, start) && Weight(n.labels) == 1 + |first| + Weight(rest.labels)
      && EncodeName(n) == [|first|] + first + EncodeName(rest)
  {
    var n := Name([first] + rest.labels, rest.end);
    assert n.labels[1..] == rest.labels;
  }

  // ---- sections ------------------------------------------------------------------------------------------

  lemma {:induction false} QuestionsSkipped(b: seq<byte>, off: nat, qs: seq<Question>, end: nat)
    requires QuestionsAt(b, off, qs, end)
    ensures SkipQuestions(b, off, |qs|) == end
    decreases |qs|
  {
    hide SkipFrom, Encodable, Weight, LeadsBack, EncodeName, At;
    if qs != [] {
      var q := qs[0];
      AtTwoParts(b, off, EncodeName(q.name), q.fixed);
      NameBound(q.name, off);
      NameSkipped(b, off, off, 0, q.name);
      AtBound(b, off + |EncodeName(q.name)|, q.fixed);
      QuestionsSkipped(b, off + |EncodeQuestion(q)|, qs[1..], end);
    }
  }

  lemma AtBound(b: seq<byte>, off: nat, x: seq<byte>)
    requires At(b, off, x)
    ensures off + |x| <= |b|
  {}

  lemma NameBound(n: Name, off: nat)
    requires NameOk(n, off)
    ensures Weight(n.labels) <= MAX_NAME_BYTES
  {}

  lemma AtSlice(b: seq<byte>, off: nat, end: nat)
    requires off <= end <= |b|
    ensures At(b, off, b[off..end])
  {}

  lemma {:induction false} SkippedQuestions(b: seq<byte>, off: nat, n: nat) returns (qs: seq<Question>)
    requires SkipQuestions(b, off, n) >= 0
    ensures |qs| == n && QuestionsAt(b, off, qs, SkipQuestions(b, off, n))
    decreases n
  {
    hide SkipFrom, Encodable, Weight, LeadsBack, EncodeName, At;
    qs := [];
    if n > 0 {
      var at := SkipFrom(b, off, off, 0);
      var name := SkippedName(b, off, off, 0);
      var q := Question(name, b[at..at + 4]);
      AtSlice(b, at, at + 4);
      AtTwoParts(b, off, EncodeName(name), q.fixed);
      var rest := SkippedQuestions(b, at + 4, n - 1);
      qs := [q] + rest;
      assert qs[1..] == rest;
    }
  }

  lemma RecordParts(b: seq<byte>, off: nat, r: Record)
    requires RecordOk(r, off)
    ensures var at := off + |EncodeName(r.name)|;
      && |EncodeRecord(r)| == |EncodeName(r.name)| + 10 + |r.data|
      && (At(b, off, EncodeRecord(r)) <==>
            At(b, off, EncodeName(r.name)) && At(b, at, r.fixed) && At(b, at + 8, Be16(|r.data|)) && At(b, at + 10, r.data))
  {
    hide At, Encodable, Weight, LeadsBack, EncodeName, Be16;
    var name, len := EncodeName(r.name), Be16(|r.data|);
    AtTwoParts(b, off, name + r.fixed + len, r.data);
    AtTwoParts(b, off, name + r.fixed, len);
    AtTwoParts(b, off, name, r.fixed);
  }

  lemma ReadsBe16(b: seq<byte>, off: nat, v: nat)
    requires v < 0x1_0000
    ensures At(b, off, Be16(v)) <==> off + 2 <= |b| && Read16(b, off) == v
  {
    if off + 2 <= |b| {
      assert b[off..off + 2] == [b[off], b[off + 1]];
    }
  }

  lemma {:induction false} RecordsSkipped(b: seq<byte>, off: nat, rs: seq<Record>, end: nat)
    requires RecordsAt(b, off, rs, end)
    ensures SkipRecords(b, off, |rs|) == end
    decreases |rs|
  {
    hide SkipFrom, Encodable, Weight, LeadsBack, EncodeName, EncodeRecord, At, Read16, Be16;
    if rs != [] {
      var r := rs[0];
      RecordParts(b, off, r);
      NameBound(r.name, off);
      NameSkipped(b, off, off, 0, r.name);
      ReadsBe16(b, off + |EncodeName(r.name)| + 8, |r.data|);
      AtBound(b, off + |EncodeName(r.name)| + 10, r.data);
      RecordsSkipped(b, off + |EncodeRecord(r)|, rs[1..], end);
    }
  }

  lemma {:induction false} SkippedRecords(b: seq<byte>, off: nat, n: nat) returns (rs: seq<Record>)
    requires SkipRecords(b, off, n) >= 0
    ensures |rs| == n && RecordsAt(b, off, rs, SkipRecords(b, off, n))
    decreases n
  {
    hide SkipFrom, Encodable, Weight, LeadsBack, EncodeName, EncodeRecord, At, Read16, Be16;
    rs := [];
    if n > 0 {
      var at := SkipFrom(b, off, off, 0);
      var name := SkippedName(b, off, off, 0);
      var end := at + 10 + Read16(b, at + 8);
      var r := Record(name, b[at..at + 8], b[at + 10..end]);
      AtSlice(b, at, at + 8);
      AtSlice(b, at + 10, end);
      ReadsBe16(b, at + 8, |r.data|);
      RecordParts(b, off, r);
      var rest := SkippedRecords(b, end, n - 1);
      rs := [r] + rest;
      assert rs[1..] == rest;
    }
  }

  // ---- messages --------------------------------------------------------------------------------------------

  lemma HeaderParts(b: seq<byte>, m: Message)
    requires CountsOk(m)
    ensures At(b, 0, EncodeHeader(m)) <==>
              At(b, 0, m.head) && At(b, 4, Be16(|m.questions|)) && At(b, 6, Be16(m.answers))
              && At(b, 8, Be16(m.authority)) && At(b, 10, Be16(m.additional))
  {
    hide At, Be16;
    var q, n, ns, r := Be16(|m.questions|), Be16(m.answers), Be16(m.authority), Be16(m.additional);
    AtTwoParts(b, 0, m.head + q + n + ns, r);
    AtTwoParts(b, 0, m.head + q + n, ns);
    AtTwoParts(b, 0, m.head + q, n);
    AtTwoParts(b, 0, m.head, q);
  }

  lemma HeaderReads(b: seq<byte>, m: Message)
    requires CountsOk(m)
    ensures At(b, 0, EncodeHeader(m)) <==>
              |b| >= HEADER && At(b, 0, m.head) && Read16(b, 4) == |m.questions| && Read16(b, 6) == m.answers
              && Read16(b, 8) == m.authority && Read16(b, 10) == m.additional
  {
    hide At, Be16, Read16, EncodeHeader;
    HeaderParts(b, m);
    ReadsBe16(b, 4, |m.questions|);
    ReadsBe16(b, 6, m.answers);
    ReadsBe16(b, 8, m.authority);
    ReadsBe16(b, 10, m.additional);
  }

  lemma MessageFramed(b: seq<byte>, m: Message, end: nat)
    requires IsMessage(b, m, end)
    ensures Framed(b) == end
  {
    hide At, SkipFrom, QuestionsAt, RecordsAt, Read16, EncodeHeader, SkipQuestions, SkipRecords;
    var mid: nat :| QuestionsAt(b, HEADER, m.questions, mid) && RecordsAt(b, mid, m.records, end);
    HeaderReads(b, m);
    QuestionsSkipped(b, HEADER, m.questions, mid);
    RecordsSkipped(b, mid, m.records, end);
  }

  lemma FramedMessage(b: seq<byte>) returns (m: Message)
    requires Framed(b) >= 0
    ensures IsMessage(b, m, Framed(b))
  {
    hide At, SkipFrom, QuestionsAt, RecordsAt, Read16, EncodeHeader, SkipQuestions, SkipRecords;
    var an, ns, ar := Read16(b, 6), Read16(b, 8), Read16(b, 10);
    var mid := SkipQuestions(b, HEADER, Read16(b, 4));
    var qs := SkippedQuestions(b, HEADER, Read16(b, 4));
    var rs := SkippedRecords(b, mid, an + ns + ar);
    m := Message(b[0..4], an, ns, ar, qs, rs);
    AtSlice(b, 0, 4);
    HeaderReads(b, m);
  }

  /** framedLen finds the length of a message exactly when the bytes begin with one of the grammar, and of that length. */
  lemma FramedExactly(b: seq<byte>, r: nat)
    ensures Framed(b) == r <==> exists m :: IsMessage(b, m, r)
  {
    hide IsMessage, Framed;
    if Framed(b) == r {
      var m := FramedMessage(b);
    }
    forall m | IsMessage(b, m, r) ensures Framed(b) == r {
      MessageFramed(b, m, r);
    }
  }

  // ---- what the grammar gives --------------------------------------------------------------------------------

  lemma {:induction false} QuestionsWithin(b: seq<byte>, off: nat, qs: seq<Question>, end: nat, c: seq<byte>)
    requires QuestionsAt(b, off, qs, end) && off <= |b|
    ensures off <= end <= |b|
    ensures end <= |c| && c[..end] == b[..end] ==> QuestionsAt(c, off, qs, end)
    decreases |qs|
  {
    hide Encodable, Weight, LeadsBack, EncodeName;
    if qs != [] {
      var x := EncodeQuestion(qs[0]);
      QuestionsWithin(b, off + |x|, qs[1..], end, c);
      if end <= |c| && c[..end] == b[..end] {
        SameAt(b, c, off, x, end);
      }
    }
  }

  lemma SameAt(b: seq<byte>, c: seq<byte>, off: nat, x: seq<byte>, end: nat)
    requires At(b, off, x) && off + |x| <= end <= |b| && end <= |c| && c[..end] == b[..end]
    ensures At(c, off, x)
  {
    assert c[off..off + |x|] == c[..end][off..off + |x|];
    assert b[off..off + |x|] == b[..end][off..off + |x|];
  }

  lemma {:induction false} RecordsWithin(b: seq<byte>, off: nat, rs: seq<Record>, end: nat, c: seq<byte>)
    requires RecordsAt(b, off, rs, end) && off <= |b|
    ensures off <= end <= |b|
    ensures end <= |c| && c[..end] == b[..end] ==> RecordsAt(c, off, rs, end)
    decreases |rs|
  {
    hide Encodable, Weight, LeadsBack, EncodeName;
    if rs != [] {
      var x := EncodeRecord(rs[0]);
      RecordsWithin(b, off + |x|, rs[1..], end, c);
      if end <= |c| && c[..end] == b[..end] {
        SameAt(b, c, off, x, end);
      }
    }
  }

  lemma MessageWithin(b: seq<byte>, m: Message, end: nat, c: seq<byte>)
    requires IsMessage(b, m, end)
    ensures HEADER <= end <= |b|
    ensures end <= |c| && c[..end] == b[..end] ==> IsMessage(c, m, end)
  {
    hide QuestionsAt, RecordsAt, EncodeHeader;
    var mid: nat :| QuestionsAt(b, HEADER, m.questions, mid) && RecordsAt(b, mid, m.records, end);
    QuestionsWithin(b, HEADER, m.questions, mid, c);
    RecordsWithin(b, mid, m.records, end, c);
    if end <= |c| && c[..end] == b[..end] {
      SameAt(b, c, 0, EncodeHeader(m), end);
      assert c[..mid] == c[..end][..mid] && b[..mid] == b[..end][..mid];
    }
  }

  /** The length of a framed message depends on no byte behind it. */
  lemma SameWithAnythingBehind(b: seq<byte>, c: seq<byte>)
    requires 0 <= Framed(b) <= |c|
    ensures HEADER <= Framed(b) <= |b|
    ensures c[..Framed(b)] == b[..Framed(b)] ==> Framed(c) == Framed(b)
  {
    hide IsMessage, Framed;
    var m := FramedMessage(b);
    var end := Framed(b);
    MessageWithin(b, m, end, c);
    if c[..end] == b[..end] {
      MessageFramed(c, m, end);
    }
  }

  lemma FramedFits(b: seq<byte>)
    ensures Framed(b) == -1 || HEADER <= Framed(b) <= |b|
  {
    hide IsMessage, SkipQuestions, SkipRecords;
    if Framed(b) >= 0 {
      var m := FramedMessage(b);
      MessageWithin(b, m, Framed(b), b);
    }
  }

  /** Framed messages are prefix-free: cut anywhere before its end, a message frames as nothing. */
  lemma NoPrefixFrames(b: seq<byte>, k: nat)
    requires k < Framed(b) <= |b|
    ensures Framed(b[..k]) == -1
  {
    hide Framed;
    var short := b[..k];
    FramedFits(short);
    assert forall i :: 0 <= i <= k ==> b[..i] == short[..i];
    if Framed(short) >= 0 {
      SameWithAnythingBehind(short, b);
    }
  }
}

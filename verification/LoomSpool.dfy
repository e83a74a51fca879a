/** The on-disk queue of batches: Spool of internal/exporters/loom/spool.go. */
module LoomSpool {
  import opened Options
  import opened LoomNames
  import opened LoomQueues

  /** Nanoseconds. */
  type Time = int

  datatype Entry = Entry(name: string, size: nat, n: nat, born: Time)

  /** What a file holds: a whole body, or what an interrupted write left. */
  datatype Content = Whole(docs: seq<Doc>) | Partial

  datatype Reason = Size | Age | Disk | Corrupt | Memory

  /** A call of onDrop: documents removed unsent, and why. */
  datatype Drop = Drop(reason: Reason, n: nat)

  datatype Limits = Limits(max: int, maxAge: Time, minFree: nat)

  datatype State = State(files: seq<Entry>, total: int, puts: nat, disk: map<string, Content>, drops: seq<Drop>)

  /** What Put meets outside the spool: three clock readings, the free space if known, and whether the write works. */
  datatype PutEnv = PutEnv(expireAt: Time, free: Option<nat>, nameAt: nat, bornAt: Time, writeOk: bool)

  datatype PutResult = Stored | LowDisk | WriteError

  datatype Batch = Batch(name: string, docs: seq<Doc>, n: nat)

  // ---- what the operations do -------------------------------------------------------------

  function DropFront(s: State, reason: Reason): (t: State)
    requires s.files != []
  {
    var e := s.files[0];
    State(s.files[1..], s.total - e.size, s.puts, s.disk - {e.name}, s.drops + [Drop(reason, e.n)])
  }

  function ExpireTo(s: State, cutoff: Time): (t: State)
    decreases |s.files|
  {
    if s.files != [] && s.files[0].born < cutoff then ExpireTo(DropFront(s, Age), cutoff) else s
  }

  function Expired(s: State, l: Limits, now: Time): State {
    if l.maxAge <= 0 then s else ExpireTo(s, now - l.maxAge)
  }

  /** Gives up batches until `need` bytes are free; the free space it ends with comes back too. */
  function RoomFor(s: State, free: nat, need: nat): (r: (State, nat))
    decreases |s.files|
  {
    if free < need && s.files != [] then RoomFor(DropFront(s, Disk), free + s.files[0].size, need) else (s, free)
  }

  function Enforced(s: State, max: int): (t: State)
    decreases |s.files|
  {
    if s.total > max && |s.files| > 1 then Enforced(DropFront(s, Size), max) else s
  }

  function Appended(s: State, docs: seq<Doc>, env: PutEnv): State {
    var name := PutName(env.nameAt, s.puts, |docs|);
    var size := |Body(docs)|;
    s.(files := s.files + [Entry(name, size, |docs|, env.bornAt)], total := s.total + size, disk := s.disk[name := Whole(docs)])
  }

  function AfterPut(s: State, l: Limits, docs: seq<Doc>, env: PutEnv): (r: (State, PutResult)) {
    var young := Expired(s, l, env.expireAt);
    var need := |Body(docs)| + l.minFree;
    var room := if env.free.None? then (young, need) else RoomFor(young, env.free.value, need);
    if room.1 < need then (room.0, LowDisk)
    else
      var counted := room.0.(puts := room.0.puts + 1);
      if !env.writeOk then (counted, WriteError)
      else (Enforced(Appended(counted, docs, env), l.max), Stored)
  }

  /** The file can be read and is a whole JSON array. */
  predicate Good(s: State, name: string, readable: string -> bool) {
    name in s.disk && s.disk[name].Whole? && readable(name)
  }

  function SkipCorrupt(s: State, readable: string -> bool): (t: State)
    ensures t.files != [] ==> Good(t, t.files[0].name, readable)
    decreases |s.files|
  {
    if s.files != [] && !Good(s, s.files[0].name, readable) then SkipCorrupt(DropFront(s, Corrupt), readable) else s
  }

  function AfterOldest(s: State, l: Limits, now: Time, readable: string -> bool): (r: (State, Option<Batch>)) {
    var t := SkipCorrupt(Expired(s, l, now), readable);
    if t.files == [] then (t, None)
    else (t, Some(Batch(t.files[0].name, t.disk[t.files[0].name].docs, t.files[0].n)))
  }

  /** The index of the first entry of that name, or the length when there is none. */
  function Find(files: seq<Entry>, name: string): (i: nat)
    ensures i <= |files|
    ensures i < |files| ==> files[i].name == name
    ensures forall j :: 0 <= j < i ==> files[j].name != name
  {
    if files == [] || files[0].name == name then 0 else 1 + Find(files[1..], name)
  }

  /** Remove: `deleted` is false when the file could not be deleted and is still there. */
  function AfterRemove(s: State, name: string, deleted: bool): (r: (State, bool)) {
    var i := Find(s.files, name);
    if i == |s.files| then (s, true)
    else (s.(files := s.files[..i] + s.files[i + 1..], total := s.total - s.files[i].size,
             disk := if deleted then s.disk - {name} else s.disk), deleted)
  }

  function HalfEntry(name: string, half: char, docs: seq<Doc>, born: Time): Entry {
    Entry(HalfName(name, half, |docs|), |Body(docs)|, |docs|, born)
  }

  datatype SplitResult = Split | Single | SplitError

  /** Split: the halves are written one after the other, and the first is taken back when the second fails. */
  function AfterSplit(s: State, name: string, docs: seq<Doc>, okA: bool, okB: bool): (r: (State, SplitResult)) {
    if |docs| < 2 then (s, Single)
    else
      var at := Find(s.files, name);
      if at == |s.files| then (s, Split)
      else
        var born := s.files[at].born;
        var a, b := HalfEntry(name, 'a', FirstHalf(docs), born), HalfEntry(name, 'b', SecondHalf(docs), born);
        if !okA then (s, SplitError)
        else if !okB then (s.(disk := s.disk[a.name := Whole(FirstHalf(docs))] - {a.name}), SplitError)
        else
          (s.(files := s.files[..at] + [a, b] + s.files[at + 1..],
              total := s.total - s.files[at].size + a.size + b.size,
              disk := s.disk[a.name := Whole(FirstHalf(docs))][b.name := Whole(SecondHalf(docs))] - {name}), Split)
  }

  // ---- the object ----------------------------------------------------------------------------

  class Spool {
    const l: Limits
    var files: seq<Entry>
    var total: int
    var puts: nat
    var disk: map<string, Content>
    var drops: seq<Drop>

    ghost function View(): State
      reads this
    {
      State(files, total, puts, disk, drops)
    }

    constructor (l: Limits)
      ensures this.l == l && View() == State([], 0, 0, map[], [])
    {
      this.l := l;
      files, total, puts, disk, drops := [], 0, 0, map[], [];
    }

    method DropOldest(reason: Reason)
      requires files != []
      modifies this
      ensures View() == DropFront(old(View()), reason)
    {
      var e := files[0];
      disk := disk - {e.name};
      files := files[1..];
      total := total - e.size;
      drops := drops + [Drop(reason, e.n)];
    }

    method Expire(now: Time)
      modifies this
      ensures View() == Expired(old(View()), l, now)
    {
      if l.maxAge <= 0 {
        return;
      }
      var cutoff := now - l.maxAge;
      while |files| > 0 && files[0].born < cutoff
        invariant ExpireTo(View(), cutoff) == ExpireTo(old(View()), cutoff)
        decreases |files|
      {
        DropOldest(Age);
      }
    }

    method MakeRoom(size: nat, freeSpace: Option<nat>) returns (ok: bool)
      modifies this
      ensures var need := size + l.minFree;
              var room := if freeSpace.None? then (old(View()), need) else RoomFor(old(View()), freeSpace.value, need);
              View() == room.0 && (ok <==> room.1 >= need)
    {
      if freeSpace.None? {
        return true;
      }
      var free: nat := freeSpace.value;
      var need := size + l.minFree;
      while free < need && |files| > 0
        invariant RoomFor(View(), free, need) == RoomFor(old(View()), freeSpace.value, need)
        decreases |files|
      {
        var e := files[0];
        DropOldest(Disk);
        free := free + e.size;
      }
      return free >= need;
    }

    method Enforce()
      modifies this
      ensures View() == Enforced(old(View()), l.max)
    {
      while total > l.max && |files| > 1
        invariant Enforced(View(), l.max) == Enforced(old(View()), l.max)
        decreases |files|
      {
        DropOldest(Size);
      }
    }

    method Put(docs: seq<Doc>, env: PutEnv) returns (r: PutResult)
      modifies this
      ensures (View(), r) == AfterPut(old(View()), l, docs, env)
    {
      hide Expired, RoomFor, Enforced, PutName, Body;
      Expire(env.expireAt);
      var body := JoinDocs(docs);
      var ok := MakeRoom(|body|, env.free);
      if !ok {
        return LowDisk;
      }
      puts := puts + 1;
      var name := PutName(env.nameAt, puts, |docs|);
      if !env.writeOk {
        return WriteError;
      }
      disk := disk[name := Whole(docs)];
      files := files + [Entry(name, |body|, |docs|, env.bornAt)];
      total := total + |body|;
      Enforce();
      return Stored;
    }

    method Oldest(now: Time, readable: string -> bool) returns (r: Option<Batch>)
      modifies this
      ensures (View(), r) == AfterOldest(old(View()), l, now, readable)
    {
      hide Expired;
      Expire(now);
      ghost var young := View();
      while |files| > 0
        invariant SkipCorrupt(View(), readable) == SkipCorrupt(young, readable)
        decreases |files|
      {
        var e := files[0];
        if e.name !in disk || disk[e.name].Partial? || !readable(e.name) {
          DropOldest(Corrupt);
          continue;
        }
        return Some(Batch(e.name, disk[e.name].docs, e.n));
      }
      return None;
    }

    method Remove(name: string, deleted: bool) returns (ok: bool)
      modifies this
      ensures (View(), ok) == AfterRemove(old(View()), name, deleted)
    {
      var i := 0;
      while i < |files|
        invariant 0 <= i <= |files| && View() == old(View())
        invariant forall j :: 0 <= j < i ==> files[j].name != name
      {
        var e := files[i];
        if e.name == name {
          FindIs(files, name, i);
          files := files[..i] + files[i + 1..];
          total := total - e.size;
          if !deleted {
            return false;
          }
          disk := disk - {e.name};
          return true;
        }
        i := i + 1;
      }
      FindIs(files, name, i);
      return true;
    }

    method SplitBatch(name: string, docs: seq<Doc>, okA: bool, okB: bool) returns (r: SplitResult)
      modifies this
      ensures (View(), r) == AfterSplit(old(View()), name, docs, okA, okB)
    {
      hide HalfName, Body;
      if |docs| < 2 {
        return Single;
      }
      var at := 0;
      while at < |files| && files[at].name != name
        invariant 0 <= at <= |files| && View() == old(View())
        invariant forall j :: 0 <= j < at ==> files[j].name != name
      {
        at := at + 1;
      }
      FindIs(files, name, at);
      if at == |files| {
        return Split;
      }
      var orig := files[at];
      var mid := |docs| / 2;
      var first, second := docs[..mid], docs[mid..];
      var a := Entry(HalfName(name, 'a', |first|), |Body(first)|, |first|, orig.born);
      if !okA {
        return SplitError;
      }
      disk := disk[a.name := Whole(first)];
      var b := Entry(HalfName(name, 'b', |second|), |Body(second)|, |second|, orig.born);
      if !okB {
        disk := disk - {a.name};
        return SplitError;
      }
      disk := disk[b.name := Whole(second)];
      disk := disk - {orig.name};
      total := total - orig.size;
      var rest := files[at + 1..];
      files := files[..at] + [a, b] + rest;
      total := total + a.size + b.size;
      return Split;
    }

    method Stats() returns (count: nat, bytes: int, docs: nat)
      ensures count == |files| && bytes == total && docs == Documents(files)
    {
      docs := 0;
      var i := 0;
      while i < |files|
        invariant 0 <= i <= |files| && docs == Documents(files[..i])
      {
        assert files[..i + 1][..i] == files[..i];
        docs := docs + files[i].n;
        i := i + 1;
      }
      assert files[..|files|] == files;
      return |files|, total, docs;
    }
  }

  function Documents(files: seq<Entry>): nat {
    if files == [] then 0 else Documents(files[..|files| - 1]) + files[|files| - 1].n
  }

  lemma {:induction false} FindIs(files: seq<Entry>, name: string, i: nat)
    requires i <= |files| && (forall j :: 0 <= j < i ==> files[j].name != name)
    requires i < |files| ==> files[i].name == name
    ensures Find(files, name) == i
    decreases i
  {
    if i > 0 {
      FindIs(files[1..], name, i - 1);
    }
  }
}

/** Linked records in a file.  A record's offset is its number; offset 0 is the header,
    and a next field of 0 ends the list. */
module RecordList {
  datatype Rec = Rec(data: int, next: nat)

  /** `path` is the list in the file: it starts at the header, stays inside the file,
      meets no record twice and ends. */
  ghost predicate IsList(recs: seq<Rec>, path: seq<nat>) {
    && |path| > 0 && path[0] == 0
    && (forall i :: 0 <= i < |path| ==> path[i] < |recs|)
    && (forall i {:trigger Link(path, i)} :: 0 <= i < |path| ==> recs[path[i]].next == Link(path, i))
    && (forall i, j :: 0 <= i < j < |path| ==> path[i] != path[j])
  }

  function Link(path: seq<nat>, i: nat): nat {
    if i + 1 < |path| then path[i + 1] else 0
  }

  /** The keys on the list, the header left out. */
  ghost function Keys(recs: seq<Rec>, path: seq<nat>): (ks: seq<int>)
    requires IsList(recs, path)
    ensures |ks| == |path| - 1 && forall i :: 0 <= i < |ks| ==> ks[i] == recs[path[i + 1]].data
  {
    seq(|path| - 1, i requires 0 <= i < |path| - 1 => recs[path[i + 1]].data)
  }

  ghost predicate Sorted(ks: seq<int>) {
    forall i, j :: 0 <= i < j < |ks| ==> ks[i] <= ks[j]
  }

  function FirstAbove(ks: seq<int>, d: int): (m: nat)
    ensures m <= |ks| && (m < |ks| ==> ks[m] > d) && forall i :: 0 <= i < m ==> ks[i] <= d
  {
    if ks == [] || ks[0] > d then 0
    else
      var m := FirstAbove(ks[1..], d);
      assert forall i :: 1 <= i < m + 1 ==> ks[i] == ks[1..][i - 1];
      m + 1
  }

  /** Where `store` puts a key: in front when the first key or no key is larger,
      otherwise behind the first larger one. */
  function Place(ks: seq<int>, d: int): (p: nat)
    ensures p <= |ks|
  {
    var m := FirstAbove(ks, d);
    if m == 0 || m == |ks| then 0 else m + 1
  }

  function Insert(ks: seq<int>, d: int): seq<int> {
    ks[..Place(ks, d)] + [d] + ks[Place(ks, d)..]
  }

  /** `ks'` is `ks` with `d` at place `p`, and nothing else added, lost or moved: in front
      when the first key is above `d` or none is, otherwise right behind the first key
      above it. */
  ghost predicate StoredAt(ks: seq<int>, d: int, ks': seq<int>, p: nat) {
    && p < |ks'| && ks'[p] == d && ks'[..p] + ks'[p + 1..] == ks
    && (if p == 0 then ks == [] || ks[0] > d || forall i :: 0 <= i < |ks| ==> ks[i] <= d
        else p >= 2 && ks[p - 1] > d && forall i :: 0 <= i < p - 1 ==> ks[i] <= d)
  }

  /** `store` adds exactly the key. */
  lemma {:induction false} InsertStores(ks: seq<int>, d: int)
    ensures multiset(Insert(ks, d)) == multiset(ks) + multiset{d}
    ensures StoredAt(ks, d, Insert(ks, d), Place(ks, d))
  {
    var p := Place(ks, d);
    assert ks == ks[..p] + ks[p..];
    assert Insert(ks, d)[..p] == ks[..p] && Insert(ks, d)[p + 1..] == ks[p..];
  }

  /** The description leaves only one place and one result. */
  lemma {:induction false} StoredUniquely(ks: seq<int>, d: int, ks': seq<int>, p: nat)
    requires StoredAt(ks, d, ks', p)
    ensures p == Place(ks, d) && ks' == Insert(ks, d)
  {
    assert ks' == ks'[..p] + [d] + ks'[p + 1..];
    assert ks[..p] == ks'[..p] && ks[p..] == ks'[p + 1..];
  }

  /** `store` keeps a sorted list sorted exactly when the list is empty, the new key is
      below the first one, or all keys are equal to it. */
  lemma {:induction false} WhenStoreKeepsOrder(ks: seq<int>, d: int)
    requires Sorted(ks)
    ensures Sorted(Insert(ks, d)) <==> ks == [] || d < ks[0] || (d == ks[0] && ks[|ks| - 1] == d)
  {
    var m, p, r := FirstAbove(ks, d), Place(ks, d), Insert(ks, d);
    if ks == [] || d < ks[0] {
    } else if m < |ks| {
      assert r[m] == ks[m] && r[m + 1] == d;
      assert !Sorted(r);
    } else {
      assert r == [d] + ks;
      assert r[0] == d && r[1] == ks[0];
    }
  }

  /** A key stored out of place. */
  lemma {:induction false} AscendingKeysGoWrong()
    ensures Insert([1], 2) == [2, 1] && !Sorted(Insert([1], 2))
  {
    assert FirstAbove([1], 2) == 1;
    assert Insert([1], 2)[0] == 2 && Insert([1], 2)[1] == 1;
  }

  /** Linking a new last record in after the record at place `i` of the list. */
  lemma {:induction false} LinkIn(recs: seq<Rec>, path: seq<nat>, i: nat, d: int)
    requires IsList(recs, path) && i < |path|
    ensures var recs', path' := Linked(recs, path[i], d), path[..i + 1] + [|recs|] + path[i + 1..];
            IsList(recs', path') && Keys(recs', path') == Keys(recs, path)[..i] + [d] + Keys(recs, path)[i..]
  {
    var recs', path' := Linked(recs, path[i], d), path[..i + 1] + [|recs|] + path[i + 1..];
    assert forall j :: 0 <= j < |path'| ==> path'[j] == Moved(path, i, |recs|, j);
    LinkedIsList(recs, path, i, d, path');
    hide IsList;
  }

  function Linked(recs: seq<Rec>, prev: nat, d: int): seq<Rec>
    requires prev < |recs|
  {
    recs[prev := Rec(recs[prev].data, |recs|)] + [Rec(d, recs[prev].next)]
  }

  /** The `j`-th element once `end` has been inserted behind place `i`. */
  function Moved(path: seq<nat>, i: nat, end: nat, j: nat): nat
    requires i < |path| && j <= |path|
  {
    if j <= i then path[j] else if j == i + 1 then end else path[j - 1]
  }

  lemma {:induction false} LinkedIsList(recs: seq<Rec>, path: seq<nat>, i: nat, d: int, path': seq<nat>)
    requires IsList(recs, path) && i < |path| && |path'| == |path| + 1
    requires forall j :: 0 <= j < |path'| ==> path'[j] == Moved(path, i, |recs|, j)
    ensures IsList(Linked(recs, path[i], d), path')
  {
    var recs' := Linked(recs, path[i], d);
    forall j | 0 <= j < |path'|
      ensures recs'[path'[j]].next == Link(path', j)
    {
      assert recs[path[i]].next == Link(path, i);
      if j < i {
        assert path[j] != path[i] && recs[path[j]].next == Link(path, j);
      } else if j > i + 1 {
        assert path[j - 1] != path[i] && recs[path[j - 1]].next == Link(path, j - 1);
      }
    }
  }
}

/** `store` as a sequential program. */
module RecordFile {
  import opened RecordList

  class File {
    var recs: seq<Rec>

    /** `readrec` of an offset inside the file. */
    method ReadRec(off: nat) returns (ok: bool, r: Rec)
      ensures ok == (off < |recs|) && (ok ==> r == recs[off])
    {
      if off < |recs| {
        return true, recs[off];
      }
      return false, Rec(0, 0);
    }

    /** `writerec` inside the file or at its end. */
    method WriteRec(off: nat, r: Rec)
      requires off <= |recs|
      modifies this
      ensures recs == if off < |old(recs)| then old(recs)[off := r] else old(recs) + [r]
    {
      recs := if off < |recs| then recs[off := r] else recs + [r];
    }

    /** The search for the record to insert after. */
    method FindPrev(data: int, ghost path: seq<nat>) returns (ok: bool, prev: nat)
      requires IsList(recs, path)
      ensures ok && prev == path[Place(Keys(recs, path), data)]
    {
      ghost var ks, at := Keys(recs, path), 0;
      prev := 0;
      var r;
      ok, r := ReadRec(prev);
      while r.next != 0
        invariant ok && at < |path| && r == recs[path[at]]
        invariant forall i :: 0 <= i < at ==> ks[i] <= data
        invariant prev == if at == 0 then 0 else Link(path, at)
        decreases |path| - at
      {
        assert r.next == Link(path, at);
        ok, r := ReadRec(r.next);
        at := at + 1;
        assert r.data == ks[at - 1];
        if r.data > data {
          AboveAt(ks, data, at - 1);
          return true, prev;
        }
        prev := r.next;
        assert prev == Link(path, at);
      }
      assert r.next == Link(path, at);
      AboveAt(ks, data, |ks|);
    }

    method Store(data: int, ghost path: seq<nat>) returns (ok: bool, ghost path': seq<nat>)
      requires IsList(recs, path)
      modifies this
      ensures ok && IsList(recs, path') && Keys(recs, path') == Insert(old(Keys(recs, path)), data)
      ensures multiset(Keys(recs, path')) == multiset(old(Keys(recs, path))) + multiset{data}
      ensures exists p :: StoredAt(old(Keys(recs, path)), data, Keys(recs, path'), p)
      ensures |recs| == |old(recs)| + 1
    {
      hide IsList, Keys, Place, Insert, StoredAt;
      var end := |recs|;
      var prev, r;
      StoreLinks(recs, path, data);
      ok, prev := FindPrev(data, path);
      ok, r := ReadRec(prev);
      path' := PathAfter(recs, path, data);
      WriteRec(prev, Rec(r.data, end));
      WriteRec(end, Rec(data, r.next));
    }
  }

  ghost function PathAfter(recs: seq<Rec>, path: seq<nat>, d: int): seq<nat>
    requires IsList(recs, path)
  {
    var p := Place(Keys(recs, path), d);
    path[..p + 1] + [|recs|] + path[p + 1..]
  }

  /** Linking the new record in where the search stops stores the key. */
  lemma {:induction false} StoreLinks(recs: seq<Rec>, path: seq<nat>, d: int)
    requires IsList(recs, path)
    ensures var ks, p := Keys(recs, path), Place(Keys(recs, path), d);
            && p < |path| && path[p] < |recs|
            && var recs', path' := Linked(recs, path[p], d), PathAfter(recs, path, d);
               && IsList(recs', path') && Keys(recs', path') == Insert(ks, d)
               && multiset(Keys(recs', path')) == multiset(ks) + multiset{d} && StoredAt(ks, d, Keys(recs', path'), p)
  {
    hide StoredAt, Keys;
    var p := Place(Keys(recs, path), d);
    LinkIn(recs, path, p, d);
    InsertStores(Keys(recs, path), d);
  }

  lemma {:induction false} AboveAt(ks: seq<int>, d: int, m: nat)
    requires m <= |ks| && (m < |ks| ==> ks[m] > d) && forall i :: 0 <= i < m ==> ks[i] <= d
    ensures FirstAbove(ks, d) == m
  {
  }
}

/** The writer and the reader, interleaved.  Every read or write of a record and every
    semaphore operation is a step; the link is written before the record it points to. */
module RecordRace {
  import opened RecordList

  /** The keys the writer stores, in that order, and the number of walks of the reader. */
  datatype Config = Config(keys: seq<int>, walks: nat)

  datatype WriterPc = Seek | ReadHead | Search | LockFile | ReadPrev | WriteLink | WriteNew | Unlock

  datatype Writer = Writer(pc: WriterPc, stored: nat, end: nat, prev: nat, r: Rec, newNext: nat)

  datatype ReaderPc = Wait | Head | Walk | Post

  datatype Reader = Reader(pc: ReaderPc, walks: nat, r1: Rec)

  /** `failed`: some process met a short record.  `disorder`: the reader reported a sorting error. */
  datatype State = State(recs: seq<Rec>, sem: nat, w: Writer, rd: Reader, failed: bool, disorder: bool)

  datatype Actor = WriterProc | ReaderProc

  predicate ConfigOk(cfg: Config) {
    && (forall i :: 0 <= i < |cfg.keys| ==> cfg.keys[i] >= 0)
    && (forall i, j :: 0 <= i < j < |cfg.keys| ==> cfg.keys[i] > cfg.keys[j])
  }

  /** After the header has been written. */
  predicate Init(s: State) {
    && s.recs == [Rec(0, 0)] && s.sem == 1 && !s.failed && !s.disorder
    && s.w.pc == Seek && s.w.stored == 0 && s.rd.pc == Wait && s.rd.walks == 0
  }

  predicate WriterDone(cfg: Config, s: State) { s.w.pc == Seek && s.w.stored >= |cfg.keys| }

  predicate ReaderDone(cfg: Config, s: State) { s.rd.pc == Wait && s.rd.walks >= cfg.walks }

  predicate Enabled(cfg: Config, s: State, a: Actor) {
    !s.failed &&
    match a
    case WriterProc => s.w.stored < |cfg.keys| && (s.w.pc == LockFile ==> s.sem > 0)
    case ReaderProc => !ReaderDone(cfg, s) && (s.rd.pc == Wait ==> s.sem > 0)
  }

  function WriterStep(cfg: Config, s: State): State
    requires Enabled(cfg, s, WriterProc)
  {
    var w, d := s.w, cfg.keys[s.w.stored];
    match w.pc
    case Seek => s.(w := w.(pc := ReadHead, end := |s.recs|, prev := 0))
    case ReadHead => if 0 < |s.recs| then s.(w := w.(pc := Search, r := s.recs[0])) else s.(failed := true)
    case Search =>
      if w.r.next == 0 then s.(w := w.(pc := LockFile))
      else if w.r.next >= |s.recs| then s.(failed := true)
      else
        var r := s.recs[w.r.next];
        if r.data > d then s.(w := w.(pc := LockFile, r := r)) else s.(w := w.(r := r, prev := r.next))
    case LockFile => s.(sem := s.sem - 1, w := w.(pc := ReadPrev))
    case ReadPrev => if w.prev < |s.recs| then s.(w := w.(pc := WriteLink, r := s.recs[w.prev])) else s.(failed := true)
    case WriteLink =>
      if w.prev < |s.recs| then
        s.(recs := s.recs[w.prev := w.r.(next := w.end)], w := w.(pc := WriteNew, newNext := w.r.next))
      else s.(failed := true)
    case WriteNew =>
      if w.end == |s.recs| then s.(recs := s.recs + [Rec(d, w.newNext)], w := w.(pc := Unlock)) else s.(failed := true)
    case Unlock => s.(sem := s.sem + 1, w := w.(pc := Seek, stored := w.stored + 1))
  }

  function ReaderStep(cfg: Config, s: State): State
    requires Enabled(cfg, s, ReaderProc)
  {
    var rd := s.rd;
    match rd.pc
    case Wait => s.(sem := s.sem - 1, rd := rd.(pc := Head))
    case Head => if 0 < |s.recs| then s.(rd := rd.(pc := Walk, r1 := s.recs[0])) else s.(failed := true)
    case Walk =>
      if rd.r1.next == 0 then s.(rd := rd.(pc := Post))
      else if rd.r1.next >= |s.recs| then s.(failed := true)
      else
        var r2 := s.recs[rd.r1.next];
        if rd.r1.data > r2.data then s.(disorder := true, rd := rd.(pc := Post)) else s.(rd := rd.(r1 := r2))
    case Post => s.(sem := s.sem + 1, rd := rd.(pc := Wait, walks := rd.walks + 1))
  }

  function Next(cfg: Config, s: State, a: Actor): State
    requires Enabled(cfg, s, a)
  {
    match a case WriterProc => WriterStep(cfg, s) case ReaderProc => ReaderStep(cfg, s)
  }

  predicate Legal(cfg: Config, s: State, sched: seq<Actor>)
    decreases |sched|
  {
    sched == [] || (Enabled(cfg, s, sched[0]) && Legal(cfg, Next(cfg, s, sched[0]), sched[1..]))
  }

  function Exec(cfg: Config, s: State, sched: seq<Actor>): State
    requires Legal(cfg, s, sched)
    decreases |sched|
  {
    if sched == [] then s else Exec(cfg, Next(cfg, s, sched[0]), sched[1..])
  }

  // ---------- what the reader's check is worth ----------

  function Reads(m: nat): (sched: seq<Actor>)
    ensures |sched| == m && forall i :: 0 <= i < m ==> sched[i] == ReaderProc
  {
    seq(m, _ => ReaderProc)
  }

  lemma {:induction false} ReadsMore(m: nat)
    ensures Reads(m + 1)[0] == ReaderProc && Reads(m + 1)[1..] == Reads(m)
  {
  }

  /** The data of the records on the list, the header's first. */
  ghost function AllData(recs: seq<Rec>, path: seq<nat>): (ds: seq<int>)
    requires IsList(recs, path)
    ensures |ds| == |path| && forall i :: 0 <= i < |path| ==> ds[i] == recs[path[i]].data
  {
    seq(|path|, i requires 0 <= i < |path| => recs[path[i]].data)
  }

  /** From record `k` of the list on, with everything before it in order. */
  lemma {:induction false} WalkChecks(cfg: Config, s: State, path: seq<nat>, k: nat) returns (m: nat)
    requires IsList(s.recs, path) && !s.failed && s.rd.pc == Walk && k < |path| && s.rd.r1 == s.recs[path[k]]
    requires Sorted(AllData(s.recs, path)[..k + 1])
    ensures Legal(cfg, s, Reads(m))
    ensures var t := Exec(cfg, s, Reads(m));
            t.rd.pc == Post && !t.failed && (t.disorder <==> s.disorder || !Sorted(AllData(s.recs, path)))
    decreases |path| - k
  {
    hide Legal, Exec;
    var ds := AllData(s.recs, path);
    assert s.rd.r1.next == Link(path, k);
    var t := ReaderStep(cfg, s);
    if k + 1 == |path| {
      assert ds[..k + 1] == ds;
      m := 1;
      OneRead(cfg, s, 0);
    } else if ds[k] > ds[k + 1] {
      assert !Sorted(ds);
      m := 1;
      OneRead(cfg, s, 0);
    } else {
      NextSorted(ds, k);
      m := WalkChecks(cfg, t, path, k + 1);
      OneRead(cfg, s, m);
      m := m + 1;
    }
  }

  lemma {:induction false} NextSorted(ds: seq<int>, k: nat)
    requires k + 1 < |ds| && Sorted(ds[..k + 1]) && ds[k] <= ds[k + 1]
    ensures Sorted(ds[..k + 2])
  {
    var a, b := ds[..k + 1], ds[..k + 2];
    assert forall i :: 0 <= i <= k ==> a[i] <= a[k];
    assert forall i :: 0 <= i <= k ==> b[i] == a[i];
  }

  /** A reader's step and then `m` more. */
  lemma {:induction false} OneRead(cfg: Config, s: State, m: nat)
    requires Enabled(cfg, s, ReaderProc)
    ensures Legal(cfg, s, Reads(m + 1)) <==> Legal(cfg, ReaderStep(cfg, s), Reads(m))
    ensures Legal(cfg, ReaderStep(cfg, s), Reads(m)) ==> Exec(cfg, s, Reads(m + 1)) == Exec(cfg, ReaderStep(cfg, s), Reads(m))
    ensures Legal(cfg, s, Reads(0)) && Exec(cfg, s, Reads(0)) == s
    ensures Legal(cfg, ReaderStep(cfg, s), Reads(0)) && Exec(cfg, ReaderStep(cfg, s), Reads(0)) == ReaderStep(cfg, s)
  {
    ReadsMore(m);
  }

  /** Left alone with a file that is a list, the reader gets to its end and reports a sorting
      error exactly when the records are not in order. */
  lemma {:induction false} ReaderChecks(cfg: Config, s: State, path: seq<nat>) returns (m: nat)
    requires IsList(s.recs, path) && !s.failed && s.rd.pc == Head
    ensures Legal(cfg, s, Reads(m))
    ensures var t := Exec(cfg, s, Reads(m));
            t.rd.pc == Post && !t.failed && (t.disorder <==> s.disorder || !Sorted(AllData(s.recs, path)))
  {
    hide Legal, Exec;
    m := WalkChecks(cfg, ReaderStep(cfg, s), path, 0);
    OneRead(cfg, s, m);
    m := m + 1;
  }

  // ---------- the file between two critical sections ----------

  /** The file after `keys` have been stored, each in front of the ones before. */
  function FileOf(keys: seq<int>): (recs: seq<Rec>)
    ensures |recs| == |keys| + 1 && recs[0] == Rec(0, |keys|)
    ensures forall k :: 1 <= k <= |keys| ==> recs[k] == Rec(keys[k - 1], k - 1)
  {
    [Rec(0, |keys|)] + seq(|keys|, i requires 0 <= i < |keys| => Rec(keys[i], i))
  }

  predicate WriterHolds(s: State) { s.w.pc in {ReadPrev, WriteLink, WriteNew, Unlock} }

  predicate ReaderHolds(s: State) { s.rd.pc != Wait }

  ghost predicate FileOk(cfg: Config, s: State)
    requires s.w.stored <= |cfg.keys|
  {
    var n := s.w.stored;
    match s.w.pc
    case WriteNew => n < |cfg.keys| && s.recs == FileOf(cfg.keys[..n])[0 := Rec(0, n + 1)]
    case Unlock => n < |cfg.keys| && s.recs == FileOf(cfg.keys[..n + 1])
    case _ => s.recs == FileOf(cfg.keys[..n])
  }

  ghost predicate WriterOk(cfg: Config, s: State) {
    var w, n := s.w, s.w.stored;
    && n <= |cfg.keys| && FileOk(cfg, s)
    && (w.pc != Seek ==> n < |cfg.keys| && w.end == n + 1 && w.prev == 0)
    && (w.pc == Search || w.pc == WriteLink ==> w.r == Rec(0, n))
    && (w.pc == WriteNew ==> w.newNext == n)
  }

  ghost predicate ReaderOk(s: State) {
    s.rd.pc == Walk ==> s.rd.r1 in s.recs
  }

  ghost predicate Inv(cfg: Config, s: State) {
    && ConfigOk(cfg) && !s.failed && !s.disorder
    && WriterOk(cfg, s) && ReaderOk(s) && s.rd.walks <= cfg.walks
    && (s.rd.pc != Wait ==> s.rd.walks < cfg.walks)
    && s.sem + (if WriterHolds(s) then 1 else 0) + (if ReaderHolds(s) then 1 else 0) == 1
  }

  lemma {:induction false} WriterStepInv(cfg: Config, s: State)
    requires Inv(cfg, s) && Enabled(cfg, s, WriterProc)
    ensures Inv(cfg, WriterStep(cfg, s))
  {
    var n := s.w.stored;
    if s.w.pc == Search && n > 0 {
      assert s.recs[n] == Rec(cfg.keys[n - 1], n - 1);
    }
    if s.w.pc == WriteNew {
      assert WriterStep(cfg, s).recs == FileOf(cfg.keys[..n + 1]);
    }
  }

  /** A record of the file and the one it points to are in order. */
  lemma {:induction false} NextIsLarger(cfg: Config, n: nat, r: Rec)
    requires ConfigOk(cfg) && n <= |cfg.keys| && r in FileOf(cfg.keys[..n])
    ensures r.next <= n
    ensures r.next != 0 ==>
              var r2 := FileOf(cfg.keys[..n])[r.next]; r.data <= r2.data && r2.next < r.next
  {
    var recs := FileOf(cfg.keys[..n]);
    var i :| 0 <= i < |recs| && recs[i] == r;
    if i > 0 {
      assert recs[i] == Rec(cfg.keys[i - 1], i - 1);
    }
    if r.next != 0 {
      assert recs[r.next] == Rec(cfg.keys[r.next - 1], r.next - 1);
    }
  }

  lemma {:induction false} ReaderStepInv(cfg: Config, s: State)
    requires Inv(cfg, s) && Enabled(cfg, s, ReaderProc)
    ensures Inv(cfg, ReaderStep(cfg, s))
  {
    if s.rd.pc == Walk {
      NextIsLarger(cfg, s.w.stored, s.rd.r1);
    }
  }

  lemma {:induction false} StepInv(cfg: Config, s: State, a: Actor)
    requires Inv(cfg, s) && Enabled(cfg, s, a)
    ensures Inv(cfg, Next(cfg, s, a))
  {
    match a case WriterProc => WriterStepInv(cfg, s); case ReaderProc => ReaderStepInv(cfg, s);
  }

  // ---------- the run ends ----------

  function WriterRest(pc: WriterPc): nat {
    match pc
    case Seek => 8 case ReadHead => 7 case Search => 6 case LockFile => 5
    case ReadPrev => 4 case WriteLink => 3 case WriteNew => 2 case Unlock => 1
  }

  function ReaderRest(cfg: Config, rd: Reader): int {
    match rd.pc
    case Wait => |cfg.keys| + 5
    case Head => |cfg.keys| + 4
    case Walk => rd.r1.next + 2
    case Post => 1
  }

  ghost function Measure(cfg: Config, s: State): int {
    8 * (|cfg.keys| - s.w.stored) + WriterRest(s.w.pc) +
    (|cfg.keys| + 5) * (cfg.walks - s.rd.walks) + ReaderRest(cfg, s.rd)
  }

  lemma {:induction false} StepDrops(cfg: Config, s: State, a: Actor)
    requires Inv(cfg, s) && Enabled(cfg, s, a)
    ensures Measure(cfg, Next(cfg, s, a)) < Measure(cfg, s)
  {
    if a == ReaderProc && s.rd.pc == Walk {
      NextIsLarger(cfg, s.w.stored, s.rd.r1);
    }
    if a == ReaderProc && s.rd.pc == Post {
      var k, m := |cfg.keys| + 5, cfg.walks - s.rd.walks;
      assert k * (m - 1) == k * m - k;
    }
    if a == WriterProc && s.w.pc == Search && s.w.stored > 0 {
      assert s.recs[s.w.stored] == Rec(cfg.keys[s.w.stored - 1], s.w.stored - 1);
    }
  }

  lemma {:induction false} MeasurePositive(cfg: Config, s: State)
    requires Inv(cfg, s)
    ensures Measure(cfg, s) >= 0
  {
    NonNegative(|cfg.keys| + 5, cfg.walks - s.rd.walks);
  }

  lemma {:induction false} NonNegative(a: nat, b: nat)
    ensures a * b >= 0
  {
  }

  lemma {:induction false} RunInv(cfg: Config, s: State, sched: seq<Actor>)
    requires Inv(cfg, s) && Legal(cfg, s, sched)
    ensures Inv(cfg, Exec(cfg, s, sched)) && Measure(cfg, Exec(cfg, s, sched)) + |sched| <= Measure(cfg, s)
    decreases |sched|
  {
    if sched != [] {
      StepInv(cfg, s, sched[0]);
      StepDrops(cfg, s, sched[0]);
      RunInv(cfg, Next(cfg, s, sched[0]), sched[1..]);
    }
  }

  // ---------- what every run guarantees ----------

  function PathOf(n: nat): (path: seq<nat>)
    ensures |path| == n + 1 && path[0] == 0 && forall i :: 1 <= i <= n ==> path[i] == n + 1 - i
  {
    seq(n + 1, i requires 0 <= i < n + 1 => if i == 0 then 0 else n + 1 - i)
  }

  lemma {:induction false} FileOfIsList(keys: seq<int>)
    ensures IsList(FileOf(keys), PathOf(|keys|))
  {
    var recs, path := FileOf(keys), PathOf(|keys|);
    forall i | 0 <= i < |path|
      ensures recs[path[i]].next == Link(path, i)
    {
    }
  }

  lemma {:induction false} KeysReversed(keys: seq<int>)
    requires IsList(FileOf(keys), PathOf(|keys|))
    ensures Reversed(keys, Keys(FileOf(keys), PathOf(|keys|)))
  {
    hide IsList;
  }

  ghost predicate Reversed(a: seq<int>, b: seq<int>) {
    |a| == |b| && forall i :: 0 <= i < |b| ==> b[i] == a[|a| - 1 - i]
  }

  lemma {:induction false} InitInv(cfg: Config, s: State)
    requires ConfigOk(cfg) && Init(s)
    ensures Inv(cfg, s)
  {
    assert cfg.keys[..0] == [];
    assert s.recs == FileOf([]);
  }

  /** After any schedule nobody has met a short record and no sorting error has been
      reported; whenever the semaphore is free, the file is an ascending list of exactly
      the keys stored so far. */
  lemma {:induction false} FreeFileIsSortedList(cfg: Config, s0: State, sched: seq<Actor>)
    requires ConfigOk(cfg) && Init(s0) && Legal(cfg, s0, sched)
    ensures var s := Exec(cfg, s0, sched);
            && !s.failed && !s.disorder
            && (s.sem > 0 ==>
                  && s.w.stored <= |cfg.keys| && IsList(s.recs, PathOf(s.w.stored))
                  && var ks := Keys(s.recs, PathOf(s.w.stored));
                     Sorted(ks) && |ks| == s.w.stored && multiset(ks) == multiset(cfg.keys[..s.w.stored]))
  {
    InitInv(cfg, s0);
    RunInv(cfg, s0, sched);
    var s := Exec(cfg, s0, sched);
    if s.sem > 0 {
      var keys := cfg.keys[..s.w.stored];
      FileOfIsList(keys);
      KeysReversed(keys);
      SameElements(keys, Keys(s.recs, PathOf(s.w.stored)));
    }
  }

  lemma {:induction false} SameElements(a: seq<int>, b: seq<int>)
    requires Reversed(a, b)
    ensures multiset(a) == multiset(b)
  {
    if a != [] {
      var n := |a| - 1;
      assert a == a[..n] + [a[n]] && b == [b[0]] + b[1..];
      SameElements(a[..n], b[1..]);
    }
  }

  /** No schedule goes on for ever, and one that cannot be continued has stored every key
      and made every walk. */
  lemma {:induction false} EveryMaximalRunFinishes(cfg: Config, s0: State, sched: seq<Actor>)
    requires ConfigOk(cfg) && Init(s0) && Legal(cfg, s0, sched)
    ensures |sched| <= 8 * |cfg.keys| + 8 + (|cfg.keys| + 5) * (cfg.walks + 1)
    ensures var s := Exec(cfg, s0, sched);
            (forall a :: !Enabled(cfg, s, a)) ==> WriterDone(cfg, s) && ReaderDone(cfg, s) && s.sem == 1
  {
    InitInv(cfg, s0);
    RunInv(cfg, s0, sched);
    var s := Exec(cfg, s0, sched);
    MeasurePositive(cfg, s);
    assert (|cfg.keys| + 5) * (cfg.walks + 1) == (|cfg.keys| + 5) * cfg.walks + |cfg.keys| + 5;
    if forall a :: !Enabled(cfg, s, a) {
      assert !Enabled(cfg, s, WriterProc) && !Enabled(cfg, s, ReaderProc);
    }
  }
}

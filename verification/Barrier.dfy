/** Synchronising a parent with its children over two pipes: each child writes a byte to
    one pipe and waits until the other is readable; the parent reads one byte per child
    and then writes a single byte, which nobody reads. */
module Barrier {
  datatype ChildPc = Announcing | Waiting | Returned

  datatype ParentPc = Reading | Writing | Finished

  /** Bytes in the pipe to the parent, bytes in the pipe to the children, bytes read so far. */
  datatype State = State(children: seq<ChildPc>, parent: ParentPc, toParent: nat, toChildren: nat, read: nat)

  datatype Actor = Parent | Child(k: nat)

  predicate Init(n: nat, s: State) {
    s == State(seq(n, _ => Announcing), Reading, 0, 0, 0)
  }

  /** A write waits while the pipe is full (`cap` bytes), a read while it is empty, and
      `select` until there is something to read. */
  predicate Enabled(cap: nat, s: State, a: Actor) {
    match a
    case Parent => (match s.parent
                    case Reading => s.read == |s.children| || s.toParent > 0
                    case Writing => s.toChildren < cap
                    case Finished => false)
    case Child(k) => k < |s.children| &&
                     (match s.children[k]
                      case Announcing => s.toParent < cap
                      case Waiting => s.toChildren > 0
                      case Returned => false)
  }

  function Next(cap: nat, s: State, a: Actor): (t: State)
    requires Enabled(cap, s, a)
    ensures |t.children| == |s.children|
  {
    match a
    case Parent => (match s.parent
                    case Reading =>
                      if s.read < |s.children| then s.(toParent := s.toParent - 1, read := s.read + 1)
                      else s.(parent := Writing)
                    case Writing => s.(toChildren := s.toChildren + 1, parent := Finished)
                    case Finished => s)
    case Child(k) => (match s.children[k]
                      case Announcing => s.(toParent := s.toParent + 1, children := s.children[k := Waiting])
                      case Waiting => s.(children := s.children[k := Returned])
                      case Returned => s)
  }

  predicate Legal(cap: nat, s: State, sched: seq<Actor>)
    decreases |sched|
  {
    sched == [] || (Enabled(cap, s, sched[0]) && Legal(cap, Next(cap, s, sched[0]), sched[1..]))
  }

  function Exec(cap: nat, s: State, sched: seq<Actor>): State
    requires Legal(cap, s, sched)
    decreases |sched|
  {
    if sched == [] then s else Exec(cap, Next(cap, s, sched[0]), sched[1..])
  }

  /** How many children have written their byte. */
  function Announced(cs: seq<ChildPc>): (m: nat)
    ensures m <= |cs|
  {
    if cs == [] then 0 else (if cs[0] == Announcing then 0 else 1) + Announced(cs[1..])
  }

  lemma {:induction false} AnnouncedUpdate(cs: seq<ChildPc>, k: nat, c: ChildPc)
    requires k < |cs|
    ensures Announced(cs[k := c]) + (if cs[k] == Announcing then 0 else 1) == Announced(cs) + (if c == Announcing then 0 else 1)
  {
    if k == 0 {
      assert cs[k := c][1..] == cs[1..];
    } else {
      assert cs[k := c][1..] == cs[1..][k - 1 := c];
      AnnouncedUpdate(cs[1..], k - 1, c);
    }
  }

  lemma {:induction false} AllAnnounced(cs: seq<ChildPc>)
    ensures Announced(cs) == |cs| <==> forall k :: 0 <= k < |cs| ==> cs[k] != Announcing
  {
    if cs != [] {
      AllAnnounced(cs[1..]);
      assert (forall k :: 0 <= k < |cs| ==> cs[k] != Announcing) <==>
             cs[0] != Announcing && forall k :: 0 <= k < |cs[1..]| ==> cs[1..][k] != Announcing;
    }
  }

  /** Bytes are conserved, and the byte for the children is written only after every
      child's byte has been read. */
  ghost predicate Inv(s: State) {
    && Announced(s.children) == s.toParent + s.read && s.read <= |s.children|
    && (s.parent != Reading ==> s.read == |s.children|)
    && s.toChildren == (if s.parent == Finished then 1 else 0)
    && (forall k :: 0 <= k < |s.children| && s.children[k] == Returned ==> s.parent == Finished)
  }

  lemma {:induction false} InitInv(n: nat, s: State)
    requires Init(n, s)
    ensures Inv(s)
  {
    NoneAnnounced(s.children);
  }

  lemma {:induction false} NoneAnnounced(cs: seq<ChildPc>)
    requires forall k :: 0 <= k < |cs| ==> cs[k] == Announcing
    ensures Announced(cs) == 0
  {
    if cs != [] {
      NoneAnnounced(cs[1..]);
    }
  }

  lemma {:induction false} StepInv(cap: nat, s: State, a: Actor)
    requires Inv(s) && Enabled(cap, s, a)
    ensures Inv(Next(cap, s, a))
  {
    if a.Child? {
      AnnouncedUpdate(s.children, a.k, Next(cap, s, a).children[a.k]);
    }
  }

  // ---------- the length of a run ----------

  function Rest(c: ChildPc): nat {
    match c case Announcing => 2 case Waiting => 1 case Returned => 0
  }

  function RestAll(cs: seq<ChildPc>): nat {
    if cs == [] then 0 else Rest(cs[0]) + RestAll(cs[1..])
  }

  lemma {:induction false} RestUpdate(cs: seq<ChildPc>, k: nat, c: ChildPc)
    requires k < |cs|
    ensures RestAll(cs[k := c]) + Rest(cs[k]) == RestAll(cs) + Rest(c)
  {
    if k == 0 {
      assert cs[k := c][1..] == cs[1..];
    } else {
      assert cs[k := c][1..] == cs[1..][k - 1 := c];
      RestUpdate(cs[1..], k - 1, c);
    }
  }

  function Measure(s: State): int {
    RestAll(s.children) + (match s.parent case Reading => |s.children| - s.read + 2 case Writing => 1 case Finished => 0)
  }

  lemma {:induction false} RunInv(cap: nat, s: State, sched: seq<Actor>)
    requires Inv(s) && Legal(cap, s, sched)
    ensures Inv(Exec(cap, s, sched)) && |Exec(cap, s, sched).children| == |s.children|
    ensures Measure(Exec(cap, s, sched)) == Measure(s) - |sched|
    decreases |sched|
  {
    if sched != [] {
      var a := sched[0];
      StepInv(cap, s, a);
      if a.Child? {
        RestUpdate(s.children, a.k, Next(cap, s, a).children[a.k]);
      }
      RunInv(cap, Next(cap, s, a), sched[1..]);
    }
  }

  lemma {:induction false} InitialRest(cs: seq<ChildPc>)
    requires forall k :: 0 <= k < |cs| ==> cs[k] == Announcing
    ensures RestAll(cs) == 2 * |cs|
  {
    if cs != [] {
      InitialRest(cs[1..]);
    }
  }

  lemma {:induction false} NoRest(cs: seq<ChildPc>)
    requires forall k :: 0 <= k < |cs| ==> cs[k] == Returned
    ensures RestAll(cs) == 0
  {
    if cs != [] {
      NoRest(cs[1..]);
    }
  }

  /** A child that has returned proves that all children have announced themselves, and
      that every child still waiting can return. */
  lemma {:induction false} NobodyReturnsEarly(n: nat, cap: nat, s0: State, sched: seq<Actor>, k: nat)
    requires Init(n, s0) && Legal(cap, s0, sched) && k < n
    requires k < |Exec(cap, s0, sched).children| && Exec(cap, s0, sched).children[k] == Returned
    ensures var s := Exec(cap, s0, sched);
            forall j :: 0 <= j < |s.children| ==>
              s.children[j] == Returned || (s.children[j] == Waiting && Enabled(cap, s, Child(j)))
  {
    InitInv(n, s0);
    RunInv(cap, s0, sched);
    var s := Exec(cap, s0, sched);
    AllAnnounced(s.children);
  }

  /** Every schedule that cannot be continued has taken 3n + 2 steps and let the parent and
      every child return. */
  lemma {:induction false} EveryMaximalRunReturns(n: nat, cap: nat, s0: State, sched: seq<Actor>)
    requires Init(n, s0) && cap > 0 && Legal(cap, s0, sched)
    ensures |sched| <= 3 * n + 2
    ensures var s := Exec(cap, s0, sched);
            (forall a :: !Enabled(cap, s, a)) ==>
              && |sched| == 3 * n + 2 && s.parent == Finished
              && forall k :: 0 <= k < |s.children| ==> s.children[k] == Returned
  {
    InitInv(n, s0);
    InitialRest(s0.children);
    RunInv(cap, s0, sched);
    var s := Exec(cap, s0, sched);
    if forall a :: !Enabled(cap, s, a) {
      assert !Enabled(cap, s, Parent);
      AllAnnounced(s.children);
      forall k: nat | k < |s.children|
        ensures s.children[k] == Announcing ==> s.toParent >= cap
        ensures s.children[k] == Waiting ==> s.toChildren == 0
      {
        assert !Enabled(cap, s, Child(k));
      }
      NoRest(s.children);
    }
  }
}

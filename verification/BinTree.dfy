/** Binary trees as values: what the recursive traversals print, and what the
    explicit-stack traversals need.  `N` is the type of node addresses. */
module Trees {
  datatype Tree<N> = Leaf | Branch(node: N, data: int, left: Tree<N>, right: Tree<N>)

  function Nodes<N>(t: Tree<N>): set<N> {
    match t
    case Leaf => {}
    case Branch(n, _, l, r) => {n} + Nodes(l) + Nodes(r)
  }

  /** No node occurs twice. */
  ghost predicate Unshared<N>(t: Tree<N>) {
    match t
    case Leaf => true
    case Branch(n, _, l, r) =>
      n !in Nodes(l) && n !in Nodes(r) && Nodes(l) !! Nodes(r) && Unshared(l) && Unshared(r)
  }

  function Size<N>(t: Tree<N>): nat {
    match t
    case Leaf => 0
    case Branch(_, _, l, r) => 1 + Size(l) + Size(r)
  }

  function Max(a: int, b: int): int { if a >= b then a else b }

  function Height<N>(t: Tree<N>): nat {
    match t
    case Leaf => 0
    case Branch(_, _, l, r) => 1 + Max(Height(l), Height(r))
  }

  /** The largest number of nodes on a path from the root that are left towards the left
      (the last node of the path counts). */
  function LeftHeight<N>(t: Tree<N>): nat {
    match t
    case Leaf => 0
    case Branch(_, _, l, r) => Max(1 + LeftHeight(l), LeftHeight(r))
  }

  lemma {:induction false} LeftHeightAtMostHeight<N>(t: Tree<N>)
    ensures LeftHeight(t) <= Height(t)
  {
    if t.Branch? {
      LeftHeightAtMostHeight(t.left);
      LeftHeightAtMostHeight(t.right);
    }
  }

  // ---------- the recursive traversals ----------

  function PreOrder<N>(t: Tree<N>): seq<int> {
    match t
    case Leaf => []
    case Branch(_, x, l, r) => [x] + PreOrder(l) + PreOrder(r)
  }

  function InOrder<N>(t: Tree<N>): seq<int> {
    match t
    case Leaf => []
    case Branch(_, x, l, r) => InOrder(l) + [x] + InOrder(r)
  }

  function PostOrder<N>(t: Tree<N>): seq<int> {
    match t
    case Leaf => []
    case Branch(_, x, l, r) => PostOrder(l) + PostOrder(r) + [x]
  }

  // ---------- what an explicit stack still owes: pre-order and in-order ----------

  ghost predicate Branches<N>(ts: seq<Tree<N>>) {
    forall i :: 0 <= i < |ts| ==> ts[i].Branch?
  }

  /** Output owed for the stacked nodes, the top (last) first. */
  ghost function PreRest<N>(ts: seq<Tree<N>>): seq<int>
    requires Branches(ts)
  {
    if ts == [] then [] else PreOrder(ts[|ts| - 1].right) + PreRest(ts[..|ts| - 1])
  }

  ghost function InRest<N>(ts: seq<Tree<N>>): seq<int>
    requires Branches(ts)
  {
    if ts == [] then []
    else [ts[|ts| - 1].data] + InOrder(ts[|ts| - 1].right) + InRest(ts[..|ts| - 1])
  }

  /** Steps left: every push and every pop takes one. */
  ghost function Work<N>(ts: seq<Tree<N>>): nat
    requires Branches(ts)
  {
    if ts == [] then 0 else 2 * Size(ts[|ts| - 1].right) + 1 + Work(ts[..|ts| - 1])
  }

  /** The deepest the stack will get once the stacked nodes are popped: a node popped
      from place `i` leaves `i` nodes below its right subtree. */
  ghost function Reach<N>(ts: seq<Tree<N>>): nat
    requires Branches(ts)
  {
    if ts == [] then 0 else Max(|ts| - 1 + LeftHeight(ts[|ts| - 1].right), Reach(ts[..|ts| - 1]))
  }

  lemma {:induction false} PushPre<N>(ts: seq<Tree<N>>, t: Tree<N>)
    requires Branches(ts) && t.Branch?
    ensures Branches(ts + [t])
    ensures PreOrder(t) + PreRest(ts) == [t.data] + (PreOrder(t.left) + PreRest(ts + [t]))
  {
    assert (ts + [t])[..|ts|] == ts;
    assert PreRest(ts + [t]) == PreOrder(t.right) + PreRest(ts);
  }

  lemma {:induction false} PushIn<N>(ts: seq<Tree<N>>, t: Tree<N>)
    requires Branches(ts) && t.Branch?
    ensures Branches(ts + [t])
    ensures InOrder(t) + InRest(ts) == InOrder(t.left) + InRest(ts + [t])
  {
    assert (ts + [t])[..|ts|] == ts;
    assert InRest(ts + [t]) == [t.data] + InOrder(t.right) + InRest(ts);
  }

  lemma {:induction false} PushWork<N>(ts: seq<Tree<N>>, t: Tree<N>)
    requires Branches(ts) && t.Branch?
    ensures Branches(ts + [t])
    ensures Work(ts + [t]) + 2 * Size(t.left) + 1 == Work(ts) + 2 * Size(t)
  {
    assert (ts + [t])[..|ts|] == ts;
    assert Work(ts + [t]) == 2 * Size(t.right) + 1 + Work(ts);
  }

  lemma {:induction false} PushReach<N>(ts: seq<Tree<N>>, t: Tree<N>)
    requires Branches(ts) && t.Branch?
    ensures Branches(ts + [t])
    ensures Max(|ts| + LeftHeight(t), Reach(ts)) == Max(|ts| + 1 + LeftHeight(t.left), Reach(ts + [t]))
  {
    assert (ts + [t])[..|ts|] == ts;
  }

  // ---------- what the post-order stack still owes ----------

  /** A stacked node, and whether its right subtree has been entered. */
  datatype Frame<N> = Frame(tree: Tree<N>, entered: bool)

  ghost predicate Frames<N>(fs: seq<Frame<N>>) {
    forall i :: 0 <= i < |fs| ==> fs[i].tree.Branch?
  }

  function Child<N>(f: Frame<N>): Tree<N>
    requires f.tree.Branch?
  {
    if f.entered then f.tree.right else f.tree.left
  }

  ghost function PostRest<N>(fs: seq<Frame<N>>): seq<int>
    requires Frames(fs)
  {
    if fs == [] then []
    else
      var f := fs[|fs| - 1];
      (if f.entered then [] else PostOrder(f.tree.right)) + [f.tree.data] + PostRest(fs[..|fs| - 1])
  }

  ghost function PostWork<N>(fs: seq<Frame<N>>): nat
    requires Frames(fs)
  {
    if fs == [] then 0
    else
      var f := fs[|fs| - 1];
      (if f.entered then 1 else 3 * Size(f.tree.right) + 2) + PostWork(fs[..|fs| - 1])
  }

  /** The deepest the stack will get because of right subtrees not yet entered. */
  ghost function PostReach<N>(fs: seq<Frame<N>>): nat
    requires Frames(fs)
  {
    if fs == [] then 0
    else
      var f := fs[|fs| - 1];
      Max(if f.entered then 0 else |fs| + Height(f.tree.right), PostReach(fs[..|fs| - 1]))
  }

  /** The nodes not yet printed: the stacked ones and the right subtrees not yet entered. */
  ghost function Pending<N>(fs: seq<Frame<N>>): set<N>
    requires Frames(fs)
  {
    if fs == [] then {}
    else
      var f := fs[|fs| - 1];
      {f.tree.node} + (if f.entered then {} else Nodes(f.tree.right)) + Pending(fs[..|fs| - 1])
  }

  /** Each frame is the child its predecessor is working on, and pending nodes are
      all different. */
  ghost predicate Linked<N>(fs: seq<Frame<N>>)
    requires Frames(fs)
  {
    fs == [] ||
    var f, below := fs[|fs| - 1], fs[..|fs| - 1];
    && Linked(below)
    && (below != [] ==> f.tree == Child(below[|below| - 1]))
    && Unshared(f.tree) && Nodes(f.tree) !! Pending(below)
  }

  ghost predicate CurrentOk<N>(fs: seq<Frame<N>>, cur: Tree<N>)
    requires Frames(fs)
  {
    Linked(fs) && Unshared(cur) && Nodes(cur) !! Pending(fs) && (fs != [] ==> cur == Child(fs[|fs| - 1]))
  }

  lemma {:induction false} PushPost<N>(fs: seq<Frame<N>>, t: Tree<N>)
    requires Frames(fs) && t.Branch?
    ensures var fs' := fs + [Frame(t, false)];
            && Frames(fs')
            && PostOrder(t) + PostRest(fs) == PostOrder(t.left) + PostRest(fs')
  {
    var fs' := fs + [Frame(t, false)];
    assert fs'[..|fs|] == fs;
    assert PostRest(fs') == PostOrder(t.right) + [t.data] + PostRest(fs);
  }

  lemma {:induction false} PushPostWork<N>(fs: seq<Frame<N>>, t: Tree<N>)
    requires Frames(fs) && t.Branch?
    ensures var fs' := fs + [Frame(t, false)];
            Frames(fs') && PostWork(fs') + 3 * Size(t.left) + 1 == PostWork(fs) + 3 * Size(t)
  {
    var fs' := fs + [Frame(t, false)];
    assert fs'[..|fs|] == fs;
    assert PostWork(fs') == 3 * Size(t.right) + 2 + PostWork(fs);
  }

  lemma {:induction false} PushPostReach<N>(fs: seq<Frame<N>>, t: Tree<N>)
    requires Frames(fs) && t.Branch?
    ensures var fs' := fs + [Frame(t, false)];
            Frames(fs') && Max(|fs| + Height(t), PostReach(fs)) == Max(|fs| + 1 + Height(t.left), PostReach(fs'))
  {
    assert (fs + [Frame(t, false)])[..|fs|] == fs;
  }

  lemma {:induction false} PushPostLinked<N>(fs: seq<Frame<N>>, t: Tree<N>)
    requires Frames(fs) && t.Branch? && CurrentOk(fs, t)
    ensures var fs' := fs + [Frame(t, false)];
            Frames(fs') && CurrentOk(fs', t.left) && Pending(fs') + Nodes(t.left) == Pending(fs) + Nodes(t)
  {
    var fs' := fs + [Frame(t, false)];
    assert fs'[..|fs|] == fs;
  }

  /** Entering the top frame's right subtree. */
  lemma {:induction false} EnterRight<N>(fs: seq<Frame<N>>)
    requires fs != [] && Frames(fs) && Linked(fs)
    requires !fs[|fs| - 1].entered && fs[|fs| - 1].tree.right.Branch?
    ensures var n, f := |fs| - 1, fs[|fs| - 1];
            var fs' := fs[n := f.(entered := true)];
            && Frames(fs') && CurrentOk(fs', f.tree.right)
            && Pending(fs') + Nodes(f.tree.right) == Pending(fs)
  {
    var n, f := |fs| - 1, fs[|fs| - 1];
    var fs' := fs[n := f.(entered := true)];
    assert fs'[..n] == fs[..n];
  }

  lemma {:induction false} EnterRightOwes<N>(fs: seq<Frame<N>>)
    requires fs != [] && Frames(fs) && !fs[|fs| - 1].entered
    ensures var n, f := |fs| - 1, fs[|fs| - 1];
            var fs' := fs[n := f.(entered := true)];
            && Frames(fs') && PostOrder(f.tree.right) + PostRest(fs') == PostRest(fs)
            && PostWork(fs') + 3 * Size(f.tree.right) + 1 == PostWork(fs)
            && PostReach(fs) == Max(|fs| + Height(f.tree.right), PostReach(fs'))
  {
    var n, f := |fs| - 1, fs[|fs| - 1];
    var fs' := fs[n := f.(entered := true)];
    assert fs'[..n] == fs[..n];
  }

  /** Popping the top frame once nothing is left to do to its right. */
  lemma {:induction false} PopPost<N>(fs: seq<Frame<N>>)
    requires fs != [] && Frames(fs) && Linked(fs)
    requires fs[|fs| - 1].entered || fs[|fs| - 1].tree.right.Leaf?
    ensures var f, below := fs[|fs| - 1], fs[..|fs| - 1];
            && Frames(below) && Linked(below)
            && PostRest(fs) == [f.tree.data] + PostRest(below)
            && PostWork(below) < PostWork(fs)
            && PostReach(below) <= PostReach(fs) <= Max(|fs|, PostReach(below))
            && f.tree.node !in Pending(below)
            && (below != [] ==> f.tree == Child(below[|below| - 1]))
  {
  }
}

/** Search trees: insertion, and what an in-order walk of them gives. */
module SearchTrees {
  import opened Trees

  function Elements<N>(t: Tree<N>): set<int> {
    match t
    case Leaf => {}
    case Branch(_, x, l, r) => {x} + Elements(l) + Elements(r)
  }

  ghost predicate Ordered<N>(t: Tree<N>) {
    match t
    case Leaf => true
    case Branch(_, x, l, r) =>
      && Ordered(l) && Ordered(r)
      && (forall y :: y in Elements(l) ==> y < x) && (forall y :: y in Elements(r) ==> y > x)
  }

  function Insert<N>(t: Tree<N>, x: int, n: N): Tree<N> {
    match t
    case Leaf => Branch(n, x, Leaf, Leaf)
    case Branch(m, y, l, r) =>
      if x < y then Branch(m, y, Insert(l, x, n), r)
      else if x > y then Branch(m, y, l, Insert(r, x, n))
      else t
  }

  lemma {:induction false} InsertKeepsOrder<N>(t: Tree<N>, x: int, n: N)
    ensures Elements(Insert(t, x, n)) == Elements(t) + {x}
    ensures Ordered(t) ==> Ordered(Insert(t, x, n))
  {
    if t.Branch? {
      InsertKeepsOrder(t.left, x, n);
      InsertKeepsOrder(t.right, x, n);
    }
  }

  lemma {:induction false} InsertKeepsUnshared<N>(t: Tree<N>, x: int, n: N)
    requires Unshared(t) && n !in Nodes(t)
    ensures Unshared(Insert(t, x, n)) && Nodes(Insert(t, x, n)) <= Nodes(t) + {n}
  {
    if t.Branch? {
      InsertKeepsUnshared(t.left, x, n);
      InsertKeepsUnshared(t.right, x, n);
    }
  }

  /** The same tree without the addresses. */
  function Erase<N>(t: Tree<N>): Tree<()> {
    match t
    case Leaf => Leaf
    case Branch(_, x, l, r) => Branch((), x, Erase(l), Erase(r))
  }

  lemma {:induction false} EraseInsert<N>(t: Tree<N>, x: int, n: N)
    ensures Erase(Insert(t, x, n)) == Insert(Erase(t), x, ())
  {
    if t.Branch? {
      EraseInsert(t.left, x, n);
      EraseInsert(t.right, x, n);
    }
  }

  lemma {:induction false} EraseSame<N>(t: Tree<N>)
    ensures InOrder(Erase(t)) == InOrder(t) && LeftHeight(Erase(t)) == LeftHeight(t)
  {
    if t.Branch? {
      EraseSame(t.left);
      EraseSame(t.right);
    }
  }

  /** The tree built from `t` by inserting all of `xs`, first to last. */
  function InsertAll(t: Tree<()>, xs: seq<int>): Tree<()> {
    if xs == [] then t else Insert(InsertAll(t, xs[..|xs| - 1]), xs[|xs| - 1], ())
  }

  ghost predicate Ascending(s: seq<int>) {
    forall i, j :: 0 <= i < j < |s| ==> s[i] < s[j]
  }

  lemma {:induction false} InOrderAscends<N>(t: Tree<N>)
    requires Ordered(t)
    ensures Ascending(InOrder(t))
    ensures forall x :: x in InOrder(t) <==> x in Elements(t)
  {
    if t.Branch? {
      InOrderAscends(t.left);
      InOrderAscends(t.right);
      var l, r := InOrder(t.left), InOrder(t.right);
      assert forall i :: 0 <= i < |l| ==> l[i] in l;
      assert forall i :: 0 <= i < |r| ==> r[i] in r;
    }
  }

  lemma {:induction false} InsertAllOrdered(t: Tree<()>, xs: seq<int>)
    requires Ordered(t)
    ensures Ordered(InsertAll(t, xs))
    ensures forall x :: x in Elements(InsertAll(t, xs)) <==> x in Elements(t) || x in xs
  {
    if xs != [] {
      var front, last := xs[..|xs| - 1], xs[|xs| - 1];
      InsertAllOrdered(t, front);
      InsertKeepsOrder(InsertAll(t, front), last, ());
      assert xs == front + [last];
    }
  }

  // ---------- traversals that rebuild the tree ----------

  function Reversed(s: seq<int>): seq<int> {
    if s == [] then [] else Reversed(s[1..]) + [s[0]]
  }

  lemma {:induction false} ReversedConcat(a: seq<int>, b: seq<int>)
    ensures Reversed(a + b) == Reversed(b) + Reversed(a)
  {
    if a == [] {
      assert a + b == b;
    } else {
      assert (a + b)[1..] == a[1..] + b;
      ReversedConcat(a[1..], b);
    }
  }

  lemma {:induction false} ReversedElements(s: seq<int>)
    ensures forall x :: x in Reversed(s) <==> x in s
  {
    if s != [] {
      ReversedElements(s[1..]);
      assert forall x :: x in s <==> x == s[0] || x in s[1..];
    }
  }

  lemma {:induction false} InsertAllConcat(t: Tree<()>, a: seq<int>, b: seq<int>)
    ensures InsertAll(t, a + b) == InsertAll(InsertAll(t, a), b)
  {
    if b == [] {
      assert a + b == a;
    } else {
      var n := |b| - 1;
      assert (a + b)[..|a + b| - 1] == a + b[..n];
      InsertAllConcat(t, a, b[..n]);
    }
  }

  /** Values on one side of the root go into that subtree. */
  lemma {:induction false} InsertAllSide(x: int, l: Tree<()>, r: Tree<()>, ys: seq<int>)
    ensures (forall y :: y in ys ==> y < x) ==> InsertAll(Branch((), x, l, r), ys) == Branch((), x, InsertAll(l, ys), r)
    ensures (forall y :: y in ys ==> y > x) ==> InsertAll(Branch((), x, l, r), ys) == Branch((), x, l, InsertAll(r, ys))
  {
    if ys != [] {
      var front, y := ys[..|ys| - 1], ys[|ys| - 1];
      InsertAllSide(x, l, r, front);
      assert y in ys && forall z :: z in front ==> z in ys;
    }
  }

  lemma {:induction false} OrderElements<N>(t: Tree<N>)
    ensures forall x :: x in PreOrder(t) <==> x in Elements(t)
    ensures forall x :: x in PostOrder(t) <==> x in Elements(t)
  {
    if t.Branch? {
      OrderElements(t.left);
      OrderElements(t.right);
    }
  }

  /** A root inserted first, then values below it and values above it, in either order. */
  lemma {:induction false} InsertRootFirst(x: int, low: seq<int>, high: seq<int>)
    requires (forall y :: y in low ==> y < x) && (forall y :: y in high ==> y > x)
    ensures InsertAll(Leaf, [x] + low + high) == Branch((), x, InsertAll(Leaf, low), InsertAll(Leaf, high))
    ensures InsertAll(Leaf, [x] + high + low) == Branch((), x, InsertAll(Leaf, low), InsertAll(Leaf, high))
  {
    assert InsertAll(Leaf, [x]) == Branch((), x, Leaf, Leaf);
    InsertAllConcat(Leaf, [x], low);
    InsertAllConcat(Leaf, [x], high);
    InsertAllConcat(Leaf, [x] + low, high);
    InsertAllConcat(Leaf, [x] + high, low);
    InsertAllSide(x, Leaf, Leaf, low);
    InsertAllSide(x, Leaf, Leaf, high);
    InsertAllSide(x, InsertAll(Leaf, low), Leaf, high);
    InsertAllSide(x, Leaf, InsertAll(Leaf, high), low);
  }

  /** What pre-order prints of a search tree, inserted again, builds the same tree. */
  lemma {:induction false} PreOrderRebuilds<N>(t: Tree<N>)
    requires Ordered(t)
    ensures InsertAll(Leaf, PreOrder(t)) == Erase(t)
  {
    if t.Branch? {
      hide InsertAll;
      PreOrderRebuilds(t.left);
      PreOrderRebuilds(t.right);
      OrderElements(t.left);
      OrderElements(t.right);
      InsertRootFirst(t.data, PreOrder(t.left), PreOrder(t.right));
    }
  }

  /** So does what post-order prints, read backwards. */
  lemma {:induction false} PostOrderRebuilds<N>(t: Tree<N>)
    requires Ordered(t)
    ensures InsertAll(Leaf, Reversed(PostOrder(t))) == Erase(t)
  {
    if t.Branch? {
      hide InsertAll, Reversed;
      PostOrderRebuilds(t.left);
      PostOrderRebuilds(t.right);
      BackwardsSides(t.data, PostOrder(t.left), PostOrder(t.right));
      OrderElements(t.left);
      OrderElements(t.right);
      ReversedElements(PostOrder(t.left));
      ReversedElements(PostOrder(t.right));
      InsertRootFirst(t.data, Reversed(PostOrder(t.left)), Reversed(PostOrder(t.right)));
    }
  }

  lemma {:induction false} BackwardsSides(x: int, low: seq<int>, high: seq<int>)
    ensures Reversed(low + high + [x]) == [x] + Reversed(high) + Reversed(low)
  {
    ReversedConcat(low + high, [x]);
    ReversedConcat(low, high);
  }

  /** A list in strictly ascending order is determined by its elements. */
  lemma {:induction false} AscendingUnique(a: seq<int>, b: seq<int>)
    requires Ascending(a) && Ascending(b) && forall x :: x in a <==> x in b
    ensures a == b
  {
    if b != [] {
      assert b[0] in b;
    }
    if a != [] {
      assert a[0] in a;
      assert a[0] in b && a[0] in a;
      assert b[0] in a;
      var i :| 0 <= i < |a| && a[i] == b[0];
      var j :| 0 <= j < |b| && b[j] == a[0];
      assert a[0] == b[0];
      forall x
        ensures x in a[1..] <==> x in b[1..]
      {
        assert x in a <==> x == a[0] || x in a[1..];
        assert x in b <==> x == b[0] || x in b[1..];
        assert a[0] !in a[1..] && b[0] !in b[1..];
      }
      AscendingUnique(a[1..], b[1..]);
    }
  }

  /** In-order over the tree built from `xs` gives its distinct values, ascending. */
  lemma {:induction false} BuildSorts(xs: seq<int>)
    ensures Ascending(InOrder(InsertAll(Leaf, xs)))
    ensures forall x :: x in InOrder(InsertAll(Leaf, xs)) <==> x in xs
  {
    InsertAllOrdered(Leaf, xs);
    InOrderAscends(InsertAll(Leaf, xs));
  }
}

module BinTree {
  import opened Trees
  import opened SearchTrees

  class Node {
    var data: int
    var leftchild: Node?
    var rightchild: Node?

    constructor (elem: int)
      ensures data == elem && leftchild == null && rightchild == null
    {
      data, leftchild, rightchild := elem, null, null;
    }
  }

  function Root(t: Tree<Node>): Node? {
    if t.Leaf? then null else t.node
  }

  /** The nodes in memory are linked as `t` says. */
  ghost predicate Shape(t: Tree<Node>)
    reads Nodes(t)
  {
    match t
    case Leaf => true
    case Branch(n, x, l, r) =>
      n.data == x && n.leftchild == Root(l) && n.rightchild == Root(r) && Shape(l) && Shape(r)
  }

  // ---------- pre-order and in-order ----------

  /** The pure part of the loops' state: the trees whose roots are stacked, the tree at
      `p`, the most slots used so far, and the output. */
  datatype WalkState = WalkState(ts: seq<Tree<Node>>, cur: Tree<Node>, peak: int, out: seq<int>)

  /** The output so far and what is still owed make up the traversal (pre-order or
      in-order); the peak so far and what is still to come make up the left height. */
  ghost predicate WalkOk(s: WalkState, t: Tree<Node>, pre: bool) {
    && Branches(s.ts)
    && (if pre then s.out + (PreOrder(s.cur) + PreRest(s.ts)) == PreOrder(t)
        else s.out + (InOrder(s.cur) + InRest(s.ts)) == InOrder(t))
    && s.peak >= |s.ts| && Max(s.peak, Max(|s.ts| + LeftHeight(s.cur), Reach(s.ts))) == LeftHeight(t)
  }

  ghost function WalkMeasure(s: WalkState): nat
    requires Branches(s.ts)
  {
    Work(s.ts) + 2 * Size(s.cur)
  }

  function WentLeft(s: WalkState, pre: bool): WalkState
    requires s.cur.Branch?
  {
    WalkState(s.ts + [s.cur], s.cur.left, Max(s.peak, |s.ts| + 1), if pre then s.out + [s.cur.data] else s.out)
  }

  function WentRight(s: WalkState, pre: bool): WalkState
    requires s.ts != [] && s.ts[|s.ts| - 1].Branch?
  {
    var top := s.ts[|s.ts| - 1];
    WalkState(s.ts[..|s.ts| - 1], top.right, s.peak, if pre then s.out else s.out + [top.data])
  }

  lemma {:induction false} LeftOk(s: WalkState, t: Tree<Node>, pre: bool)
    requires WalkOk(s, t, pre) && s.cur.Branch?
    ensures WalkOk(WentLeft(s, pre), t, pre) && |s.ts| + 1 <= LeftHeight(t)
    ensures WalkMeasure(WentLeft(s, pre)) < WalkMeasure(s)
  {
    hide Reach, Work, PreRest, InRest, PreOrder, InOrder;
    PushPre(s.ts, s.cur);
    PushIn(s.ts, s.cur);
    PushWork(s.ts, s.cur);
    PushReach(s.ts, s.cur);
    if pre {
      assert WentLeft(s, pre).out + (PreOrder(s.cur.left) + PreRest(s.ts + [s.cur])) == s.out + (PreOrder(s.cur) + PreRest(s.ts));
    }
  }

  lemma {:induction false} RightOk(s: WalkState, t: Tree<Node>, pre: bool)
    requires WalkOk(s, t, pre) && s.cur.Leaf? && s.ts != []
    ensures WalkOk(WentRight(s, pre), t, pre) && WalkMeasure(WentRight(s, pre)) < WalkMeasure(s)
  {
    var top, below := s.ts[|s.ts| - 1], s.ts[..|s.ts| - 1];
    if pre {
      assert PreOrder<Node>(Leaf) + PreRest(s.ts) == PreOrder(top.right) + PreRest(below);
    } else {
      assert InOrder<Node>(Leaf) + InRest(s.ts) == [top.data] + (InOrder(top.right) + InRest(below));
      assert WentRight(s, pre).out + (InOrder(top.right) + InRest(below)) == s.out + (InOrder<Node>(Leaf) + InRest(s.ts));
    }
  }

  lemma {:induction false} WalkStart(root: Node?, t: Tree<Node>, stack: array<Node?>, pre: bool)
    requires Shape(t) && root == Root(t)
    ensures WalkOk(WalkState([], t, 0, []), t, pre) && Branches<Node>([])
    ensures Walking(stack, 0, root, WalkState([], t, 0, []), Nodes(t))
  {
  }

  lemma {:induction false} WalkDone(s: WalkState, t: Tree<Node>, pre: bool)
    requires WalkOk(s, t, pre) && s.ts == [] && s.cur.Leaf?
    ensures s.out == (if pre then PreOrder(t) else InOrder(t)) && s.peak == LeftHeight(t)
  {
  }

  /** `p` is at the root of `cur`, and the first `num` slots of the stack are the roots
      of `ts`; all of them are parts of the tree being walked. */
  ghost predicate Walking(stack: array<Node?>, num: int, p: Node?, s: WalkState, all: set<Node>)
    reads stack, all
  {
    && num == |s.ts| <= stack.Length && Branches(s.ts)
    && (forall i :: 0 <= i < |s.ts| ==> stack[i] == s.ts[i].node && Nodes(s.ts[i]) <= all && Shape(s.ts[i]))
    && p == Root(s.cur) && Nodes(s.cur) <= all && Shape(s.cur)
  }

  lemma {:induction false} WalkingFacts(stack: array<Node?>, num: int, p: Node?, s: WalkState, all: set<Node>)
    requires Walking(stack, num, p, s, all)
    ensures Branches(s.ts) && |s.ts| == num && p == Root(s.cur) && (p == null <==> s.cur.Leaf?)
  {
  }

  /** Pushing the current node and going left. */
  method PushNode(stack: array<Node?>, num: int, p: Node, ghost s: WalkState, ghost all: set<Node>, ghost pre: bool)
    requires Walking(stack, num, p, s, all) && num < stack.Length
    modifies stack
    ensures Walking(stack, num + 1, p.leftchild, WentLeft(s, pre), all)
    ensures s.cur.data == p.data && p.leftchild == Root(s.cur.left)
  {
    stack[num] := p;
    assert forall i :: 0 <= i < num ==> WentLeft(s, pre).ts[i] == s.ts[i];
  }

  /** Popping a node and going right. */
  lemma {:induction false} PopNode(stack: array<Node?>, num: int, s: WalkState, all: set<Node>, pre: bool)
    requires Walking(stack, num, null, s, all) && num > 0
    ensures var top := s.ts[num - 1];
            && num <= stack.Length && stack[num - 1] == top.node
            && top.node.data == top.data && top.node.rightchild == Root(top.right)
            && var s' := WentRight(s, pre);
               && Walking(stack, num - 1, top.node.rightchild, s', all) && Branches(s'.ts) && |s'.ts| == num - 1
               && Root(s'.cur) == top.node.rightchild && s'.peak == s.peak
               && s'.out == if pre then s.out else s.out + [top.data]
  {
    assert Shape(s.ts[num - 1]);
  }

  /** The inner loop of the two: stack the nodes down the left edge; `seen` are their
      values, which pre-order prints on the way. */
  method GoLeft(root: Node?, stack: array<Node?>, depth: int, high: nat, ghost s0: WalkState, ghost t: Tree<Node>, ghost pre: bool)
    returns (num: int, peak: nat, seen: seq<int>, ghost s: WalkState)
    requires Walking(stack, depth, root, s0, Nodes(t)) && WalkOk(s0, t, pre) && s0.peak == high
    requires LeftHeight(t) <= stack.Length
    modifies stack
    ensures Walking(stack, num, null, s, Nodes(t)) && WalkOk(s, t, pre) && s.cur.Leaf?
    ensures s.peak == peak && s.out == if pre then s0.out + seen else s0.out
    ensures WalkMeasure(s) <= WalkMeasure(s0) && (root != null || depth > 0 ==> num > 0)
  {
    hide Walking, WalkOk, WalkMeasure, Nodes, Shape, LeftHeight;
    var p := root;
    num, peak, seen, s := depth, high, [], s0;
    WalkingFacts(stack, num, p, s, Nodes(t));
    while p != null
      invariant Walking(stack, num, p, s, Nodes(t)) && WalkOk(s, t, pre) && Branches(s.ts)
      invariant s.peak == peak && s.out == (if pre then s0.out + seen else s0.out) && |s.ts| == num && p == Root(s.cur)
      invariant WalkMeasure(s) <= WalkMeasure(s0) && (root != null || depth > 0 ==> p != null || num > 0)
      decreases WalkMeasure(s)
    {
      LeftOk(s, t, pre);
      PushNode(stack, num, p, s, Nodes(t), pre);
      seen := seen + [p.data];
      num := num + 1;
      peak := Max(peak, num);
      p := p.leftchild;
      s := WentLeft(s, pre);
    }
  }

  /** Pre-order with an explicit stack.  `peak` is the largest number of slots in use:
      exactly LeftHeight, so that is what the stack has to provide. */
  method PreOrderNoRec(root: Node?, ghost t: Tree<Node>, stack: array<Node?>) returns (out: seq<int>, peak: nat)
    requires Shape(t) && root == Root(t) && LeftHeight(t) <= stack.Length
    modifies stack
    ensures out == PreOrder(t) && peak == LeftHeight(t)
  {
    hide *;
    var p, num := root, 0;
    out, peak := [], 0;
    ghost var s := WalkState([], t, 0, []);
    WalkStart(root, t, stack, true);
    while p != null || num > 0
      invariant Walking(stack, num, p, s, Nodes(t)) && WalkOk(s, t, true) && Branches(s.ts)
      invariant s.out == out && s.peak == peak && |s.ts| == num && p == Root(s.cur)
      decreases WalkMeasure(s)
    {
      var seen;
      num, peak, seen, s := GoLeft(p, stack, num, peak, s, t, true);
      out := out + seen;
      WalkingFacts(stack, num, null, s, Nodes(t));
      PopNode(stack, num, s, Nodes(t), true);
      RightOk(s, t, true);
      num := num - 1;
      p := stack[num];
      p := p.rightchild;
      s := WentRight(s, true);
    }
    WalkingFacts(stack, num, p, s, Nodes(t));
    WalkDone(s, t, true);
  }

  /** In-order with an explicit stack. */
  method InOrderNoRec(root: Node?, ghost t: Tree<Node>, stack: array<Node?>) returns (out: seq<int>, peak: nat)
    requires Shape(t) && root == Root(t) && LeftHeight(t) <= stack.Length
    modifies stack
    ensures out == InOrder(t) && peak == LeftHeight(t)
  {
    hide *;
    var p, num := root, 0;
    out, peak := [], 0;
    ghost var s := WalkState([], t, 0, []);
    WalkStart(root, t, stack, false);
    while p != null || num > 0
      invariant Walking(stack, num, p, s, Nodes(t)) && WalkOk(s, t, false) && Branches(s.ts)
      invariant s.out == out && s.peak == peak && |s.ts| == num && p == Root(s.cur)
      decreases WalkMeasure(s)
    {
      var unused;
      num, peak, unused, s := GoLeft(p, stack, num, peak, s, t, false);
      WalkingFacts(stack, num, null, s, Nodes(t));
      PopNode(stack, num, s, Nodes(t), false);
      RightOk(s, t, false);
      num := num - 1;
      p := stack[num];
      out := out + [p.data];
      p := p.rightchild;
      s := WentRight(s, false);
    }
    WalkingFacts(stack, num, p, s, Nodes(t));
    WalkDone(s, t, false);
  }

  // ---------- post-order ----------

  /** The pure part of the post-order loop's state. */
  datatype PostState = PostState(fs: seq<Frame<Node>>, cur: Tree<Node>, visited: Node?, peak: int, out: seq<int>)

  /** `have_visited` is never a node still to be printed, and it is the right child of the
      top node exactly when that subtree has just been finished. */
  ghost predicate VisitedOk(s: PostState)
    requires Frames(s.fs)
  {
    && (s.visited != null ==> s.visited !in Pending(s.fs) && s.visited !in Nodes(s.cur))
    && (s.cur.Leaf? && s.fs != [] && s.fs[|s.fs| - 1].entered ==>
          s.visited != null && s.visited == Root(s.fs[|s.fs| - 1].tree.right))
  }

  ghost predicate PostOk(s: PostState, t: Tree<Node>) {
    && Frames(s.fs) && Linked(s.fs) && VisitedOk(s)
    && (s.cur.Branch? ==> CurrentOk(s.fs, s.cur))
    && s.out + (PostOrder(s.cur) + PostRest(s.fs)) == PostOrder(t)
    && s.peak >= |s.fs| && Max(s.peak, Max(|s.fs| + Height(s.cur), PostReach(s.fs))) == Height(t)
  }

  ghost function PostMeasure(s: PostState): nat
    requires Frames(s.fs)
  {
    PostWork(s.fs) + 3 * Size(s.cur)
  }

  function Pushed(s: PostState): PostState
    requires s.cur.Branch?
  {
    PostState(s.fs + [Frame(s.cur, false)], s.cur.left, s.visited, Max(s.peak, |s.fs| + 1), s.out)
  }

  lemma {:induction false} PushOk(s: PostState, t: Tree<Node>)
    requires PostOk(s, t) && s.cur.Branch?
    ensures PostOk(Pushed(s), t) && PostMeasure(Pushed(s)) < PostMeasure(s) && |s.fs| + 1 <= Height(t)
  {
    hide PostRest, PostWork, PostReach, Pending;
    PushPost(s.fs, s.cur);
    PushPostWork(s.fs, s.cur);
    PushPostReach(s.fs, s.cur);
    PushPostLinked(s.fs, s.cur);
  }

  function Entered(s: PostState): PostState
    requires s.fs != [] && s.fs[|s.fs| - 1].tree.Branch?
  {
    var n, f := |s.fs| - 1, s.fs[|s.fs| - 1];
    s.(fs := s.fs[n := f.(entered := true)], cur := f.tree.right)
  }

  function Popped(s: PostState): PostState
    requires s.fs != [] && s.fs[|s.fs| - 1].tree.Branch?
  {
    var f := s.fs[|s.fs| - 1].tree;
    s.(fs := s.fs[..|s.fs| - 1], visited := f.node, out := s.out + [f.data])
  }

  lemma {:induction false} PopOk(s: PostState, t: Tree<Node>)
    requires PostOk(s, t) && s.cur.Leaf? && s.fs != []
    requires s.fs[|s.fs| - 1].entered || s.fs[|s.fs| - 1].tree.right.Leaf?
    ensures PostOk(Popped(s), t) && PostMeasure(Popped(s)) < PostMeasure(s)
  {
    hide PostRest, PostWork, PostReach, Pending, Linked;
    PopPost(s.fs);
    assert s.out + (PostOrder<Node>(Leaf) + PostRest(s.fs)) == Popped(s).out + (PostOrder<Node>(Leaf) + PostRest(Popped(s).fs));
  }

  lemma {:induction false} EnterOk(s: PostState, t: Tree<Node>)
    requires PostOk(s, t) && s.cur.Leaf? && s.fs != []
    requires !s.fs[|s.fs| - 1].entered && s.fs[|s.fs| - 1].tree.right.Branch?
    ensures PostOk(Entered(s), t) && PostMeasure(Entered(s)) < PostMeasure(s)
  {
    hide PostRest, PostWork, PostReach, Pending;
    EnterRight(s.fs);
    EnterRightOwes(s.fs);
  }

  /** The pointer test tells whether the top node's right subtree is finished. */
  lemma {:induction false} TestOk(s: PostState, t: Tree<Node>)
    requires PostOk(s, t) && s.cur.Leaf? && s.fs != []
    ensures var f := s.fs[|s.fs| - 1];
            f.tree.right.Leaf? || s.visited == Root(f.tree.right) <==> f.entered || f.tree.right.Leaf?
  {
    var f := s.fs[|s.fs| - 1];
    assert f.tree.right.Branch? ==> Root(f.tree.right) in Nodes(f.tree.right);
  }

  /** `p` is at the root of `cur`, and the stack holds the roots of the frames. */
  ghost predicate Descending(stack: array<Node?>, num: int, p: Node?, s: PostState, all: set<Node>)
    reads stack, all
  {
    && num == |s.fs| <= stack.Length && Frames(s.fs)
    && (forall i :: 0 <= i < |s.fs| ==> stack[i] == s.fs[i].tree.node && Nodes(s.fs[i].tree) <= all && Shape(s.fs[i].tree))
    && p == Root(s.cur) && Nodes(s.cur) <= all && Shape(s.cur)
  }

  method PushFrame(stack: array<Node?>, num: int, p: Node, ghost s: PostState, ghost all: set<Node>)
    requires Descending(stack, num, p, s, all) && num < stack.Length
    modifies stack
    ensures Descending(stack, num + 1, p.leftchild, Pushed(s), all)
    ensures p.leftchild == Root(s.cur.left)
  {
    stack[num] := p;
    assert forall i :: 0 <= i < num ==> Pushed(s).fs[i] == s.fs[i];
  }

  lemma {:induction false} TopFrame(stack: array<Node?>, num: int, s: PostState, all: set<Node>)
    requires Descending(stack, num, null, s, all) && num > 0
    ensures var top := s.fs[num - 1].tree;
            && num <= stack.Length && stack[num - 1] == top.node
            && top.node.data == top.data && top.node.rightchild == Root(top.right)
            && Descending(stack, num - 1, null, Popped(s), all)
            && Descending(stack, num, top.node.rightchild, Entered(s), all)
  {
    assert Shape(s.fs[num - 1].tree);
  }

  lemma {:induction false} PostStart(root: Node?, t: Tree<Node>, stack: array<Node?>)
    requires Unshared(t) && Shape(t) && root == Root(t)
    ensures PostOk(PostState([], t, null, 0, []), t)
    ensures Descending(stack, 0, root, PostState([], t, null, 0, []), Nodes(t))
  {
  }

  lemma {:induction false} PostDone(s: PostState, t: Tree<Node>)
    requires PostOk(s, t) && s.fs == [] && s.cur.Leaf?
    ensures s.out == PostOrder(t) && s.peak == Height(t)
  {
  }

  /** The inner loop: stack the nodes down the left edge. */
  method DescendLeft(root: Node?, stack: array<Node?>, depth: int, high: nat, ghost s0: PostState, ghost t: Tree<Node>)
    returns (num: int, peak: nat, ghost s: PostState)
    requires Descending(stack, depth, root, s0, Nodes(t)) && PostOk(s0, t) && s0.peak == high
    requires Height(t) <= stack.Length
    modifies stack
    ensures Descending(stack, num, null, s, Nodes(t)) && PostOk(s, t) && s.cur.Leaf?
    ensures s.peak == peak && s.out == s0.out && s.visited == s0.visited
    ensures PostMeasure(s) <= PostMeasure(s0) && (root != null || depth > 0 ==> num > 0)
  {
    hide Descending, PostOk, PostMeasure, Nodes, Shape, Height;
    var p := root;
    num, peak, s := depth, high, s0;
    DescendingFacts(stack, num, p, s, Nodes(t));
    while p != null
      invariant Descending(stack, num, p, s, Nodes(t)) && PostOk(s, t) && Frames(s.fs)
      invariant s.peak == peak && s.out == s0.out && s.visited == s0.visited && |s.fs| == num && p == Root(s.cur)
      invariant PostMeasure(s) <= PostMeasure(s0) && (root != null || depth > 0 ==> p != null || num > 0)
      decreases PostMeasure(s)
    {
      PushOk(s, t);
      PushFrame(stack, num, p, s, Nodes(t));
      num := num + 1;
      peak := Max(peak, num);
      p := p.leftchild;
      s := Pushed(s);
    }
  }

  lemma {:induction false} DescendingFacts(stack: array<Node?>, num: int, p: Node?, s: PostState, all: set<Node>)
    requires Descending(stack, num, p, s, all)
    ensures Frames(s.fs) && |s.fs| == num && p == Root(s.cur)
  {
  }

  /** Post-order with an explicit stack and the `have_visited` pointer.  The stack is as
      deep as the tree is high. */
  method PostOrderNoRec(root: Node?, ghost t: Tree<Node>, stack: array<Node?>) returns (out: seq<int>, peak: nat)
    requires Shape(t) && Unshared(t) && root == Root(t) && Height(t) <= stack.Length
    modifies stack
    ensures out == PostOrder(t) && peak == Height(t)
  {
    hide Descending, PostOk, PostMeasure, Nodes, Shape, PostOrder, Height, Unshared;
    var p, num := root, 0;
    var visited: Node? := null;
    out, peak := [], 0;
    ghost var s := PostState([], t, null, 0, []);
    PostStart(root, t, stack);
    while p != null || num > 0
      invariant Descending(stack, num, p, s, Nodes(t)) && PostOk(s, t) && Frames(s.fs)
      invariant s.visited == visited && s.out == out && s.peak == peak && |s.fs| == num && p == Root(s.cur)
      decreases PostMeasure(s)
    {
      num, peak, s := DescendLeft(p, stack, num, peak, s, t);
      DescendingFacts(stack, num, null, s, Nodes(t));
      TopFrame(stack, num, s, Nodes(t));
      TestOk(s, t);
      p := stack[num - 1];
      if p.rightchild == null || visited == p.rightchild {
        PopOk(s, t);
        out := out + [p.data];
        num := num - 1;
        visited := p;
        p := null;
        s := Popped(s);
      } else {
        EnterOk(s, t);
        p := p.rightchild;
        s := Entered(s);
      }
    }
    PostDone(s, t);
  }

  // ---------- insertion ----------

  /** A way down from the root: true goes left. */
  ghost predicate Leads(t: Tree<Node>, path: seq<bool>) {
    path == [] || (t.Branch? && Leads(if path[0] then t.left else t.right, path[1..]))
  }

  ghost function At(t: Tree<Node>, path: seq<bool>): Tree<Node>
    requires Leads(t, path)
  {
    if path == [] then t else At(if path[0] then t.left else t.right, path[1..])
  }

  /** `t` with the subtree at `path` replaced. */
  ghost function Put(t: Tree<Node>, path: seq<bool>, sub: Tree<Node>): Tree<Node>
    requires Leads(t, path)
  {
    if path == [] then sub
    else if path[0] then t.(left := Put(t.left, path[1..], sub))
    else t.(right := Put(t.right, path[1..], sub))
  }

  lemma {:induction false} AtNodes(t: Tree<Node>, path: seq<bool>)
    requires Leads(t, path)
    ensures Nodes(At(t, path)) <= Nodes(t)
    ensures Unshared(t) ==> Unshared(At(t, path))
  {
    if path != [] {
      AtNodes(if path[0] then t.left else t.right, path[1..]);
    }
  }

  lemma {:induction false} AtShape(t: Tree<Node>, path: seq<bool>)
    requires Leads(t, path) && Shape(t)
    ensures Nodes(At(t, path)) <= Nodes(t) && Shape(At(t, path))
  {
    if path != [] {
      AtShape(if path[0] then t.left else t.right, path[1..]);
    }
  }

  lemma {:induction false} OneFurther(t: Tree<Node>, path: seq<bool>, b: bool, sub: Tree<Node>)
    requires Leads(t, path) && At(t, path).Branch?
    ensures Leads(t, path + [b])
    ensures At(t, path + [b]) == if b then At(t, path).left else At(t, path).right
    ensures Put(t, path + [b], sub) == Put(t, path, if b then At(t, path).(left := sub) else At(t, path).(right := sub))
  {
    if path != [] {
      assert (path + [b])[1..] == path[1..] + [b];
      OneFurther(if path[0] then t.left else t.right, path[1..], b, sub);
    }
  }

  /** All nodes but `m` are linked as `t` says. */
  ghost predicate ShapeExcept(t: Tree<Node>, m: Node)
    reads Nodes(t) - {m}
  {
    match t
    case Leaf => true
    case Branch(n, x, l, r) =>
      && (n != m ==> n.data == x && n.leftchild == Root(l) && n.rightchild == Root(r))
      && ShapeExcept(l, m) && ShapeExcept(r, m)
  }

  lemma {:induction false} ExceptFromShape(t: Tree<Node>, m: Node)
    ensures Shape(t) ==> ShapeExcept(t, m)
    ensures ShapeExcept(t, m) && m !in Nodes(t) ==> Shape(t)
  {
    if t.Branch? {
      ExceptFromShape(t.left, m);
      ExceptFromShape(t.right, m);
    }
  }

  /** Re-linking one node reshapes the tree accordingly. */
  lemma {:induction false} PutShape(t: Tree<Node>, path: seq<bool>, sub: Tree<Node>)
    requires Leads(t, path) && At(t, path).Branch? && Unshared(t)
    requires sub.Branch? && sub.node == At(t, path).node && Shape(sub) && ShapeExcept(t, sub.node)
    ensures Shape(Put(t, path, sub)) && Root(Put(t, path, sub)) == Root(t)
  {
    if path != [] {
      var down, other := if path[0] then t.left else t.right, if path[0] then t.right else t.left;
      AtNodes(down, path[1..]);
      ExceptFromShape(other, sub.node);
      PutShape(down, path[1..], sub);
    }
  }

  lemma {:induction false} ExceptAt(t: Tree<Node>, path: seq<bool>, m: Node)
    requires Leads(t, path) && ShapeExcept(t, m)
    ensures Nodes(At(t, path)) <= Nodes(t) && ShapeExcept(At(t, path), m)
  {
    if path != [] {
      ExceptAt(if path[0] then t.left else t.right, path[1..], m);
    }
  }

  /** Hanging a fresh leaf under the node at `path`, where there was none. */
  lemma {:induction false} LinkLeaf(t: Tree<Node>, path: seq<bool>, b: bool, leaf: Tree<Node>)
    requires Leads(t, path) && At(t, path).Branch? && Unshared(t) && ShapeExcept(t, At(t, path).node)
    requires leaf.Branch? && Shape(leaf)
    requires var at := At(t, path);
             && (if b then at.left else at.right).Leaf?
             && at.node.data == at.data
             && at.node.leftchild == (if b then leaf.node else Root(at.left))
             && at.node.rightchild == (if b then Root(at.right) else leaf.node)
    ensures Leads(t, path + [b])
    ensures Shape(Put(t, path + [b], leaf)) && Root(Put(t, path + [b], leaf)) == Root(t)
  {
    var at := At(t, path);
    OneFurther(t, path, b, leaf);
    ExceptAt(t, path, at.node);
    AtNodes(t, path);
    ExceptFromShape(at.left, at.node);
    ExceptFromShape(at.right, at.node);
    PutShape(t, path, if b then at.(left := leaf) else at.(right := leaf));
  }

  /** `path` is the way a search for `elem` takes. */
  ghost predicate Follows(t: Tree<Node>, path: seq<bool>, elem: int)
    ensures Follows(t, path, elem) ==> Leads(t, path)
  {
    path == [] ||
    (t.Branch? && elem != t.data && path[0] == (elem < t.data) &&
     Follows(if path[0] then t.left else t.right, path[1..], elem))
  }

  lemma {:induction false} FollowsFurther(t: Tree<Node>, path: seq<bool>, elem: int)
    requires Follows(t, path, elem) && At(t, path).Branch? && At(t, path).data != elem
    ensures Follows(t, path + [elem < At(t, path).data], elem)
  {
    if path != [] {
      var b := elem < At(t, path).data;
      assert (path + [b])[1..] == path[1..] + [b];
      FollowsFurther(if path[0] then t.left else t.right, path[1..], elem);
    }
  }

  /** Insertion happens at the end of the search. */
  lemma {:induction false} InsertAtEnd(t: Tree<Node>, path: seq<bool>, elem: int, n: Node)
    requires Follows(t, path, elem)
    ensures At(t, path).Leaf? ==> Insert(t, elem, n) == Put(t, path, Branch(n, elem, Leaf, Leaf))
    ensures At(t, path).Branch? && At(t, path).data == elem ==> Insert(t, elem, n) == t
  {
    if path != [] {
      InsertAtEnd(if path[0] then t.left else t.right, path[1..], elem, n);
    }
  }

  /** A tree in memory whose nodes are `all`. */
  ghost predicate InMemory(root: Node?, t: Tree<Node>, all: set<Node>)
    reads all
  {
    Nodes(t) <= all && Shape(t) && Unshared(t) && root == Root(t)
  }

  /** The search loop: the node holding `elem`, or the node under which it belongs. */
  method Search(root: Node, elem: int, ghost t: Tree<Node>, ghost all: set<Node>)
    returns (last: Node, found: bool, ghost path: seq<bool>)
    requires InMemory(root, t, all)
    ensures InMemory(root, t, all) && (found <==> last.data == elem)
    ensures Follows(t, path, elem) && At(t, path).Branch? && At(t, path).node == last && last in all
    ensures !found ==> (if elem < last.data then At(t, path).left else At(t, path).right).Leaf?
  {
    var p: Node? := root;
    last, path := root, [];
    ghost var cur, below := t, false;
    while p != null
      invariant InMemory(root, t, all)
      invariant p == Root(cur) && Nodes(cur) <= all && Shape(cur)
      invariant Follows(t, path, elem) && At(t, path).Branch? && At(t, path).node == last
      invariant Nodes(At(t, path)) <= all && Shape(At(t, path))
      invariant !below ==> cur == t && path == []
      invariant below ==> elem != last.data && cur == if elem < last.data then At(t, path).left else At(t, path).right
      decreases Size(cur)
    {
      if below {
        FollowsFurther(t, path, elem);
        OneFurther(t, path, elem < last.data, Leaf);
        path := path + [elem < last.data];
      }
      last, below := p, true;
      if elem < p.data {
        p, cur := p.leftchild, cur.left;
      } else if elem > p.data {
        p, cur := p.rightchild, cur.right;
      } else {
        return last, true, path;
      }
    }
    found := false;
  }

  method InsertNode(root: Node, elem: int, ghost t: Tree<Node>, ghost all: set<Node>)
    returns (ghost t': Tree<Node>, ghost all': set<Node>)
    requires InMemory(root, t, all)
    modifies all
    ensures InMemory(root, t', all') && all <= all' && fresh(all' - all)
    ensures Erase(t') == Insert(Erase(t), elem, ())
  {
    var p, found, path := Search(root, elem, t, all);
    AtShape(t, path);
    if found {
      InsertAtEnd(t, path, elem, p);
      EraseInsert(t, elem, p);
      return t, all;
    }
    ExceptFromShape(t, p);
    var newnode := new Node(elem);
    ghost var b := elem < p.data;
    if elem < p.data {
      p.leftchild := newnode;
    } else {
      p.rightchild := newnode;
    }
    t', all' := Insert(t, elem, newnode), all + {newnode};
    FollowsFurther(t, path, elem);
    OneFurther(t, path, b, Leaf);
    InsertAtEnd(t, path + [b], elem, newnode);
    EraseInsert(t, elem, newnode);
    InsertKeepsUnshared(t, elem, newnode);
    LinkLeaf(t, path, b, Branch(newnode, elem, Leaf, Leaf));
  }

  /** Building from the first `num` elements of `data`. */
  method CreateBinarySearchTree(start: Node?, data: array<int>, num: int, ghost t: Tree<Node>, ghost all: set<Node>)
    returns (root: Node?, ghost t': Tree<Node>, ghost all': set<Node>)
    requires InMemory(start, t, all) && num <= data.Length
    modifies all
    ensures InMemory(root, t', all') && fresh(all' - all)
    ensures Erase(t') == InsertAll(Erase(t), if num >= 0 then data[..num] else [])
  {
    root, t', all' := start, t, all;
    var i := 0;
    while i < num
      invariant 0 <= i && (i > 0 ==> i <= num)
      invariant InMemory(root, t', all') && all <= all' && fresh(all' - all)
      invariant Erase(t') == InsertAll(Erase(t), data[..i])
    {
      assert data[..i + 1] == data[..i] + [data[i]];
      if root == null {
        root := new Node(data[i]);
        t', all' := Branch(root, data[i], Leaf, Leaf), all' + {root};
      } else {
        t', all' := InsertNode(root, data[i], t', all');
      }
      i := i + 1;
    }
  }

  /** Build, then print in order: the distinct values, ascending. */
  method PrintSorted(data: array<int>, stack: array<Node?>) returns (out: seq<int>)
    requires LeftHeight(InsertAll(Leaf, data[..])) <= stack.Length
    modifies stack
    ensures Ascending(out) && forall x :: x in out <==> x in data[..]
  {
    var root, t, all := CreateBinarySearchTree(null, data, data.Length, Leaf, {});
    assert data[..data.Length] == data[..];
    EraseSame(t);
    BuildSorts(data[..]);
    var peak: nat;
    out, peak := InOrderNoRec(root, t, stack);
  }
}

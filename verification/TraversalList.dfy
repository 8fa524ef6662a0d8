/** A list with any number of traversals in progress, as calls and replies. */
module Traversals {
  const TRAV_INIT_SIZE: nat := 8

  datatype Item = Item(time: int, text: string)

  /** A slot of the key table: unused, past the end, or about to return item `i`. */
  datatype Slot = Unused | AtEnd | Next(i: nat)

  datatype State = State(items: seq<Item>, table: seq<Slot>)

  datatype Call = Add(item: Item) | Access | Get(key: int) | FreeKey(key: int)

  datatype Reply = Failed | Ok | Key(key: nat) | Data(item: Item) | EndOfList

  function FirstUnused(table: seq<Slot>): (k: nat)
    ensures k <= |table|
    ensures k < |table| ==> table[k] == Unused
    ensures forall j :: 0 <= j < k ==> table[j] != Unused
  {
    if table == [] then 0
    else if table[0] == Unused then 0
    else
      var k := FirstUnused(table[1..]);
      assert forall j :: 1 <= j < k + 1 ==> table[j] == table[1..][j - 1];
      k + 1
  }

  function AllUnused(n: nat): (t: seq<Slot>)
    ensures |t| == n && forall i :: 0 <= i < n ==> t[i] == Unused
  {
    seq(n, _ => Unused)
  }

  /** The table with room for one more key, and that key. */
  function Claim(table: seq<Slot>): (r: (seq<Slot>, nat))
    ensures r.1 < |r.0| && |r.0| >= |table|
  {
    var k := FirstUnused(table);
    if table == [] then (AllUnused(TRAV_INIT_SIZE)[0 := Next(0)], 0)
    else if k < |table| then (table[k := Next(0)], k)
    else ((table + AllUnused(|table|))[|table| := Next(0)], |table|)
  }

  function Step(s: State, c: Call): (State, Reply) {
    match c
    case Add(item) => (s.(items := s.items + [item]), Ok)
    case Access =>
      if s.items == [] then (s, Failed)
      else
        var (table, key) := Claim(s.table);
        (s.(table := table), Key(key))
    case Get(key) =>
      if !(0 <= key < |s.table|) || s.table[key] == Unused then (s, Failed)
      else (match s.table[key]
            case AtEnd => (s.(table := s.table[key := Unused]), EndOfList)
            case Next(i) =>
              if i < |s.items| then
                (s.(table := s.table[key := if i + 1 == |s.items| then AtEnd else Next(i + 1)]), Data(s.items[i]))
              else (s, Failed))
    case FreeKey(key) =>
      if 0 <= key < |s.table| then (s.(table := s.table[key := Unused]), Ok) else (s, Failed)
  }

  // ---------- what each traversal has been given ----------

  /** For every key, the items returned since it was handed out, and how long the list
      was at the last of those reads. */
  datatype History = History(got: map<int, seq<Item>>, seen: map<int, nat>)

  function Record(s: State, h: History, c: Call): History {
    var (t, r) := Step(s, c);
    match r
    case Key(key) => History(h.got[key := []], h.seen[key := 0])
    case Data(item) =>
      var before := if c.key in h.got then h.got[c.key] else [];
      History(h.got[c.key := before + [item]], h.seen[c.key := |s.items|])
    case _ => h
  }

  predicate Live(s: State, key: int) {
    0 <= key < |s.table| && s.table[key] != Unused
  }

  /** Traversal `key` has returned exactly the first items of the list; it is at the end
      exactly when the last item it returned was the tail when it was read. */
  ghost predicate KeyOk(s: State, h: History, key: int)
    requires Live(s, key)
  {
    && key in h.got && key in h.seen && h.got[key] <= s.items && h.seen[key] <= |s.items|
    && (match s.table[key]
        case Next(i) => i < |s.items| && |h.got[key]| == i && (i > 0 ==> i < h.seen[key])
        case AtEnd => 0 < |h.got[key]| == h.seen[key]
        case Unused => true)
  }

  ghost predicate AllOk(s: State, h: History) {
    forall key :: Live(s, key) ==> KeyOk(s, h, key)
  }

  const EMPTY := State([], [])

  function Run(calls: seq<Call>): (State, History) {
    if calls == [] then (EMPTY, History(map[], map[]))
    else
      var (s, h) := Run(calls[..|calls| - 1]);
      (Step(s, calls[|calls| - 1]).0, Record(s, h, calls[|calls| - 1]))
  }

  lemma {:induction false} StepOk(s: State, h: History, c: Call)
    requires AllOk(s, h)
    ensures AllOk(Step(s, c).0, Record(s, h, c))
  {
    var t, g := Step(s, c).0, Record(s, h, c);
    forall key | Live(t, key)
      ensures KeyOk(t, g, key)
    {
      if Live(s, key) {
        assert KeyOk(s, h, key);
      }
    }
  }

  /** The items callers asked to add, in that order. */
  function Added(calls: seq<Call>): seq<Item> {
    if calls == [] then [] else (if calls[0].Add? then [calls[0].item] else []) + Added(calls[1..])
  }

  lemma {:induction false} OneMoreCall(calls: seq<Call>, c: Call)
    ensures Added(calls + [c]) == Added(calls) + if c.Add? then [c.item] else []
  {
    if calls != [] {
      assert (calls + [c])[1..] == calls[1..] + [c];
      OneMoreCall(calls[1..], c);
    }
  }

  /** Over every run of calls the list is what has been added, every live traversal has
      returned exactly the first of those items, and it is at the end only after an item that
      was the tail when read. */
  lemma {:induction false} EveryRunOk(calls: seq<Call>)
    ensures AllOk(Run(calls).0, Run(calls).1)
    ensures Run(calls).0.items == Added(calls)
    ensures forall key :: Live(Run(calls).0, key) ==> key in Run(calls).1.got && Run(calls).1.got[key] <= Added(calls)
  {
    if calls != [] {
      var front, c := calls[..|calls| - 1], calls[|calls| - 1];
      var (s, h) := Run(front);
      EveryRunOk(front);
      StepOk(s, h, c);
      assert calls == front + [c];
      OneMoreCall(front, c);
    }
    forall key | Live(Run(calls).0, key)
      ensures key in Run(calls).1.got && Run(calls).1.got[key] <= Added(calls)
    {
      assert KeyOk(Run(calls).0, Run(calls).1, key);
    }
  }

  /** A new key is one no live traversal has; the other traversals are untouched. */
  lemma {:induction false} AccessGivesFreshKey(s: State)
    requires s.items != []
    ensures var (t, r) := Step(s, Access);
            && r.Key? && !Live(s, r.key) && t.items == s.items
            && (forall key :: Live(t, key) <==> Live(s, key) || key == r.key)
            && (forall key :: Live(s, key) ==> t.table[key] == s.table[key])
            && t.table[r.key] == Next(0)
  {
  }

  /** It is the lowest free one; the table starts with eight slots and doubles when all are
      taken. */
  lemma {:induction false} AccessGivesLowestKey(s: State)
    requires s.items != []
    ensures var (t, r) := Step(s, Access);
            && r.Key? && (forall key :: 0 <= key < r.key ==> Live(s, key))
            && |t.table| == if s.table == [] then 8 else if r.key < |s.table| then |s.table| else 2 * |s.table|
  {
  }

  /** A freed key is no longer live, a key out of range cannot be freed, and a key that is not
      live cannot be read. */
  lemma {:induction false} DeadKeys(s: State, key: int)
    ensures var (t, r) := Step(s, FreeKey(key));
            && !Live(t, key) && t.items == s.items && r == (if 0 <= key < |s.table| then Ok else Failed)
            && (r == Failed ==> t == s)
    ensures !Live(s, key) ==> Step(s, Get(key)) == (s, Failed)
  {
  }

  /** No call but the ones naming a key changes that traversal. */
  lemma {:induction false} OthersUndisturbed(s: State, c: Call, key: int)
    requires Live(s, key) && !(c.Get? && c.key == key) && !(c.FreeKey? && c.key == key)
    ensures Live(Step(s, c).0, key) && Step(s, c).0.table[key] == s.table[key]
  {
    if c.Access? && s.items != [] {
      AccessGivesFreshKey(s);
    }
  }

  /** The replies to `n` reads of `key` with nothing in between. */
  function Reads(s: State, key: int, n: nat): seq<Reply>
    decreases n
  {
    if n == 0 then [] else [Step(s, Get(key)).1] + Reads(Step(s, Get(key)).0, key, n - 1)
  }

  /** Left alone, a traversal returns all the rest of the list, then the end, and then its
      key is no longer valid. */
  lemma {:induction false} ReadsToTheEnd(s: State, key: nat)
    requires Live(s, key) && s.table[key].Next? && s.table[key].i < |s.items|
    ensures var i, n := s.table[key].i, |s.items|;
            var rs := Reads(s, key, n - i + 2);
            && |rs| == n - i + 2 && rs[n - i] == EndOfList && rs[n - i + 1] == Failed
            && forall k :: 0 <= k < n - i ==> rs[k] == Data(s.items[i + k])
    decreases |s.items| - s.table[key].i
  {
    var i, n := s.table[key].i, |s.items|;
    var t := Step(s, Get(key)).0;
    assert Reads(s, key, n - i + 2) == [Data(s.items[i])] + Reads(t, key, n - i + 1);
    if i + 1 < n {
      ReadsToTheEnd(t, key);
    } else {
      var u := Step(t, Get(key)).0;
      assert Reads(t, key, 2) == [EndOfList] + Reads(u, key, 1);
      assert Reads(u, key, 1) == [Failed] + Reads(Step(u, Get(key)).0, key, 0);
    }
  }
}

/** The linked list and the pointer table that implement it. */
module TraversalList {
  import opened Traversals

  class Node {
    var item: Item
    var next: Node?

    constructor (item: Item)
      ensures this.item == item && next == null
    {
      this.item, next := item, null;
    }
  }

  /** A traversal pointer: NULL, the address of the end marker, or a node. */
  datatype Pointer = Null | EndMark | To(node: Node)

  datatype Option<T> = None | Some(value: T)

  function After(nodes: seq<Node>, i: nat): Node?
    requires i < |nodes|
  {
    if i + 1 < |nodes| then nodes[i + 1] else null
  }

  ghost predicate Chained(head: Node?, tail: Node?, nodes: seq<Node>)
    reads nodes
  {
    && (head == null <==> nodes == [])
    && (nodes != [] ==> head == nodes[0] && tail == nodes[|nodes| - 1])
    && (forall i :: 0 <= i < |nodes| ==> nodes[i].next == After(nodes, i))
    && (forall i, j :: 0 <= i < j < |nodes| ==> nodes[i] != nodes[j])
  }

  /** The pointer for a slot. */
  ghost predicate Points(p: Pointer, slot: Slot, nodes: seq<Node>) {
    match slot
    case Unused => p == Null
    case AtEnd => p == EndMark
    case Next(i) => i < |nodes| && p == To(nodes[i])
  }

  ghost predicate Pointing(table: seq<Pointer>, slots: seq<Slot>, nodes: seq<Node>) {
    |table| == |slots| && forall k :: 0 <= k < |slots| ==> Points(table[k], slots[k], nodes)
  }

  ghost function Items(nodes: seq<Node>): (items: seq<Item>)
    reads nodes
    ensures |items| == |nodes| && forall i :: 0 <= i < |nodes| ==> items[i] == nodes[i].item
  {
    seq(|nodes|, i requires 0 <= i < |nodes| reads nodes => nodes[i].item)
  }

  class List {
    var head: Node?
    var tail: Node?
    var table: array<Pointer>
    ghost var nodes: seq<Node>
    ghost var slots: seq<Slot>

    ghost predicate Valid()
      reads this, nodes, table
    {
      Chained(head, tail, nodes) && Pointing(table[..], slots, nodes)
    }

    ghost function Abstract(): State
      reads this, nodes
    {
      State(Items(nodes), slots)
    }

    constructor ()
      ensures Valid() && Abstract() == EMPTY && fresh(table)
    {
      head, tail, nodes, slots := null, null, [], [];
      table := new Pointer[0];
    }

    /** What the invariant says about the list. */
    lemma ListFacts()
      requires Valid()
      ensures table.Length == |slots| && (head == null <==> nodes == []) && (nodes != [] ==> head == nodes[0])
      ensures |Items(nodes)| == |nodes|
    {
    }

    /** What it says about one slot. */
    lemma SlotFacts(k: nat)
      requires Valid() && k < |slots|
      ensures k < table.Length && Points(table[k], slots[k], nodes)
      ensures slots[k].Next? ==>
                var i := slots[k].i;
                i < |nodes| && nodes[i].next == After(nodes, i) && Items(nodes)[i] == nodes[i].item
    {
    }

    /** Setting one pointer of the table. */
    method SetPointer(k: nat, p: Pointer, ghost slot: Slot)
      requires Valid() && k < table.Length && Points(p, slot, nodes)
      modifies this`slots, table
      ensures Valid() && k < old(|slots|) && slots == old(slots)[k := slot] && Items(nodes) == old(Items(nodes))
    {
      hide Chained, Points;
      table[k] := p;
      slots := slots[k := slot];
    }

    /** `accessdata`: a key, or -1. */
    method AccessData() returns (r: int)
      requires Valid()
      modifies this, table
      ensures Valid() && nodes == old(nodes) && (table == old(table) || fresh(table))
      ensures Abstract() == Step(old(Abstract()), Access).0
      ensures match Step(old(Abstract()), Access).1 case Key(key) => r == key case _ => r == -1
    {
      hide Chained, Pointing, FirstUnused, AllUnused, Items;
      ListFacts();
      if head == null {
        return -1;
      }
      if table.Length == 0 {
        Resize(TRAV_INIT_SIZE);
        SetPointer(0, To(head), Next(0));
        return 0;
      }
      var i := FindNull();
      if i == table.Length {
        Resize(2 * table.Length);
      }
      SetPointer(i, To(head), Next(0));
      r := i;
    }

    method FindNull() returns (i: nat)
      requires Valid()
      ensures i == FirstUnused(slots)
    {
      hide Chained;
      i := 0;
      while i < table.Length
        invariant i <= table.Length && Valid()
        invariant forall j :: 0 <= j < i ==> slots[j] != Unused
      {
        if table[i] == Null {
          break;
        }
        i := i + 1;
      }
    }

    /** `calloc`, or `realloc` to a larger size; the new slots are taken to be NULL. */
    method Resize(size: nat)
      requires Valid() && size >= table.Length
      modifies this`table, this`slots
      ensures Valid() && fresh(table) && table.Length == size >= |old(slots)|
      ensures slots == old(slots) + AllUnused(size - |old(slots)|) && Items(nodes) == old(Items(nodes))
    {
      hide Chained;
      var before := table.Length;
      var bigger := new Pointer[size](_ => Null);
      for k := 0 to before
        invariant Valid() && before == |slots| && unchanged(this) && Items(nodes) == old(Items(nodes))
        invariant bigger.Length == size && fresh(bigger)
        invariant forall j :: 0 <= j < k ==> bigger[j] == table[j]
        invariant forall j :: before <= j < size ==> bigger[j] == Null
      {
        bigger[k] := table[k];
      }
      table, slots := bigger, slots + AllUnused(size - before);
    }

    /** `adddata`. */
    method AddData(item: Item)
      requires Valid()
      modifies this`head, this`tail, this`nodes, nodes
      ensures Valid() && |nodes| == old(|nodes|) + 1 && nodes[..old(|nodes|)] == old(nodes) && fresh(nodes[old(|nodes|)])
      ensures Abstract() == Step(old(Abstract()), Add(item)).0
    {
      var node := new Node(item);
      LinkNode(node);
    }

    /** Hanging a new node behind the tail. */
    method LinkNode(node: Node)
      requires Valid() && node.next == null && node !in nodes
      modifies this`head, this`tail, this`nodes, nodes
      ensures Valid() && nodes == old(nodes) + [node] && Items(nodes) == old(Items(nodes)) + [node.item]
    {
      hide Pointing, Items, Chained, After;
      MorePointing(table[..], slots, nodes, node);
      ListFacts();
      if head == null {
        head := node;
        ChainOfOne(node);
        assert nodes + [node] == [node];
      } else {
        HangBehind(tail, node, head, nodes);
      }
      tail := node;
      nodes := nodes + [node];
      assert Items(nodes) == old(Items(nodes)) + [node.item];
    }

    /** `tailptr->next = newnode`. */
    static method HangBehind(last: Node?, node: Node, first: Node?, ghost nodes: seq<Node>)
      requires Chained(first, last, nodes) && nodes != [] && node.next == null && node !in nodes
      modifies nodes
      ensures Chained(first, node, nodes + [node])
      ensures forall i :: 0 <= i < |nodes| ==> nodes[i].item == old(nodes[i].item)
      ensures node.item == old(node.item)
    {
      ghost var n := |nodes| - 1;
      assert forall i :: 0 <= i < n ==> nodes[i] != last && nodes[i].next == After(nodes, i) == nodes[i + 1];
      last.next := node;
      assert forall i :: 0 <= i < n ==> nodes[i].next == After(nodes + [node], i);
    }

    /** `getdata`: 0 with the item, 0 with no string at the end of the list, or -1. */
    method GetData(key: int) returns (r: int, data: Option<Item>)
      requires Valid()
      modifies this`slots, table
      ensures Valid()
      ensures Abstract() == Step(old(Abstract()), Get(key)).0
      ensures match Step(old(Abstract()), Get(key)).1
              case Data(item) => r == 0 && data == Some(item)
              case EndOfList => r == 0 && data == None
              case _ => r == -1 && data == None
    {
      hide Chained, Pointing, Items;
      ListFacts();
      if key < 0 || key >= table.Length {
        return -1, None;
      }
      SlotFacts(key);
      if table[key] == Null {
        return -1, None;
      }
      if table[key] == EndMark {
        SetPointer(key, Null, Unused);
        return 0, None;
      }
      ghost var i := slots[key].i;
      var t := table[key].node;
      data := Some(t.item);
      if t.next == null {
        SetPointer(key, EndMark, AtEnd);
      } else {
        SetPointer(key, To(t.next), Next(i + 1));
      }
      r := 0;
    }

    /** `freekey`. */
    method Free(key: int) returns (r: int)
      requires Valid()
      modifies this`slots, table
      ensures Valid()
      ensures Abstract() == Step(old(Abstract()), FreeKey(key)).0
      ensures r == if Step(old(Abstract()), FreeKey(key)).1 == Ok then 0 else -1
    {
      hide Chained, Pointing, Items;
      ListFacts();
      if key < 0 || key >= table.Length {
        return -1;
      }
      SetPointer(key, Null, Unused);
      r := 0;
    }
  }

  lemma {:induction false} ChainOfOne(node: Node)
    requires node.next == null
    ensures Chained(node, node, [node])
  {
  }

  lemma {:induction false} MorePointing(table: seq<Pointer>, slots: seq<Slot>, nodes: seq<Node>, node: Node)
    requires Pointing(table, slots, nodes)
    ensures Pointing(table, slots, nodes + [node])
  {
    forall k | 0 <= k < |slots|
      ensures Points(table[k], slots[k], nodes + [node])
    {
      assert Points(table[k], slots[k], nodes);
    }
  }
}

/** Bubble sort with an interchange counter. */
module BubbleSort {
  /** How many elements of `s` exceed `x`. */
  function Above(s: seq<int>, x: int): nat {
    if s == [] then 0 else Above(s[..|s| - 1], x) + if s[|s| - 1] > x then 1 else 0
  }

  /** The number of pairs that stand in the wrong order. */
  function Inversions(s: seq<int>): nat {
    if s == [] then 0 else Inversions(s[..|s| - 1]) + Above(s[..|s| - 1], s[|s| - 1])
  }

  ghost predicate Sorted(s: seq<int>) {
    forall i, j :: 0 <= i < j < |s| ==> s[i] <= s[j]
  }

  /** `s` with its elements `i` and `i + 1` exchanged. */
  function Swapped(s: seq<int>, i: nat): seq<int>
    requires i + 1 < |s|
  {
    s[i := s[i + 1]][i + 1 := s[i]]
  }

  lemma {:induction false} AboveSwapped(s: seq<int>, i: nat, x: int)
    requires i + 1 < |s|
    ensures Above(Swapped(s, i), x) == Above(s, x)
  {
    var n := |s| - 1;
    if i + 1 < n {
      assert Swapped(s, i)[..n] == Swapped(s[..n], i);
      AboveSwapped(s[..n], i, x);
    } else {
      assert Swapped(s, i)[..n][..n - 1] == s[..n][..n - 1];
    }
  }

  /** Exchanging two neighbours that stand in the wrong order removes exactly one inversion. */
  lemma {:induction false} SwapRemovesOne(s: seq<int>, i: nat)
    requires i + 1 < |s| && s[i] > s[i + 1]
    ensures Inversions(Swapped(s, i)) == Inversions(s) - 1
  {
    var t, n := Swapped(s, i), |s| - 1;
    if i + 1 < n {
      assert t[..n] == Swapped(s[..n], i);
      SwapRemovesOne(s[..n], i);
      AboveSwapped(s[..n], i, s[n]);
    } else {
      assert t[..n][..n - 1] == s[..n][..n - 1];
    }
  }

  lemma {:induction false} NoneAbove(s: seq<int>, x: int)
    ensures Above(s, x) == 0 <==> forall i :: 0 <= i < |s| ==> s[i] <= x
  {
    if s != [] {
      NoneAbove(s[..|s| - 1], x);
    }
  }

  /** Sorted sequences are exactly those without inversions. */
  lemma {:induction false} SortedIffNoInversions(s: seq<int>)
    ensures Sorted(s) <==> Inversions(s) == 0
  {
    if s != [] {
      var n := |s| - 1;
      SortedIffNoInversions(s[..n]);
      NoneAbove(s[..n], s[n]);
      assert Sorted(s) <==> Sorted(s[..n]) && forall i :: 0 <= i < n ==> s[..n][i] <= s[n];
    }
  }

  // ---------- one pass ----------

  /** The sequence after `i` comparisons of a pass from the left. */
  function PassTo(s: seq<int>, i: nat): (t: seq<int>)
    requires i == 0 || i < |s|
    ensures |t| == |s|
  {
    if i == 0 then s
    else
      var t := PassTo(s, i - 1);
      if t[i - 1] > t[i] then Swapped(t, i - 1) else t
  }

  /** The interchanges among the first `i` comparisons of a pass. */
  function Swaps(s: seq<int>, i: nat): nat
    requires i == 0 || i < |s|
  {
    if i == 0 then 0
    else
      var t := PassTo(s, i - 1);
      Swaps(s, i - 1) + if t[i - 1] > t[i] then 1 else 0
  }

  /** Nothing right of the last comparison has changed; left of it nothing is larger. */
  lemma {:induction false} PassMovesMaximum(s: seq<int>, i: nat)
    requires i < |s|
    ensures forall k :: i < k < |s| ==> PassTo(s, i)[k] == s[k]
    ensures forall k :: 0 <= k < i ==> PassTo(s, i)[k] <= PassTo(s, i)[i]
  {
    if i > 0 {
      PassMovesMaximum(s, i - 1);
    }
  }

  lemma {:induction false} PassPermutes(s: seq<int>, i: nat, m: nat)
    requires i < m <= |s|
    ensures multiset(PassTo(s, i)[..m]) == multiset(s[..m])
  {
    hide Swapped;
    if i > 0 {
      PassPermutes(s, i - 1, m);
      SwapPermutes(PassTo(s, i - 1), i - 1, m);
    }
  }

  /** An exchange in the first `m` elements is an exchange of those, and permutes them. */
  lemma {:induction false} SwapPermutes(s: seq<int>, i: nat, m: nat)
    requires i + 1 < m <= |s|
    ensures Swapped(s, i)[..m] == Swapped(s[..m], i) && |Swapped(s, i)| == |s|
    ensures multiset(Swapped(s, i)[..m]) == multiset(s[..m])
  {
    assert s[..m] == s[..i] + [s[i], s[i + 1]] + s[i + 2..m];
    assert Swapped(s, i)[..m] == s[..i] + [s[i + 1], s[i]] + s[i + 2..m];
  }

  /** Every interchange of a pass pays for one inversion, whichever prefix of the array
      (`m` elements, all of the pass included) they are counted in. */
  lemma {:induction false} PassPays(s: seq<int>, i: nat, m: nat)
    requires i < m <= |s|
    ensures Swaps(s, i) + Inversions(PassTo(s, i)[..m]) == Inversions(s[..m])
  {
    if i > 0 {
      PassPays(s, i - 1, m);
      var t := PassTo(s, i - 1);
      if t[i - 1] > t[i] {
        SwapPermutes(t, i - 1, m);
        SwapRemovesOne(t[..m], i - 1);
      }
    }
  }

  /** A pass without an interchange means the part it covered was sorted already. */
  lemma {:induction false} QuietPass(s: seq<int>, i: nat)
    requires i < |s| && Swaps(s, i) == 0
    ensures PassTo(s, i) == s && Sorted(s[..i + 1])
  {
    if i > 0 {
      QuietPass(s, i - 1);
      assert forall k :: 0 <= k < i ==> s[..i][k] <= s[..i][i - 1];
    }
  }

  // ---------- all passes ----------

  /** The last `i` of the first `n` elements are in their final places. */
  ghost predicate Settled(s: seq<int>, n: nat, i: nat) {
    i <= n <= |s| && forall j, k :: 0 <= j < k < n && n - i <= k ==> s[j] <= s[k]
  }

  lemma {:induction false} PassSettles(s: seq<int>, n: nat, i: nat)
    requires Settled(s, n, i) && i + 1 < n
    ensures Settled(PassTo(s, n - i - 1), n, i + 1)
  {
    var m := n - i;
    var t := PassTo(s, m - 1);
    PassMovesMaximum(s, m - 1);
    PassPermutes(s, m - 1, m);
    forall j, k | 0 <= j < k < n && n - (i + 1) <= k
      ensures t[j] <= t[k]
    {
      if k >= m && j < m {
        assert t[j] in multiset(t[..m]) by { assert t[..m][j] == t[j]; }
        assert t[j] in s[..m];
        var l :| 0 <= l < m && s[..m][l] == t[j];
        assert s[l] <= s[k];
      }
    }
  }

  class Sorter {
    var count: int

    method ClearCount()
      modifies this
      ensures count == 0
    {
      count := 0;
    }

    method OnePass(a: array<int>, n: int) returns (interchanges: bool)
      requires n <= a.Length
      modifies this, a
      ensures n <= 1 ==> !interchanges && a[..] == old(a[..]) && count == old(count)
      ensures n > 1 ==>
                && a[..] == PassTo(old(a[..]), n - 1)
                && count == old(count) + Swaps(old(a[..]), n - 1)
                && interchanges == (Swaps(old(a[..]), n - 1) > 0)
    {
      interchanges := false;
      var i := 0;
      ghost var was := a[..];
      while i < n - 1
        invariant 0 <= i && (i == 0 || i <= n - 1)
        invariant a[..] == PassTo(was, i)
        invariant count == old(count) + Swaps(was, i)
        invariant interchanges == (Swaps(was, i) > 0)
      {
        ghost var before := a[..];
        if a[i] > a[i + 1] {
          var temp := a[i];
          a[i] := a[i + 1];
          a[i + 1] := temp;
          interchanges := true;
          count := count + 1;
          assert a[..] == Swapped(before, i);
        }
        i := i + 1;
      }
    }

    /** The first `n` elements end up sorted, and the counter grows by the number of
        inversions they had. */
    method Sort(a: array<int>, n: int)
      requires n <= a.Length
      modifies this, a
      ensures n > 0 ==>
                && Sorted(a[..n]) && multiset(a[..n]) == multiset(old(a[..n]))
                && a[n..] == old(a[n..])
                && count == old(count) + Inversions(old(a[..n]))
      ensures n <= 0 ==> a[..] == old(a[..]) && count == old(count)
    {
      hide *;
      ghost var was, start := a[..], count;
      if n <= 0 {
        return;
      }
      Begin(was, start, n);
      assert was[..n] == a[..n] && was[n..] == a[n..];
      var i := 0;
      while i < n - 1
        invariant 0 <= i <= n - 1
        invariant Settled(a[..], n, i)
        invariant Progress(was, start, a[..], count, n)
      {
        ghost var before, had := a[..], count;
        var again := OnePass(a, n - i);
        PassProgress(was, start, before, had, n, i);
        if !again {
          QuietPass(before, n - i - 1);
          SortedFromQuiet(before, n, i);
          Finish(was, start, a[..], count, n);
          assert a[..][..n] == a[..n] && a[..][n..] == a[n..];
          return;
        }
        PassSettles(before, n, i);
        i := i + 1;
      }
      Finish(was, start, a[..], count, n);
      assert a[..][..n] == a[..n] && a[..][n..] == a[n..];
    }
  }

  /** What every pass keeps: the same elements, the counter paid up. */
  ghost predicate Progress(was: seq<int>, start: int, s: seq<int>, count: int, n: nat)
  {
    && n <= |was| == |s|
    && multiset(s[..n]) == multiset(was[..n]) && s[n..] == was[n..]
    && count + Inversions(s[..n]) == start + Inversions(was[..n])
  }

  lemma {:induction false} Begin(was: seq<int>, start: int, n: nat)
    requires n <= |was|
    ensures Progress(was, start, was, start, n) && Settled(was, n, 0)
  {
  }

  lemma {:induction false} PassProgress(was: seq<int>, start: int, s: seq<int>, count: int, n: nat, i: nat)
    requires Progress(was, start, s, count, n) && i + 1 < n
    ensures Progress(was, start, PassTo(s, n - i - 1), count + Swaps(s, n - i - 1), n)
  {
    PassMovesMaximum(s, n - i - 1);
    PassPermutes(s, n - i - 1, n);
    PassPays(s, n - i - 1, n);
  }

  lemma {:induction false} SortedFromQuiet(s: seq<int>, n: nat, i: nat)
    requires Settled(s, n, i) && i + 1 < n && Sorted(s[..n - i])
    ensures Settled(s, n, n - 1)
  {
    forall j, k | 0 <= j < k < n
      ensures s[j] <= s[k]
    {
      if k < n - i {
        assert s[..n - i][j] <= s[..n - i][k];
      }
    }
  }

  lemma {:induction false} Finish(was: seq<int>, start: int, s: seq<int>, count: int, n: nat)
    requires 0 < n && Progress(was, start, s, count, n) && Settled(s, n, n - 1)
    ensures Sorted(s[..n]) && multiset(s[..n]) == multiset(was[..n]) && s[n..] == was[n..]
    ensures count == start + Inversions(was[..n])
  {
    SortedIffNoInversions(s[..n]);
  }
}

/** Splitting a string into its maximal runs free of delimiters. */
module Tokens {
  /** A token occupies the characters from `from` up to, not including, `to`. */
  datatype Run = Run(from: nat, to: nat)

  /** The first place from `i` on that holds a delimiter (`want`) or none (`!want`). */
  function Seek(text: string, delims: string, i: nat, want: bool): (k: nat)
    requires i <= |text|
    ensures i <= k <= |text|
    decreases |text| - i
  {
    if i == |text| || (text[i] in delims) == want then i else Seek(text, delims, i + 1, want)
  }

  lemma {:induction false} SeekIsFirst(text: string, delims: string, i: nat, want: bool)
    requires i <= |text|
    ensures var k := Seek(text, delims, i, want);
            && (forall j :: i <= j < k ==> (text[j] in delims) != want)
            && (k < |text| ==> (text[k] in delims) == want)
    decreases |text| - i
  {
    if i < |text| && (text[i] in delims) != want {
      SeekIsFirst(text, delims, i + 1, want);
    }
  }

  /** The tokens that successive calls of `strtok` find from `i` on. */
  function From(text: string, delims: string, i: nat): (rs: seq<Run>)
    requires i <= |text|
    decreases |text| - i
  {
    var a := Seek(text, delims, i, false);
    if a == |text| then []
    else
      var b := Seek(text, delims, a, true);
      [Run(a, b)] + From(text, delims, if b < |text| then b + 1 else b)
  }

  function All(text: string, delims: string): seq<Run> {
    From(text, delims, 0)
  }

  /** Reference: a non-empty run without delimiters that cannot be extended. */
  ghost predicate Maximal(text: string, delims: string, r: Run) {
    && r.from < r.to <= |text|
    && (forall j :: r.from <= j < r.to ==> text[j] !in delims)
    && (r.from > 0 ==> text[r.from - 1] in delims)
    && (r.to < |text| ==> text[r.to] in delims)
  }

  ghost predicate InOrder(rs: seq<Run>) {
    forall i, j :: 0 <= i < j < |rs| ==> rs[i].to < rs[j].from
  }

  /** The tokens from `i` on are the maximal runs that start there, in order. */
  lemma {:induction false} FromIsMaximal(text: string, delims: string, i: nat)
    requires i <= |text| && (0 < i < |text| ==> text[i - 1] in delims)
    ensures InOrder(From(text, delims, i))
    ensures forall r :: r in From(text, delims, i) ==> Maximal(text, delims, r) && r.from >= i
    decreases |text| - i
  {
    var a := Seek(text, delims, i, false);
    SeekIsFirst(text, delims, i, false);
    if a < |text| {
      var b := Seek(text, delims, a, true);
      SeekIsFirst(text, delims, a, true);
      var next := if b < |text| then b + 1 else b;
      FromIsMaximal(text, delims, next);
      assert Maximal(text, delims, Run(a, b));
      OneInFront(text, delims, Run(a, b), next, From(text, delims, next));
      hide Seek, Maximal, InOrder;
    }
  }

  lemma {:induction false} OneInFront(text: string, delims: string, r: Run, next: nat, rest: seq<Run>)
    requires InOrder(rest) && next <= |text| && (r.to < next || next == |text|)
    requires forall q :: q in rest ==> Maximal(text, delims, q) && q.from >= next
    ensures InOrder([r] + rest)
  {
    forall k | 0 <= k < |rest|
      ensures r.to < rest[k].from
    {
      assert rest[k] in rest;
    }
  }

  lemma {:induction false} MaximalIsFound(text: string, delims: string, i: nat, r: Run)
    requires i <= |text| && Maximal(text, delims, r) && r.from >= i
    ensures r in From(text, delims, i)
    decreases |text| - i
  {
    var a := Seek(text, delims, i, false);
    SeekIsFirst(text, delims, i, false);
    assert text[r.from] !in delims;
    var b := Seek(text, delims, a, true);
    SeekIsFirst(text, delims, a, true);
    if r.from <= b {
      assert r == Run(a, b) by {
        assert r.from < b;
      }
    } else {
      MaximalIsFound(text, delims, b + 1, r);
    }
  }

  /** The tokens are exactly the maximal runs, in order. */
  lemma {:induction false} AllAreTheMaximalRuns(text: string, delims: string)
    ensures InOrder(All(text, delims))
    ensures forall r :: r in All(text, delims) <==> Maximal(text, delims, r)
  {
    FromIsMaximal(text, delims, 0);
    forall r | Maximal(text, delims, r)
      ensures r in All(text, delims)
    {
      MaximalIsFound(text, delims, 0, r);
    }
  }

  function Words(text: string, rs: seq<Run>): (ws: seq<string>)
    requires forall k :: 0 <= k < |rs| ==> rs[k].from <= rs[k].to <= |text|
    ensures |ws| == |rs| && forall k :: 0 <= k < |rs| ==> ws[k] == text[rs[k].from..rs[k].to]
  {
    seq(|rs|, k requires 0 <= k < |rs| => text[rs[k].from..rs[k].to])
  }

  lemma {:induction false} FromInside(text: string, delims: string, i: nat)
    requires i <= |text|
    ensures forall k :: 0 <= k < |From(text, delims, i)| ==>
              i <= From(text, delims, i)[k].from < From(text, delims, i)[k].to <= |text|
    decreases |text| - i
  {
    var a := Seek(text, delims, i, false);
    if a < |text| {
      var b := Seek(text, delims, a, true);
      SeekIsFirst(text, delims, i, false);
      SeekIsFirst(text, delims, a, true);
      FromInside(text, delims, if b < |text| then b + 1 else b);
    }
  }

  /** The argument strings that splitting `s` should give. */
  function Args(s: string, delims: string): seq<string> {
    FromInside(s, delims, 0);
    Words(s, All(s, delims))
  }

  lemma {:induction false} SeekShift(s: string, delims: string, k: nat, i: nat, want: bool)
    requires k + i <= |s|
    ensures Seek(s, delims, k + i, want) == k + Seek(s[k..], delims, i, want)
    decreases |s| - i
  {
    if k + i < |s| && (s[k + i] in delims) != want {
      SeekShift(s, delims, k, i + 1, want);
    }
  }

  function Shift(rs: seq<Run>, k: nat): seq<Run> {
    if rs == [] then [] else [Run(k + rs[0].from, k + rs[0].to)] + Shift(rs[1..], k)
  }

  lemma {:induction false} FromShift(s: string, t: string, delims: string, k: nat, i: nat)
    requires k <= |s| && t == s[k..] && i <= |t|
    ensures From(s, delims, k + i) == Shift(From(t, delims, i), k)
    decreases |t| - i
  {
    hide *;
    FromOne(s, delims, k + i);
    FromOne(t, delims, i);
    SeekShift(s, delims, k, i, false);
    var a := Seek(t, delims, i, false);
    if a < |t| {
      SeekShift(s, delims, k, a, true);
      var b := Seek(t, delims, a, true);
      var next := if b < |t| then b + 1 else b;
      FromShift(s, t, delims, k, next);
      ShiftCons(Run(a, b), From(t, delims, next), k);
    } else {
      ShiftNil(k);
    }
  }

  lemma {:induction false} ShiftCons(r: Run, rest: seq<Run>, k: nat)
    ensures Shift([r] + rest, k) == [Run(k + r.from, k + r.to)] + Shift(rest, k)
  {
    assert ([r] + rest)[1..] == rest;
  }

  lemma {:induction false} ShiftNil(k: nat)
    ensures Shift([], k) == []
  {
  }

  lemma {:induction false} FromOne(text: string, delims: string, i: nat)
    requires i <= |text|
    ensures var a := Seek(text, delims, i, false);
            From(text, delims, i) ==
            if a == |text| then []
            else
              var b := Seek(text, delims, a, true);
              [Run(a, b)] + From(text, delims, if b < |text| then b + 1 else b)
  {
  }

  lemma {:induction false} ShiftAt(rs: seq<Run>, k: nat, j: nat)
    requires j < |rs|
    ensures |Shift(rs, k)| == |rs| && Shift(rs, k)[j] == Run(k + rs[j].from, k + rs[j].to)
  {
    if |rs| > 1 {
      ShiftAt(rs[1..], k, if j == 0 then 0 else j - 1);
    }
  }

  /** Leading delimiters do not matter, and without them the first token starts at 0. */
  lemma {:induction false} SkipLeading(s: string, delims: string)
    ensures var k := Seek(s, delims, 0, false);
            && Args(s, delims) == Args(s[k..], delims)
            && (All(s[k..], delims) != [] ==> All(s[k..], delims)[0].from == 0)
  {
    hide Seek;
    var k := Seek(s, delims, 0, false);
    FromShift(s, s[k..], delims, k, 0);
    SeekStays(s, delims, 0, k);
    SeekShift(s, delims, k, 0, false);
    assert From(s, delims, k) == From(s, delims, 0);
    ArgsShift(s, delims, k);
  }

  lemma {:induction false} ArgsShift(s: string, delims: string, k: nat)
    requires k <= |s|
    requires All(s, delims) == Shift(All(s[k..], delims), k)
    ensures Args(s, delims) == Args(s[k..], delims)
  {
    hide From, Seek;
    FromInside(s, delims, 0);
    FromInside(s[k..], delims, 0);
    var ts := All(s[k..], delims);
    var rs := Shift(ts, k);
    assert ts == [] ==> rs == [];
    forall j | 0 <= j < |ts|
      ensures |rs| == |ts| && rs[j] == Run(k + ts[j].from, k + ts[j].to)
      ensures s[k..][ts[j].from..ts[j].to] == s[rs[j].from..rs[j].to]
    {
      ShiftAt(ts, k, j);
      assert ts[j].from < ts[j].to <= |s[k..]|;
    }
    hide Shift;
    assert Words(s, rs) == Words(s[k..], ts);
  }

  lemma {:induction false} SeekStays(s: string, delims: string, i: nat, k: nat)
    requires i <= |s| && k == Seek(s, delims, i, false)
    ensures Seek(s, delims, k, false) == k
  {
    SeekIsFirst(s, delims, i, false);
  }
}

/** The two-pass construction of an argument array, on explicit memory blocks. */
module MakeArgv {
  import opened Tokens

  const NUL: char := '\0'

  datatype Ptr = Null | Ptr(block: nat, off: nat)

  datatype Option<T> = None | Some(value: T)

  /** `buf` still holds `text` from place `i` on. */
  ghost predicate Untouched(buf: seq<char>, text: string, i: nat) {
    i <= |text| < |buf| && buf[|text|] == NUL && forall j :: i <= j < |text| ==> buf[j] == text[j]
  }

  /** The string at `off`. */
  ghost predicate StringAt(buf: seq<char>, off: nat, s: string) {
    off + |s| < |buf| && buf[off..off + |s|] == s && buf[off + |s|] == NUL && NUL !in s
  }

  /** Ending a token leaves the strings before it alone and makes the token a string. */
  lemma {:induction false} CutKeepsStrings(buf: seq<char>, text: string, r: Run, pos: nat, earlier: Run)
    requires NUL !in text && Untouched(buf, text, pos) && pos <= r.from < r.to <= |text|
    requires earlier.from < earlier.to <= |text|
    requires earlier == r || (earlier.to <= pos && StringAt(buf, earlier.from, text[earlier.from..earlier.to]))
    ensures StringAt(buf[r.to := NUL], earlier.from, text[earlier.from..earlier.to])
  {
    var buf', w := buf[r.to := NUL], text[earlier.from..earlier.to];
    assert buf'[earlier.from..earlier.to] == w by {
      if earlier != r {
        assert buf'[earlier.from..earlier.to] == buf[earlier.from..earlier.to];
      }
    }
  }

  class Memory {
    var chars: map<nat, seq<char>>
    var ptrs: map<nat, seq<Ptr>>
    /** Blocks are numbered in the order they are allocated. */
    var next: nat
    /** Where `strtok` continues. */
    var save: Ptr

    ghost predicate Valid()
      reads this
    {
      && (forall b :: b in chars ==> b < next) && (forall b :: b in ptrs ==> b < next)
      && chars.Keys !! ptrs.Keys
    }

    /** `malloc` of a block of characters and `strcpy` of `text` into it. */
    method NewCopy(text: string) returns (t: nat)
      requires Valid()
      modifies this
      ensures Valid() && t !in old(chars) && t !in old(ptrs)
      ensures chars == old(chars)[t := text + [NUL]] && ptrs == old(ptrs) && next >= old(next)
    {
      t := next;
      chars, next := chars[t := text + [NUL]], next + 1;
    }

    /** `free`, legal only for the base of a live block. */
    method Free(p: Ptr)
      requires Valid() && p.Ptr? && p.off == 0 && (p.block in chars || p.block in ptrs)
      modifies this
      ensures Valid() && chars == old(chars) - {p.block} && ptrs == old(ptrs) - {p.block}
    {
      chars, ptrs := chars - {p.block}, ptrs - {p.block};
    }

    /** `strspn` or `strcspn` on the string at `from`. */
    method Span(block: nat, from: nat, delims: string, want: bool, ghost text: string) returns (k: nat)
      requires block in chars && from <= |text| && NUL !in text && NUL !in delims
      requires Untouched(chars[block], text, from)
      ensures k == Seek(text, delims, from, want)
    {
      var buf := chars[block];
      k := from;
      while buf[k] != NUL && (buf[k] in delims) != want
        invariant from <= k <= |text| && Seek(text, delims, k, want) == Seek(text, delims, from, want)
        decreases |text| - k
      {
        k := k + 1;
      }
    }

    /** `strtok`: from `p`, or from where the last call stopped. */
    method StrTok(p: Ptr, delims: string, ghost text: string) returns (tok: Ptr)
      requires NUL !in text && NUL !in delims
      requires (if p == Null then save else p).Ptr?
      requires var start := if p == Null then save else p;
               start.block in chars && Untouched(chars[start.block], text, start.off)
      modifies this`chars, this`save
      ensures var start := if p == Null then old(save) else p;
              var a := Seek(text, delims, start.off, false);
              if a == |text| then tok == Null && chars == old(chars) && save == Ptr(start.block, |text|)
              else
                var b := Seek(text, delims, a, true);
                && tok == Ptr(start.block, a)
                && chars == old(chars)[start.block := old(chars)[start.block][b := NUL]]
                && save == Ptr(start.block, if b < |text| then b + 1 else b)
    {
      var start := if p == Null then save else p;
      var a := Span(start.block, start.off, delims, false, text);
      if chars[start.block][a] == NUL {
        save := Ptr(start.block, a);
        return Null;
      }
      var b := Span(start.block, a, delims, true, text);
      if chars[start.block][b] == NUL {
        save := Ptr(start.block, b);
        assert chars[start.block][b := NUL] == chars[start.block];
      } else {
        chars := chars[start.block := chars[start.block][b := NUL]];
        save := Ptr(start.block, b + 1);
      }
      tok := Ptr(start.block, a);
    }

    /** Everything but block `t` is as in `was`; the tokens from `pos` on are intact. */
    ghost predicate Scanning(was: map<nat, seq<char>>, t: nat, text: string, pos: nat)
      reads this
    {
      && t in chars && chars == was[t := chars[t]]
      && save == Ptr(t, pos) && Untouched(chars[t], text, pos)
    }

    /** One call of `strtok` while scanning block `t`. */
    method NextToken(p: Ptr, delims: string, ghost was: map<nat, seq<char>>, t: nat, ghost text: string, ghost pos: nat)
      returns (tok: Ptr, ghost pos': nat)
      requires NUL !in text && NUL !in delims && t in chars && chars == was[t := chars[t]]
      requires Untouched(chars[t], text, pos)
      requires p == Ptr(t, pos) || (p == Null && save == Ptr(t, pos))
      modifies this`chars, this`save
      ensures Scanning(was, t, text, pos') && |chars[t]| == |old(chars)[t]|
      ensures tok == Null <==> From(text, delims, pos) == []
      ensures tok != Null ==>
                var r := From(text, delims, pos)[0];
                && tok == Ptr(t, r.from) && pos <= r.from < r.to <= |text| && r.to <= pos'
                && From(text, delims, pos) == [r] + From(text, delims, pos')
                && chars[t] == old(chars)[t][r.to := NUL]
    {
      hide From, Seek;
      FromOne(text, delims, pos);
      FromInside(text, delims, pos);
      tok := StrTok(p, delims, text);
      pos' := save.off;
    }

    /** The counting pass. */
    method Count(delims: string, t: nat, ghost text: string) returns (n: nat)
      requires NUL !in text && NUL !in delims && t in chars && Untouched(chars[t], text, 0)
      modifies this`chars, this`save
      ensures n == |All(text, delims)|
      ensures t in chars && chars == old(chars)[t := chars[t]] && |chars[t]| == |old(chars)[t]|
    {
      hide From;
      n := 0;
      ghost var was := chars;
      ghost var pos;
      var tok;
      tok, pos := NextToken(Ptr(t, 0), delims, was, t, text, 0);
      if tok != Null {
        n := 1;
        while true
          invariant Scanning(was, t, text, pos) && |chars[t]| == |was[t]|
          invariant n + |From(text, delims, pos)| == |All(text, delims)|
          decreases |From(text, delims, pos)|
        {
          tok, pos := NextToken(Null, delims, was, t, text, pos);
          if tok == Null {
            break;
          }
          n := n + 1;
        }
      }
    }

    /** The pointers made so far: each to its token, which is now a string of its own. */
    ghost predicate Filled(argv: nat, t: nat, text: string, rs: seq<Run>, i: nat)
      reads this
    {
      && t in chars && argv in ptrs && i <= |rs| < |ptrs[argv]|
      && (forall k :: 0 <= k < |rs| ==> rs[k].from < rs[k].to <= |text|)
      && forall k :: 0 <= k < i ==>
           && ptrs[argv][k] == Ptr(t, rs[k].from)
           && StringAt(chars[t], rs[k].from, text[rs[k].from..rs[k].to])
    }

    /** The filling pass. */
    method Fill(delims: string, argv: nat, t: nat, ghost text: string, n: nat)
      requires NUL !in text && NUL !in delims && t in chars && Untouched(chars[t], text, 0)
      requires n == |All(text, delims)| > 0 && argv in ptrs && |ptrs[argv]| == n + 1
      modifies this`chars, this`ptrs, this`save
      ensures Filled(argv, t, text, All(text, delims), n) && argv in ptrs && t in chars && |ptrs[argv]| == n + 1
      ensures chars == old(chars)[t := chars[t]] && ptrs == old(ptrs)[argv := ptrs[argv]]
    {
      hide From;
      ghost var was, rs, pos := chars, All(text, delims), 0;
      FromInside(text, delims, 0);
      var i := 0;
      while i < n
        invariant 0 <= i <= n
        invariant t in chars && chars == was[t := chars[t]] && Untouched(chars[t], text, pos)
        invariant i > 0 ==> save == Ptr(t, pos)
        invariant i == 0 ==> pos == 0
        invariant Filled(argv, t, text, rs, i) && |ptrs[argv]| == n + 1
        invariant ptrs == old(ptrs)[argv := ptrs[argv]]
        invariant From(text, delims, pos) == rs[i..]
        invariant forall k :: 0 <= k < i ==> rs[k].to <= pos
      {
        var tok;
        ghost var buf, pos' := chars[t], pos;
        tok, pos := NextToken(if i == 0 then Ptr(t, 0) else Null, delims, was, t, text, pos);
        assert rs[i] == From(text, delims, pos')[0];
        forall k | 0 <= k <= i
          ensures StringAt(chars[t], rs[k].from, text[rs[k].from..rs[k].to])
        {
          CutKeepsStrings(buf, text, rs[i], pos', rs[k]);
        }
        ptrs := ptrs[argv := ptrs[argv][i := tok]];
        i := i + 1;
      }
    }

    /** Argument arrays: the strings of `words`, then NULL.  All strings lie in one block,
        the first one at its base. */
    ghost predicate IsArgv(argv: Ptr, words: seq<string>)
      reads this
    {
      && argv.Ptr? && argv.off == 0 && argv.block in ptrs
      && var a := ptrs[argv.block];
         && |a| == |words| + 1 && a[|words|] == Null
         && (words != [] ==> a[0].Ptr? && a[0].off == 0 && a[0].block in chars)
         && forall k :: 0 <= k < |words| ==>
              a[k].Ptr? && a[k].block == a[0].block && StringAt(chars[a[0].block], a[k].off, words[k])
    }

    /** `makeargv`; `s` or `delims` None stands for a NULL argument. */
    method MakeArgv(s: Option<string>, delims: Option<string>) returns (n: int, argv: Ptr)
      requires Valid() && (s.Some? ==> NUL !in s.value) && (delims.Some? ==> NUL !in delims.value)
      modifies this
      ensures Valid()
      ensures s == None || delims == None ==> n == -1 && argv == Null && chars == old(chars) && ptrs == old(ptrs)
      ensures s.Some? && delims.Some? ==>
                && n == |Args(s.value, delims.value)| && IsArgv(argv, Args(s.value, delims.value))
                && argv.block !in old(chars) && argv.block !in old(ptrs)
                && ptrs == old(ptrs)[argv.block := ptrs[argv.block]]
                && (if n == 0 then chars == old(chars)
                    else
                      var t := ptrs[argv.block][0].block;
                      t !in old(chars) && t !in old(ptrs) && chars == old(chars)[t := chars[t]])
    {
      hide *;
      if s == None || delims == None {
        return -1, Null;
      }
      var k := Skip(s.value, delims.value);
      SkipLeading(s.value, delims.value);
      n, argv := Build(s.value[k..], delims.value);
    }

    /** The rest of `makeargv`, for a string without leading delimiters. */
    method Build(text: string, delims: string) returns (n: int, argv: Ptr)
      requires Valid() && NUL !in text && NUL !in delims
      requires All(text, delims) != [] ==> All(text, delims)[0].from == 0
      modifies this
      ensures Valid() && n == |Args(text, delims)| && IsArgv(argv, Args(text, delims))
      ensures argv.block !in old(chars) && argv.block !in old(ptrs)
      ensures ptrs == old(ptrs)[argv.block := ptrs[argv.block]]
      ensures if n == 0 then chars == old(chars)
              else
                var t := ptrs[argv.block][0].block;
                t !in old(chars) && t !in old(ptrs) && chars == old(chars)[t := chars[t]]
    {
      hide From, Seek, Args, IsArgv, Filled;
      var t, block;
      t, n, block := Allocate(text, delims);
      argv := Ptr(block, 0);
      if n == 0 {
        Free(Ptr(t, 0));
      } else {
        chars := chars[t := text + [NUL]];
        Fill(delims, argv.block, t, text, n);
      }
      Terminate(argv.block, delims, t, text, n);
    }

    /** The copy of the text, the counting pass over it, and a pointer array of that size. */
    method Allocate(text: string, delims: string) returns (t: nat, n: nat, argv: nat)
      requires Valid() && NUL !in text && NUL !in delims
      modifies this
      ensures Valid() && t !in old(chars) && t !in old(ptrs) && argv !in old(chars) && argv !in old(ptrs) && t != argv
      ensures t in chars && chars == old(chars)[t := chars[t]]
      ensures argv in ptrs && ptrs == old(ptrs)[argv := ptrs[argv]] && |ptrs[argv]| == n + 1
      ensures n == |All(text, delims)|
    {
      hide All;
      t := NewCopy(text);
      n := Count(delims, t, text);
      argv := next;
      var junk: Ptr := *;
      ptrs, next := ptrs[argv := seq(n + 1, _ => junk)], next + 1;
    }

    /** The final NULL pointer. */
    method Terminate(argv: nat, delims: string, ghost t: nat, ghost text: string, n: nat)
      requires n == |All(text, delims)| && argv in ptrs && |ptrs[argv]| == n + 1 && Valid()
      requires n > 0 ==> Filled(argv, t, text, All(text, delims), n) && All(text, delims)[0].from == 0
      modifies this`ptrs
      ensures Valid() && ptrs == old(ptrs)[argv := old(ptrs)[argv][n := Null]]
      ensures n == |Args(text, delims)| && IsArgv(Ptr(argv, 0), Args(text, delims))
      ensures n > 0 ==> ptrs[argv][0].Ptr? && ptrs[argv][0].block == t
    {
      hide From, Seek;
      FromInside(text, delims, 0);
      ptrs := ptrs[argv := ptrs[argv][n := Null]];
    }

    /** `strspn` of the argument. */
    method Skip(s: string, delims: string) returns (k: nat)
      ensures k == Seek(s, delims, 0, false)
    {
      k := 0;
      while k < |s| && s[k] in delims
        invariant k <= |s| && Seek(s, delims, k, false) == Seek(s, delims, 0, false)
      {
        k := k + 1;
      }
    }

    /** `freemakeargv`: every call of `free` is legal. */
    method FreeMakeArgv(argv: Ptr, ghost words: seq<string>)
      requires Valid() && (argv != Null ==> IsArgv(argv, words))
      modifies this
      ensures Valid()
      ensures argv == Null ==> chars == old(chars) && ptrs == old(ptrs)
      ensures argv != Null ==>
                && ptrs == old(ptrs) - {argv.block}
                && chars == if words == [] then old(chars) else old(chars) - {old(ptrs)[argv.block][0].block}
    {
      if argv == Null {
        return;
      }
      if ptrs[argv.block][0] != Null {
        Free(ptrs[argv.block][0]);
      }
      Free(argv);
    }

    /** Making an argument array and freeing it leaves exactly the blocks there were. */
    method RoundTrip(s: Option<string>, delims: Option<string>)
      requires Valid() && (s.Some? ==> NUL !in s.value) && (delims.Some? ==> NUL !in delims.value)
      modifies this
      ensures Valid() && chars == old(chars) && ptrs == old(ptrs)
    {
      var n, argv := MakeArgv(s, delims);
      FreeMakeArgv(argv, if n == -1 then [] else Args(s.value, delims.value));
    }
  }
}

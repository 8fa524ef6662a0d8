/** The environment as a list of "name=value" strings, and the map it stands for. */
module EnvList {
  const NUL: char := '\0'

  datatype Option<T> = None | Some(value: T)

  /** The test both functions make: the entry starts with `name` followed by '='. */
  predicate Matches(entry: string, name: string) {
    |name| < |entry| && entry[..|name|] == name && entry[|name|] == '='
  }

  predicate LegalName(name: string) {
    name != "" && '=' !in name
  }

  function Entry(name: string, val: string): string {
    name + "=" + val
  }

  function First(env: seq<string>, name: string): (i: nat)
    ensures i <= |env|
    ensures i < |env| ==> Matches(env[i], name)
    ensures forall j :: 0 <= j < i ==> !Matches(env[j], name)
  {
    if env == [] then 0
    else if Matches(env[0], name) then 0
    else
      var i := First(env[1..], name);
      assert forall j :: 1 <= j < i + 1 ==> env[j] == env[1..][j - 1];
      i + 1
  }

  /** One past the last match, 0 if there is none. */
  function Last(env: seq<string>, name: string): (i: nat)
    ensures i <= |env|
    ensures i > 0 ==> Matches(env[i - 1], name)
    ensures forall j :: i <= j < |env| ==> !Matches(env[j], name)
  {
    if env == [] then 0
    else if Matches(env[|env| - 1], name) then |env|
    else Last(env[..|env| - 1], name)
  }

  // ---------- the operations on lists ----------

  function Set(env: seq<string>, name: string, val: string, overwrite: bool): seq<string> {
    var i := First(env, name);
    if i == |env| then env + [Entry(name, val)]
    else if overwrite then env[i := Entry(name, val)]
    else env
  }

  function Unset(env: seq<string>, name: string): seq<string> {
    var i := Last(env, name);
    if i == 0 then env else env[..i - 1] + env[i..]
  }

  /** What `getenv` finds. */
  function Get(env: seq<string>, name: string): Option<string> {
    var i := First(env, name);
    if i == |env| then None else Some(env[i][|name| + 1..])
  }

  // ---------- names ----------

  /** An entry's name: what stands before its first '='. */
  function NameOf(entry: string): Option<string> {
    if entry == "" then None
    else if entry[0] == '=' then Some("")
    else match NameOf(entry[1..])
      case None => None
      case Some(rest) => Some([entry[0]] + rest)
  }

  /** The test holds for the entry's own name and for nothing else, in particular for no
      name that is merely a prefix of it. */
  lemma {:induction false} MatchesOwnNameOnly(entry: string, name: string)
    requires '=' !in name
    ensures Matches(entry, name) <==> NameOf(entry) == Some(name)
  {
    if entry == "" {
    } else if entry[0] == '=' {
      assert name != "" ==> name[0] != '=';
      assert |entry| > |name| > 0 ==> entry[..|name|][0] == '=';
    } else if name == "" {
    } else {
      assert name == [name[0]] + name[1..];
      MatchesOwnNameOnly(entry[1..], name[1..]);
      if |name| < |entry| {
        assert entry[..|name|] == [entry[0]] + entry[1..][..|name| - 1];
      }
    }
  }

  lemma {:induction false} EntryName(name: string, val: string)
    requires '=' !in name
    ensures Matches(Entry(name, val), name) && NameOf(Entry(name, val)) == Some(name)
    ensures Entry(name, val)[|name| + 1..] == val
  {
    assert Entry(name, val)[..|name|] == name;
    MatchesOwnNameOnly(Entry(name, val), name);
  }

  /** No two entries have the same name. */
  ghost predicate Unique(env: seq<string>) {
    forall i, j :: 0 <= i < j < |env| && NameOf(env[i]).Some? ==> NameOf(env[i]) != NameOf(env[j])
  }

  lemma {:induction false} SetUnique(env: seq<string>, name: string, val: string, overwrite: bool)
    requires Unique(env) && LegalName(name)
    ensures Unique(Set(env, name, val, overwrite))
  {
    EntryName(name, val);
    NamesMatch(env, name);
  }

  lemma {:induction false} UnsetUnique(env: seq<string>, name: string)
    requires Unique(env)
    ensures Unique(Unset(env, name))
  {
  }

  // ---------- the map ----------

  /** `env` stands for `m`. */
  ghost predicate Represents(env: seq<string>, m: map<string, string>) {
    forall name :: LegalName(name) ==> Get(env, name) == if name in m then Some(m[name]) else None
  }

  /** `setenv` changes the named variable and no other. */
  lemma {:induction false} SetGet(env: seq<string>, name: string, val: string, overwrite: bool, other: string)
    requires LegalName(name) && LegalName(other)
    ensures Get(Set(env, name, val, overwrite), other) ==
            if other != name then Get(env, other)
            else if overwrite || Get(env, name) == None then Some(val)
            else Get(env, name)
  {
    EntryName(name, val);
    var env' := Set(env, name, val, overwrite);
    var i, k, k' := First(env, name), First(env, other), First(env', other);
    MatchesOwnNameOnly(Entry(name, val), other);
    if i < |env| {
      MatchesOwnNameOnly(env[i], name);
      MatchesOwnNameOnly(env[i], other);
    }
    SameFirst(env, env', other, i, name == other);
  }

  /** Lists that differ only in one entry, which does or does not match. */
  lemma {:induction false} SameFirst(env: seq<string>, env': seq<string>, other: string, i: nat, hit: bool)
    requires i <= |env| && |env'| == (if i == |env| then |env| + 1 else |env|)
    requires forall j :: 0 <= j < |env| && j != i ==> env'[j] == env[j]
    requires Matches(env'[i], other) == hit && (i < |env| ==> Matches(env[i], other) == hit)
    requires hit ==> i == First(env, other)
    ensures if hit then First(env', other) == i
            else if First(env, other) == |env| then First(env', other) == |env'|
            else First(env', other) == First(env, other) && env'[First(env, other)] == env[First(env, other)]
  {
  }

  lemma {:induction false} FirstIs(env: seq<string>, name: string, i: nat)
    requires i <= |env| && (i < |env| ==> Matches(env[i], name))
    requires forall j :: 0 <= j < i ==> !Matches(env[j], name)
    ensures First(env, name) == i
  {
  }

  lemma {:induction false} LastIs(env: seq<string>, name: string, i: int)
    requires -1 <= i < |env| && (i >= 0 ==> Matches(env[i], name))
    requires forall j :: i < j < |env| ==> !Matches(env[j], name)
    ensures Last(env, name) == i + 1
  {
  }

  /** `unsetenv` changes no other variable. */
  lemma {:induction false} UnsetOther(env: seq<string>, name: string, other: string)
    requires LegalName(name) && LegalName(other) && other != name
    ensures Get(Unset(env, name), other) == Get(env, other)
  {
    var i, env', k := Last(env, name), Unset(env, name), First(env, other);
    if i > 0 {
      MatchesOwnNameOnly(env[i - 1], name);
      MatchesOwnNameOnly(env[i - 1], other);
      assert forall j :: 0 <= j < |env'| ==> env'[j] == env[if j < i - 1 then j else j + 1];
      FirstIs(env', other, if k < i - 1 then k else k - 1);
    }
  }

  /** The named variable is gone exactly when it did not occur twice, since only its last
      entry is removed. */
  lemma {:induction false} UnsetNamed(env: seq<string>, name: string)
    requires LegalName(name)
    ensures Get(Unset(env, name), name) == None <==> Last(env, name) <= First(env, name) + 1
  {
    var i, f, env' := Last(env, name), First(env, name), Unset(env, name);
    if i > 0 {
      assert forall j :: 0 <= j < |env'| ==> env'[j] == env[if j < i - 1 then j else j + 1];
      FirstIs(env', name, if f < i - 1 then f else |env'|);
    }
  }

  /** A variable entered twice is still there after `unsetenv`. */
  lemma {:induction false} DuplicateSurvives()
    ensures Get(Unset(["A=1", "A=2"], "A"), "A") == Some("1")
  {
    var env := ["A=1", "A=2"];
    assert Matches(env[0], "A") && Matches(env[1], "A");
    LastIs(env, "A", 1);
    assert Unset(env, "A") == ["A=1"];
    FirstIs(["A=1"], "A", 0);
    assert "A=1"[2..] == "1";
  }

  lemma {:induction false} UniqueOnce(env: seq<string>, name: string)
    requires Unique(env) && LegalName(name)
    ensures Last(env, name) <= First(env, name) + 1
  {
    var f, l := First(env, name), Last(env, name);
    if f + 1 < l {
      MatchesOwnNameOnly(env[f], name);
      MatchesOwnNameOnly(env[l - 1], name);
      assert false;
    }
  }

  /** `setenv` writes one entry: over the first one of that name, if it may, or behind the
      last entry when there is none; all others stay in their places. */
  lemma {:induction false} SetChangesOneEntry(env: seq<string>, name: string, val: string, overwrite: bool, i: nat)
    requires LegalName(name) && i <= |env| && (i < |env| ==> NameOf(env[i]) == Some(name))
    requires forall j :: 0 <= j < i ==> NameOf(env[j]) != Some(name)
    ensures Set(env, name, val, overwrite) ==
            if i == |env| then env + [name + "=" + val] else if overwrite then env[i := name + "=" + val] else env
  {
    NamesMatch(env, name);
    FirstIs(env, name, i);
  }

  /** `unsetenv` takes out the last entry of that name and nothing else. */
  lemma {:induction false} UnsetRemovesOneEntry(env: seq<string>, name: string, i: int)
    requires LegalName(name) && -1 <= i < |env| && (i >= 0 ==> NameOf(env[i]) == Some(name))
    requires forall j :: i < j < |env| ==> NameOf(env[j]) != Some(name)
    ensures Unset(env, name) == if i == -1 then env else env[..i] + env[i + 1..]
  {
    NamesMatch(env, name);
    LastIs(env, name, i);
  }

  lemma {:induction false} NamesMatch(env: seq<string>, name: string)
    requires '=' !in name
    ensures forall j :: 0 <= j < |env| ==> (Matches(env[j], name) <==> NameOf(env[j]) == Some(name))
  {
    forall j | 0 <= j < |env|
      ensures Matches(env[j], name) <==> NameOf(env[j]) == Some(name)
    {
      MatchesOwnNameOnly(env[j], name);
    }
  }

  // ---------- runs ----------

  datatype Call = SetEnv(name: string, val: string, overwrite: bool) | UnsetEnv(name: string)

  /** The list after a call; an illegal name is an error and changes nothing. */
  function Perform(env: seq<string>, c: Call): seq<string> {
    if !LegalName(c.name) then env
    else if c.SetEnv? then Set(env, c.name, c.val, c.overwrite)
    else Unset(env, c.name)
  }

  function PerformAll(env: seq<string>, calls: seq<Call>): seq<string>
    decreases |calls|
  {
    if calls == [] then env else PerformAll(Perform(env, calls[0]), calls[1..])
  }

  function Update(m: map<string, string>, c: Call): map<string, string> {
    if !LegalName(c.name) then m
    else if c.SetEnv? then (if c.overwrite || c.name !in m then m[c.name := c.val] else m)
    else m - {c.name}
  }

  function UpdateAll(m: map<string, string>, calls: seq<Call>): map<string, string>
    decreases |calls|
  {
    if calls == [] then m else UpdateAll(Update(m, calls[0]), calls[1..])
  }

  lemma {:induction false} CallRepresents(env: seq<string>, m: map<string, string>, c: Call)
    requires Unique(env) && Represents(env, m)
    ensures Unique(Perform(env, c)) && Represents(Perform(env, c), Update(m, c))
  {
    if LegalName(c.name) {
      match c {
        case SetEnv(name, val, overwrite) =>
          SetUnique(env, name, val, overwrite);
          forall other | LegalName(other)
            ensures Get(Perform(env, c), other) == if other in Update(m, c) then Some(Update(m, c)[other]) else None
          {
            SetGet(env, name, val, overwrite, other);
          }
        case UnsetEnv(name) =>
          UnsetUnique(env, name);
          UniqueOnce(env, name);
          forall other | LegalName(other)
            ensures Get(Perform(env, c), other) == if other in Update(m, c) then Some(Update(m, c)[other]) else None
          {
            if other == name { UnsetNamed(env, name); } else { UnsetOther(env, name, other); }
          }
      }
    }
  }

  /** Over any run of calls the list stays a faithful map with unique names. */
  lemma {:induction false} RunRepresents(env: seq<string>, m: map<string, string>, calls: seq<Call>)
    requires Unique(env) && Represents(env, m)
    ensures Unique(PerformAll(env, calls)) && Represents(PerformAll(env, calls), UpdateAll(m, calls))
    decreases |calls|
  {
    if calls != [] {
      CallRepresents(env, m, calls[0]);
      RunRepresents(Perform(env, calls[0]), Update(m, calls[0]), calls[1..]);
    }
  }
}

/** The functions on memory: a NULL-terminated array of pointers to NUL-terminated
    buffers, searched in loops and overwritten, replaced, grown or shifted in place. */
module Environ {
  import opened EnvList

  function StrLen(buf: seq<char>): (n: nat)
    requires NUL in buf
    ensures n < |buf| && buf[n] == NUL && NUL !in buf[..n]
  {
    if buf[0] == NUL then 0
    else
      var n := StrLen(buf[1..]);
      assert buf[..n + 1] == [buf[0]] + buf[1..][..n];
      n + 1
  }

  /** The C string in a buffer. */
  function CString(buf: seq<char>): string
    requires NUL in buf
  {
    buf[..StrLen(buf)]
  }

  lemma {:induction false} CStringIs(buf: seq<char>, s: string)
    requires |s| < |buf| && buf[..|s|] == s && buf[|s|] == NUL && NUL !in s
    ensures NUL in buf && CString(buf) == s
  {
    var n := StrLen(buf);
    assert forall k :: 0 <= k < |s| ==> buf[k] == s[k];
    assert forall k :: 0 <= k < n ==> buf[k] == buf[..n][k];
  }

  /** `strcpy` and `strcat` into a new block. */
  method NewString(name: string, val: string) returns (s: array<char>)
    requires NUL !in name && NUL !in val
    ensures fresh(s) && NUL in s[..] && CString(s[..]) == Entry(name, val)
  {
    var text := name + "=" + val;
    s := new char[|name| + 1 + |val| + 1](i requires 0 <= i < |name| + 1 + |val| + 1 => if i < |text| then text[i] else NUL);
    assert s[..][..|text|] == text;
    CStringIs(s[..], text);
  }

  /** `strcpy` over the tail of a string, which must be long enough. */
  method Overwrite(buf: array<char>, at: nat, val: string)
    requires NUL in buf[..] && at <= StrLen(buf[..]) && |val| <= StrLen(buf[..]) - at && NUL !in val
    modifies buf
    ensures NUL in buf[..] && CString(buf[..]) == old(CString(buf[..]))[..at] + val
  {
    ghost var was := buf[..];
    var k := 0;
    while k < |val|
      invariant 0 <= k <= |val|
      invariant buf[..at] == was[..at] && buf[at..at + k] == val[..k]
    {
      buf[at + k] := val[k];
      k := k + 1;
    }
    buf[at + k] := NUL;
    assert buf[..][..at + |val|] == was[..at] + val;
    assert was[..at] == was[..StrLen(was)][..at];
    CStringIs(buf[..], was[..at] + val);
  }

  class Process {
    var environ: array<array?<char>>
    /** The pointers before the terminating NULL. */
    ghost var bufs: seq<array<char>>

    ghost predicate Valid()
      reads this, environ, bufs
    {
      && |bufs| < environ.Length && environ[|bufs|] == null
      && (forall i :: 0 <= i < |bufs| ==> environ[i] == bufs[i] && NUL in bufs[i][..])
      && (forall i, j :: 0 <= i < j < |bufs| ==> bufs[i] != bufs[j])
    }

    ghost function Contents(): (env: seq<string>)
      requires Valid()
      reads this, environ, bufs
      ensures |env| == |bufs| && forall i :: 0 <= i < |bufs| ==> env[i] == CString(bufs[i][..])
    {
      seq(|bufs|, i requires 0 <= i < |bufs| && Valid() reads this, environ, bufs => CString(bufs[i][..]))
    }

    /** The search loop of `setenv`. */
    method Find(name: string) returns (i: nat)
      requires Valid()
      ensures Valid() && i == First(Contents(), name)
    {
      i := 0;
      while environ[i] != null
        invariant i <= |bufs| && Valid()
        invariant forall j :: 0 <= j < i ==> !Matches(Contents()[j], name)
        decreases |bufs| - i
      {
        if Matches(CString(environ[i][..]), name) {
          break;
        }
        i := i + 1;
      }
      FirstIs(Contents(), name, i);
    }

    /** A larger pointer array with the same strings. */
    method Grow(i: nat)
      requires Valid() && i == |bufs|
      modifies this
      ensures Valid() && bufs == old(bufs) && Contents() == old(Contents())
      ensures fresh(environ) && environ.Length == i + 2 && environ[i + 1] == null
    {
      var e := new array?<char>[i + 2](_ => null);
      var k := 0;
      while k < i
        invariant 0 <= k <= i && Valid() && e.Length == i + 2 && e[i] == e[i + 1] == null
        invariant bufs == old(bufs) && environ == old(environ)
        invariant forall j :: 0 <= j < k ==> e[j] == environ[j]
      {
        e[k] := environ[k];
        k := k + 1;
      }
      environ := e;
      assert Contents() == old(Contents());
    }

    /** `setnew`: a new string for place `i`, which may be the one after the last. */
    method SetNew(i: nat, name: string, val: string)
      requires Valid() && i <= |bufs| && (i == |bufs| ==> i + 1 < environ.Length && environ[i + 1] == null)
      requires NUL !in name && NUL !in val
      modifies this, environ
      ensures Valid() && environ == old(environ) && forall b :: b in bufs ==> b in old(bufs) || fresh(b)
      ensures Contents() == if i == old(|bufs|) then old(Contents()) + [Entry(name, val)] else old(Contents())[i := Entry(name, val)]
    {
      var s := NewString(name, val);
      environ[i] := s;
      bufs := bufs[..i] + [s] + if i < |bufs| then bufs[i + 1..] else [];
    }

    /** `setenv`; a NULL pointer is None.  The result is 0 or -1. */
    method SetEnv(name: Option<string>, val: Option<string>, overwrite: bool) returns (r: int)
      requires Valid() && (name.Some? ==> NUL !in name.value) && (val.Some? ==> NUL !in val.value)
      modifies this, environ, bufs
      ensures Valid() && (environ == old(environ) || fresh(environ)) && forall b :: b in bufs ==> b in old(bufs) || fresh(b)
      ensures r == if name.Some? && val.Some? && name.value != "" && '=' !in name.value then 0 else -1
      ensures Contents() ==
              if r == 0 then Set(old(Contents()), name.value, val.value, overwrite) else old(Contents())
    {
      hide Last, Matches, CString;
      if name.None? || val.None? || !LegalName(name.value) {
        return -1;
      }
      var i := Find(name.value);
      if environ[i] == null {
        Grow(i);
        SetNew(i, name.value, val.value);
      } else if overwrite {
        ReplaceValue(i, name.value, val.value);
      }
      r := 0;
    }

    /** Overwriting in place when the old value is long enough, else with a new string. */
    method ReplaceValue(i: nat, name: string, val: string)
      requires Valid() && i < |bufs| && Matches(Contents()[i], name) && NUL !in name && NUL !in val
      modifies this, environ, bufs
      ensures Valid() && environ == old(environ) && forall b :: b in bufs ==> b in old(bufs) || fresh(b)
      ensures Contents() == old(Contents())[i := Entry(name, val)]
    {
      var entry := CString(environ[i][..]);
      if |entry| - (|name| + 1) >= |val| {
        var buf := environ[i];
        Overwrite(buf, |name| + 1, val);
        assert entry[..|name| + 1] == name + "=";
        assert forall j :: 0 <= j < |bufs| && j != i ==> bufs[j] != buf && bufs[j][..] == old(bufs[j][..]);
        assert Contents() == old(Contents())[i := Entry(name, val)];
      } else {
        SetNew(i, name, val);
      }
    }

    /** `unsetenv`. */
    method UnsetEnv(name: Option<string>) returns (r: int)
      requires Valid() && (name.Some? ==> NUL !in name.value)
      modifies this`bufs, environ
      ensures Valid() && forall b :: b in bufs ==> b in old(bufs)
      ensures r == if name.Some? && name.value != "" && '=' !in name.value then 0 else -1
      ensures Contents() == if r == 0 then Unset(old(Contents()), name.value) else old(Contents())
    {
      hide First, Last, Matches, CString;
      if name.None? || !LegalName(name.value) {
        return -1;
      }
      var found, i := FindLast(name.value);
      if found != -1 {
        ShiftDown(found, i);
      }
      r := 0;
    }

    /** The search loop of `unsetenv`: the last match, and the place of the NULL. */
    method FindLast(name: string) returns (found: int, i: nat)
      requires Valid()
      ensures Valid() && found + 1 == Last(Contents(), name) && i == |bufs|
    {
      found, i := -1, 0;
      while environ[i] != null
        invariant i <= |bufs| && Valid() && -1 <= found < i
        invariant found != -1 ==> Matches(Contents()[found], name)
        invariant forall j :: found < j < i ==> !Matches(Contents()[j], name)
        decreases |bufs| - i
      {
        if Matches(CString(environ[i][..]), name) {
          found := i;
        }
        i := i + 1;
      }
      LastIs(Contents(), name, found);
    }

    /** Taking entry `found` out of the array. */
    method ShiftDown(found: nat, end: nat)
      requires Valid() && found < end == |bufs|
      modifies this`bufs, environ
      ensures Valid() && forall b :: b in bufs ==> b in old(bufs)
      ensures Contents() == old(Contents())[..found] + old(Contents())[found + 1..]
    {
      hide CString;
      MovePointers(found, end);
      bufs := bufs[..found] + bufs[found + 1..];
      assert forall j :: 0 <= j < |bufs| ==> bufs[j] == old(bufs)[if j < found then j else j + 1];
    }

    /** `memmove` of the pointers after `found`, the terminating NULL included. */
    method MovePointers(found: nat, end: nat)
      requires found < end < environ.Length
      modifies environ
      ensures forall j :: 0 <= j < found ==> environ[j] == old(environ[j])
      ensures forall j :: found <= j < end ==> environ[j] == old(environ[j + 1])
    {
      var k := found;
      while k < end
        invariant found <= k <= end
        invariant forall j :: 0 <= j < found ==> environ[j] == old(environ[j])
        invariant forall j :: found <= j < k ==> environ[j] == old(environ[j + 1])
        invariant forall j :: k <= j <= end ==> environ[j] == old(environ[j])
      {
        environ[k] := environ[k + 1];
        k := k + 1;
      }
    }
  }
}

/** Directory trees, and what a path name means in them. */
module Directories {
  /** A device and an inode number: what identifies a file. */
  datatype Id = Id(dev: int, ino: int)

  datatype Entry = Entry(name: string, id: Id)

  /** A directory as `readdir` lists it, "." and ".." included, in any order. */
  datatype Dir = Dir(parent: Id, entries: seq<Entry>)

  datatype Option<T> = None | Some(value: T)

  type Tree = map<Id, Dir>

  ghost predicate LegalName(name: string) {
    name != "" && '/' !in name
  }

  ghost predicate DirOk(tree: Tree, d: Id)
    requires d in tree
  {
    var es := tree[d].entries;
    && tree[d].parent in tree
    && (forall i :: 0 <= i < |es| ==> LegalName(es[i].name))
    && (forall i, j :: 0 <= i < j < |es| ==> es[i].name != es[j].name)
    && (forall i :: 0 <= i < |es| && es[i].name == "." ==> es[i].id == d)
    && (forall i :: 0 <= i < |es| && es[i].name == ".." ==> es[i].id == tree[d].parent)
  }

  /** Every directory but the root is deeper than its parent. */
  ghost predicate WellFormed(tree: Tree, root: Id, depth: map<Id, nat>) {
    && root in tree && tree[root].parent == root && depth.Keys == tree.Keys
    && (forall d :: d in tree ==> DirOk(tree, d))
    && (forall d :: d in tree && d != root ==> depth[tree[d].parent] < depth[d])
  }

  ghost predicate Lists(tree: Tree, p: Id, d: Id)
    requires p in tree
  {
    exists i :: 0 <= i < |tree[p].entries| && tree[p].entries[i].id == d
  }

  /** The directory and all those above it are listed in their parents, as in a tree
      nobody is removing directories from. */
  ghost predicate Listed(tree: Tree, root: Id, depth: map<Id, nat>, d: Id)
    requires WellFormed(tree, root, depth) && d in tree
    decreases depth[d]
  {
    d == root || (DirOk(tree, d) && Lists(tree, tree[d].parent, d) && Listed(tree, root, depth, tree[d].parent))
  }

  function Lookup(es: seq<Entry>, name: string): Option<Id> {
    if es == [] then None else if es[0].name == name then Some(es[0].id) else Lookup(es[1..], name)
  }

  /** The length of the first component. */
  function Component(s: string): (k: nat)
    ensures k <= |s| && '/' !in s[..k] && (k < |s| ==> s[k] == '/')
  {
    if s == "" || s[0] == '/' then 0
    else
      var k := Component(s[1..]);
      assert s[..k + 1] == [s[0]] + s[1..][..k];
      k + 1
  }

  /** The file a path name leads to, starting at `d`. */
  function Resolve(tree: Tree, d: Id, s: string): Option<Id>
    decreases |s|
  {
    if s == "" then Some(d)
    else if s[0] == '/' then Resolve(tree, d, s[1..])
    else if d !in tree then None
    else
      var k := Component(s);
      match Lookup(tree[d].entries, s[..k])
      case None => None
      case Some(e) => Resolve(tree, e, s[k..])
  }

  function PathOf(names: seq<string>): string {
    if names == [] then "" else "/" + names[0] + PathOf(names[1..])
  }

  /** The names between the slashes of an absolute path, empty ones included. */
  function Split(path: string): seq<string>
    decreases |path|
  {
    if path == "" then []
    else
      var k := Component(path[1..]);
      [path[1..][..k]] + Split(path[1..][k..])
  }

  function Lengths(names: seq<string>): nat {
    if names == [] then 0 else |names[0]| + 1 + Lengths(names[1..])
  }

  /** A path is one slash and one name after another, and no more. */
  lemma {:induction false} PathSplits(names: seq<string>)
    requires forall i :: 0 <= i < |names| ==> '/' !in names[i]
    ensures |PathOf(names)| == Lengths(names) && Split(PathOf(names)) == names
    ensures names != [] ==> PathOf(names)[0] == '/'
  {
    if names != [] {
      hide Split;
      PathSplits(names[1..]);
      FirstName(names[0], PathOf(names[1..]));
    }
  }

  lemma {:induction false} FirstName(name: string, rest: string)
    requires '/' !in name && (rest == "" || rest[0] == '/')
    ensures Split("/" + name + rest) == [name] + Split(rest)
  {
    hide Component;
    var s := name + rest;
    assert ("/" + name + rest)[1..] == s;
    ComponentIs(name, rest);
    assert s[..|name|] == name && s[|name|..] == rest;
  }

  lemma {:induction false} LookupUnique(es: seq<Entry>, i: nat)
    requires i < |es| && forall j, k :: 0 <= j < k < |es| ==> es[j].name != es[k].name
    ensures Lookup(es, es[i].name) == Some(es[i].id)
  {
    if i > 0 {
      LookupUnique(es[1..], i - 1);
    }
  }

  lemma {:induction false} ComponentIs(name: string, rest: string)
    requires '/' !in name && (rest == "" || rest[0] == '/')
    ensures Component(name + rest) == |name|
  {
    var s := name + rest;
    if name != "" {
      assert s[1..] == name[1..] + rest;
      ComponentIs(name[1..], rest);
    } else {
      assert s == rest;
    }
  }

  /** A path with one more name in front starts one directory higher. */
  lemma {:induction false} OneNameMore(tree: Tree, d: Id, i: nat, names: seq<string>)
    requires d in tree && DirOk(tree, d) && i < |tree[d].entries|
    ensures var e := tree[d].entries[i];
            Resolve(tree, d, PathOf([e.name] + names)) == Resolve(tree, e.id, PathOf(names))
  {
    var e, rest := tree[d].entries[i], PathOf(names);
    LookupUnique(tree[d].entries, i);
    ComponentIs(e.name, rest);
    assert ([e.name] + names)[1..] == names;
    assert PathOf([e.name] + names) == "/" + e.name + rest;
    var s := e.name + rest;
    assert ("/" + e.name + rest)[1..] == s;
    assert s[..|e.name|] == e.name && s[|e.name|..] == rest;
    assert s[0] == e.name[0] && s[0] != '/';
  }

  /** Names of directories proper. */
  ghost predicate NoDots(names: seq<string>) {
    forall i :: 0 <= i < |names| ==> LegalName(names[i]) && names[i] != "." && names[i] != ".."
  }

  lemma {:induction false} ParentOf(tree: Tree, root: Id, depth: map<Id, nat>, d: Id)
    requires WellFormed(tree, root, depth) && d in tree
    ensures DirOk(tree, d) && tree[d].parent in tree && d in depth && tree[d].parent in depth
    ensures d == root <==> tree[d].parent == d
    ensures d != root ==> depth[tree[d].parent] < depth[d]
    ensures Listed(tree, root, depth, d) <==>
            d == root || (Lists(tree, tree[d].parent, d) && Listed(tree, root, depth, tree[d].parent))
  {
    assert DirOk(tree, d);
  }

  lemma {:induction false} NotDots(tree: Tree, root: Id, depth: map<Id, nat>, d: Id, i: nat)
    requires WellFormed(tree, root, depth) && d in tree && d != root && tree[d].parent in tree
    requires i < |tree[tree[d].parent].entries| && tree[tree[d].parent].entries[i].id == d
    ensures tree[tree[d].parent].entries[i].name !in {".", ".."} && LegalName(tree[tree[d].parent].entries[i].name)
  {
    var p := tree[d].parent;
    assert DirOk(tree, p);
    ParentOf(tree, root, depth, d);
    ParentOf(tree, root, depth, p);
  }

  /** The entry found for the child is neither "." nor "..", and leads back to it. */
  lemma {:induction false} EntryOfChild(tree: Tree, root: Id, depth: map<Id, nat>, d: Id, i: nat, names: seq<string>)
    requires WellFormed(tree, root, depth) && d in tree && d != root && tree[d].parent in tree
    requires i < |tree[tree[d].parent].entries| && tree[tree[d].parent].entries[i].id == d
    ensures var p := tree[d].parent;
            var name := tree[p].entries[i].name;
            && (NoDots(names) ==> NoDots([name] + names))
            && Resolve(tree, p, PathOf([name] + names)) == Resolve(tree, d, PathOf(names))
  {
    hide *;
    var p := tree[d].parent;
    ParentOf(tree, root, depth, p);
    NotDots(tree, root, depth, d, i);
    OneNameMore(tree, p, i, names);
    NoDotsMore(tree[p].entries[i].name, names);
  }

  lemma {:induction false} NoDotsMore(name: string, names: seq<string>)
    requires name !in {".", ".."} && LegalName(name)
    ensures NoDots(names) ==> NoDots([name] + names)
  {
  }

  lemma {:induction false} NamesSplit(names: seq<string>)
    requires NoDots(names)
    ensures |PathOf(names)| == Lengths(names) && Split(PathOf(names)) == names
  {
    hide PathOf, Split, Lengths;
    PathSplits(names);
  }

  lemma {:induction false} RootPath(tree: Tree, d: Id)
    ensures NoDots([]) && PathOf([]) == "" && PathOf([""]) == "/" && Resolve(tree, d, "") == Resolve(tree, d, "/") == Some(d)
  {
    assert PathOf([""]) == "/" + "" + PathOf([]);
  }
}

module Cwd {
  import opened Directories

  class Process {
    const tree: Tree
    var cwd: Id

    constructor (tree: Tree, cwd: Id)
      ensures this.tree == tree && this.cwd == cwd
    {
      this.tree, this.cwd := tree, cwd;
    }

    /** `get_pathlist`: the buffer allocated from the first loop's count is filled exactly. */
    static method GetPathlist(names: seq<string>) returns (path: string, total: nat)
      ensures path == PathOf(names) && |path| == total == Lengths(names)
    {
      total := 0;
      for i := 0 to |names|
        invariant total + |PathOf(names[i..])| == |PathOf(names)|
        invariant total + Lengths(names[i..]) == Lengths(names)
      {
        assert names[i..][1..] == names[i + 1..];
        total := total + |names[i]| + 1;
      }
      path := "";
      for i := 0 to |names|
        invariant path + PathOf(names[i..]) == PathOf(names)
      {
        assert names[i..][1..] == names[i + 1..];
        path := path + "/";
        path := path + names[i];
      }
    }

    /** Reading directory `cwd` for the entry that is `child`. */
    method FindChild(child: Id) returns (name: Option<string>, ghost at: nat)
      requires cwd in tree
      ensures name.Some? <==> Lists(tree, cwd, child)
      ensures name.Some? ==> at < |tree[cwd].entries| && tree[cwd].entries[at] == Entry(name.value, child)
    {
      var es := tree[cwd].entries;
      for i := 0 to |es|
        invariant forall j :: 0 <= j < i ==> es[j].id != child
      {
        if es[i].id == child {
          return Some(es[i].name), i;
        }
      }
      name, at := None, 0;
    }

    /** `getcwdx`.  `enoent` says whether `chdir("..")` at the root fails with ENOENT, as on
        some systems, or leaves the process at the root. */
    method GetCwd(ghost root: Id, ghost depth: map<Id, nat>, enoent: bool) returns (path: Option<string>, ghost names: seq<string>)
      requires WellFormed(tree, root, depth) && cwd in tree
      modifies this
      ensures path.Some? <==> Listed(tree, root, depth, old(cwd))
      ensures path.Some? ==>
                && Resolve(tree, root, path.value) == Some(old(cwd)) && NoDots(names)
                && (if old(cwd) == root then path.value == "/" && names == []
                    else path.value == PathOf(names) && Split(path.value) == names && |path.value| == Lengths(names))
      ensures cwd == old(cwd)
    {
      hide *;
      var dirfd, child := cwd, cwd;
      var head: seq<string> := [];
      RootPath(tree, child);
      ParentOf(tree, root, depth, child);
      while true
        invariant child == cwd && child in tree && child in depth && dirfd in depth
        invariant Resolve(tree, child, PathOf(head)) == Some(dirfd) && dirfd == old(cwd)
        invariant NoDots(head) && (Listed(tree, root, depth, child) <==> Listed(tree, root, depth, dirfd))
        invariant if head == [] then child == dirfd else depth[child] < depth[dirfd]
        decreases depth[child]
      {
        ParentOf(tree, root, depth, child);
        var parent := tree[child].parent;
        var failed := enoent && parent == child;
        if !failed {
          cwd := parent;
        }
        if failed || child == parent {
          names := head;
          NamesSplit(names);
          if head == [] {
            RootPath(tree, child);
            head := [""];
          }
          var text, total := GetPathlist(head);
          cwd := dirfd;
          return Some(text), names;
        }
        var name, at := FindChild(child);
        if name == None {
          cwd := dirfd;
          return None, [];
        }
        EntryOfChild(tree, root, depth, child, at, head);
        head := [name.value] + head;
        child := parent;
      }
    }
  }
}

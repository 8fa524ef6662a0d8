/** The shell's recursive launcher. */
module Shell {
  import opened Descriptors
  import opened Tokenizing
  import opened Pipelines

  /** The descriptors `redirect` gets: the standard ones and the ends of pipes. */
  ghost predicate Handed(t: Table, srcfd: int, dstfd: int) {
    && (srcfd == -1 || srcfd == 0 || srcfd > 2) && (dstfd == -1 || dstfd == 1 || dstfd > 2)
    && (srcfd > 2 ==> srcfd != dstfd)
    && forall fd: nat :: fd in t <==> fd <= 2 || fd == srcfd || fd == dstfd
  }

  /** `dup2` onto a standard descriptor, and `close` of the original if it is another. */
  method MoveTo(t: Table, fd: int, std: nat) returns (r: Option<Table>)
    ensures r == if 0 <= fd && fd in t then Some(if fd == std then t else t[std := t[fd]] - {fd}) else None
  {
    var moved := Dup2(t, fd, std);
    if moved == None {
      return None;
    }
    if fd != std {
      return Close(moved.value, fd);
    }
    assert moved.value == t;
    r := moved;
  }

  /** The first half of `redirect`: standard input. */
  method RedirectInput(table: Table, src: int, srcname: string, dst: int, bg: bool) returns (r: Option<Table>)
    ensures Handed(table, src, dst) && (src == -1 <==> srcname != "") ==>
              && r.Some? && Handed(r.value, 0, dst)
              && r.value[0] == (if src == 0 && bg then Source("/dev/null") else if src == -1 then Source(srcname) else table[src])
              && r.value[1] == table[1] && r.value[2] == table[2] && (dst > 2 ==> r.value[dst] == table[dst])
  {
    var t, srcfd, srcfile := table, src, srcname;
    if srcfd == 0 && bg {
      srcfile, srcfd := "/dev/null", -1;
    }
    if srcfile != "" {
      var (t', fd) := Opened(t, Source(srcfile));
      t, srcfd := t', fd;
    }
    r := MoveTo(t, srcfd, 0);
  }

  /** The second half: standard output. */
  method RedirectOutput(table: Table, dst: int, dstfile: string, append: bool) returns (r: Option<Table>)
    ensures Handed(table, 0, dst) && (dst == -1 <==> dstfile != "") ==>
              && r == Some(Standard(table[0], if dst == -1 then Sink(dstfile, append) else table[dst], table[2]))
  {
    var t, dstfd := table, dst;
    if dstfile != "" {
      var (t', fd) := Opened(t, Sink(dstfile, append));
      t, dstfd := t', fd;
    }
    r := MoveTo(t, dstfd, 1);
    if Handed(table, 0, dst) && (dst == -1 <==> dstfile != "") {
      assert r.value == Standard(table[0], if dst == -1 then Sink(dstfile, append) else table[dst], table[2]);
    }
  }

  /** `redirect`, in the child; None when a call fails or `fd_check` objects. */
  method Redirect(table: Table, src: int, srcfile: string, dst: int, dstfile: string, append: bool, bg: bool)
    returns (r: Option<Table>)
    ensures Handed(table, src, dst) && (src == -1 <==> srcfile != "") && (dst == -1 <==> dstfile != "") ==>
              r == Some(Standard(
                          if src == 0 && bg then Source("/dev/null") else if src == -1 then Source(srcfile) else table[src],
                          if dst == -1 then Sink(dstfile, append) else table[dst],
                          table[2]))
    ensures r.Some? ==> Clean(r.value)
  {
    r := RedirectInput(table, src, srcfile, dst, bg);
    if r == None {
      return None;
    }
    r := RedirectOutput(r.value, dst, dstfile, append);
    if r == None || !Clean(r.value) {
      return None;
    }
  }

  class Shell {
    var table: Table
    /** Tokens still to be read. */
    var tokens: seq<Token>
    var nextPipe: nat
    var nextPid: nat
    /** The processes launched, in that order. */
    var launched: seq<Child>

    constructor (table: Table, tokens: seq<Token>)
      ensures this.table == table && this.tokens == tokens && launched == [] && nextPipe == 0 && nextPid == 1
    {
      this.table, this.tokens, launched, nextPipe, nextPid := table, tokens, [], 0, 1;
    }

    method GetToken() returns (t: Token)
      modifies this`tokens
      ensures old(tokens) == [] ==> t == Eof && tokens == []
      ensures old(tokens) != [] ==> t == old(tokens)[0] && tokens == old(tokens)[1..]
    {
      if tokens == [] {
        return Eof;
      }
      t, tokens := tokens[0], tokens[1..];
    }

    /** The loop of `command` over the words and redirections of one stage, up to the token
        that ends it.  After a message about something that is not allowed it goes on. */
    method ReadStage(makepipe: bool) returns (p: Parsed, srcfd: int, dstfd: int, token: Token, ghost stage: Stage)
      modifies this`tokens
      ensures Reading(stage, token, tokens) == ReadItems(old(tokens), !makepipe, false) && p == Parse(stage)
      ensures srcfd == (if Sourced(stage) then -1 else 0) && dstfd == (if Redirects(stage) then -1 else 1)
      ensures |tokens| <= |old(tokens)| && (token == Bar ==> |tokens| < |old(tokens)|)
    {
      hide ReadItems, After, Track;
      srcfd, dstfd, stage := 0, 1, [];
      p := Parsed([], "", "", false);
      ghost var r := ReadItems(tokens, !makepipe, false);
      NothingRead(r);
      while true
        invariant After(stage, ReadItems(tokens, !makepipe, dstfd != 1)) == r && Track(stage, p, srcfd, dstfd)
        invariant |tokens| <= |old(tokens)| && (dstfd == -1 || dstfd == 1)
        decreases |tokens|
      {
        Advance(stage, tokens, !makepipe, dstfd != 1);
        token := GetToken();
        if token.Word? {
          TrackMore(stage, p, srcfd, dstfd, Arg(token.text));
          if |p.argv| < MAXARG - 1 {
            p := p.(argv := p.argv + [token.text]);
          }
          stage := stage + [Arg(token.text)];
        } else if token == Lt {
          if makepipe {
            continue;
          }
          var file := GetToken();
          if file.Word? {
            TrackMore(stage, p, srcfd, dstfd, From(file.text));
            p, srcfd, stage := p.(srcfile := file.text), -1, stage + [From(file.text)];
          }
        } else if token == Gt || token == GtGt {
          if dstfd != 1 {
            continue;
          }
          var file := GetToken();
          if file.Word? {
            TrackMore(stage, p, srcfd, dstfd, To(file.text, token == GtGt));
            p, dstfd, stage := p.(dstfile := file.text, append := token == GtGt), -1, stage + [To(file.text, token == GtGt)];
          }
        } else if token != Bar || dstfd == 1 {
          break;
        }
      }
      Tracked(stage, p, srcfd, dstfd);
    }

    /** `invoke`: the descriptors of the new process and what the shell closes afterwards. */
    method Invoke(p: Parsed, srcfd: int, dstfd: int, bg: bool, closefd: int) returns (pid: nat)
      modifies this`table, this`nextPid, this`launched
      ensures !External(p.argv) ==>
                pid == 0 && table == old(table) && launched == old(launched) && nextPid == old(nextPid)
      ensures External(p.argv) ==> pid == old(nextPid) && nextPid == old(nextPid) + 1 && table == AfterFork(old(table), srcfd, dstfd)
      ensures External(p.argv) && ReadyToFork(old(table), p, srcfd, dstfd, closefd) ==>
                launched == old(launched) + [Forked(old(table), p, srcfd, dstfd, bg, old(nextPid))]
    {
      if !External(p.argv) {
        return 0;
      }
      pid, nextPid := nextPid, nextPid + 1;
      // in the child
      var mine := Some(table);
      if closefd != -1 {
        mine := Close(table, closefd);
      }
      if mine.Some? {
        mine := Redirect(mine.value, srcfd, p.srcfile, dstfd, p.dstfile, p.append, bg);
      }
      if mine.Some? {
        launched := launched + [Child(pid, p.argv[0], p.argv[0 := ProgramName(p.argv[0])], mine.value)];
      }
      // in the parent
      if srcfd > 1 {
        table := table - {srcfd};
      }
      if dstfd > 1 {
        table := table - {dstfd};
      }
    }

    /** The part of `command` after a stage has been read: its pipe, if it has one, and
        its process. */
    method LaunchStage(p: Parsed, src: int, dstfd: int, bg: bool, makepipe: bool, ghost base: Table)
      returns (pid: nat, pipefd: int)
      modifies this`table, this`nextPipe, this`nextPid, this`launched
      ensures nextPipe == old(nextPipe) + (if makepipe then 1 else 0)
      ensures src <= 0 ==> (table, pipefd) == AfterStage(old(table), External(p.argv), dstfd, makepipe, old(nextPipe))
      ensures StageReady(old(table), base, p, src, dstfd, makepipe) ==>
                && pid == old(nextPid) && nextPid == old(nextPid) + 1
                && launched == old(launched) + [StageChild(old(table), base, p, dstfd, bg, makepipe, old(nextPipe), old(nextPid))]
                && (if makepipe then pipefd > 2 && table == base[pipefd := PipeWrite(old(nextPipe))] else table == base)
    {
      hide Piped, StageReady, StageChild, Forked, ReadyToFork, Handed, External;
      var srcfd, closefd: int := src, -1;
      pipefd := -1;
      ghost var before := table;
      if makepipe {
        var (t, r, w) := Piped(table, nextPipe);
        table, nextPipe := t, nextPipe + 1;
        pipefd, srcfd, closefd := w, r, w;
      }
      if StageReady(before, base, p, src, dstfd, makepipe) {
        ForkReady(before, base, p, src, dstfd, makepipe, old(nextPipe));
      }
      pid := Invoke(p, srcfd, dstfd, bg, closefd);
    }

    /** The same, given the processes to the right: now the whole pipeline runs.  `w` is
        the process to wait for, if the stages to the right have set it. */
    method LaunchFirst(p: Parsed, srcfd: int, dstfd: int, bg: bool, makepipe: bool, w: nat, ghost g: Goal)
      returns (pid: nat, pipefd: int)
      modifies this`table, this`nextPipe, this`nextPid, this`launched
      ensures RightDone(g, !makepipe, bg, p, srcfd, dstfd, w, old(table), old(nextPipe), old(nextPid), old(launched)) ==>
                Completed(g, !makepipe, bg, pipefd, if |g.stages| == 1 then pid else w, table, nextPipe, nextPid, launched)
    {
      hide AllLaunched, StageReady, StageChild, AfterStage, AfterPipeline, PipelineOk, JustStandard, Parse, Externals;
      ghost var right := RightRuns(g, !makepipe, bg, p, srcfd, dstfd, table, nextPipe, nextPid, launched);
      if right {
        ReadyToLaunch(g, !makepipe, bg, p, srcfd, dstfd, table, nextPipe, nextPid, launched);
      }
      pid, pipefd := LaunchStage(p, srcfd, dstfd, bg, makepipe, g.base);
      assert right ==> Runs(g, !makepipe, bg, pipefd, table, nextPipe, nextPid, launched);
    }

    /** `command`: reads a stage, launches the rest of the pipeline, then this stage.  Returns
        the token that ended the pipeline, the write end of the pipe into this stage, and the
        process to wait for.  At the end of the file the shell exits, which is modelled as
        returning Eof; then, and after a word too long, nothing has been launched. */
    method Command(makepipe: bool) returns (term: Token, pipefd: int, wpid: nat)
      modifies this
      ensures var l := ReadPipeline(old(tokens), !makepipe);
              && term == l.end && tokens == l.rest
              && if Terminator(term) then
                   Completed(Goal(l.stages, old(table), old(nextPipe), old(nextPid), old(launched)), !makepipe, term == Amp,
                             pipefd, wpid, table, nextPipe, nextPid, launched)
                 else
                   (term == Eof || term == Error) && table == old(table) && launched == old(launched)
                   && nextPipe == old(nextPipe) && nextPid == old(nextPid)
      decreases |tokens|
    {
      hide *;
      pipefd, wpid := -1, 0;
      ghost var l := ReadPipeline(tokens, !makepipe);
      ghost var g := Goal(l.stages, table, nextPipe, nextPid, launched);
      FirstStage(tokens, !makepipe);
      var p, srcfd, dstfd, token;
      ghost var stage;
      p, srcfd, dstfd, token, stage := ReadStage(makepipe);
      if token == Eof || token == Error {
        return token, -1, 0;
      }
      if token == Bar {
        term, dstfd, wpid := Command(true);
        if term == Eof || term == Error {
          return term, -1, 0;
        }
        DoneAfterRest(g, !makepipe, term == Amp, p, srcfd, dstfd, wpid, table, nextPipe, nextPid, launched);
      } else {
        term := token;
        DoneAtEnd(g, !makepipe, term == Amp, p, srcfd, dstfd, wpid);
      }
      var pid;
      pid, pipefd := LaunchFirst(p, srcfd, dstfd, term == Amp, makepipe, wpid, g);
      if token != Bar {
        wpid := pid;
      }
    }
  }

  /** A pipeline to launch, and the shell's state before. */
  datatype Goal = Goal(stages: seq<Stage>, base: Table, pipe: nat, pid: nat, before: seq<Child>)

  /** All stages run, and the shell has only its standard descriptors and, when this was
      not the first stage of the whole pipeline, the write end of the pipe into it. */
  ghost predicate Runs(g: Goal, first: bool, bg: bool, pipefd: int, table: Table, nextPipe: nat, nextPid: nat, launched: seq<Child>) {
    && PipelineOk(g.stages, first) && JustStandard(g.base)
    && AllLaunched(g.before, launched, g.stages, first, bg, g.pipe, g.base, g.pid)
    && nextPid == g.pid + |g.stages| && nextPipe == g.pipe + |g.stages| - (if first then 1 else 0)
    && (if first then table == g.base else pipefd > 2 && table == g.base[pipefd := PipeWrite(g.pipe + |g.stages| - 1)])
  }

  /** What `command` leaves: the descriptors of any pipeline, and the processes of one that
      has only external commands. */
  ghost predicate Completed(g: Goal, first: bool, bg: bool, pipefd: int, wpid: nat,
                            table: Table, nextPipe: nat, nextPid: nat, launched: seq<Child>) {
    && g.stages != [] && nextPipe == g.pipe + |g.stages| - (if first then 1 else 0)
    && (table, pipefd) == AfterPipeline(Externals(g.stages), !first, g.base, g.pipe)
    && (PipelineOk(g.stages, first) && JustStandard(g.base) ==>
          wpid == g.pid && Runs(g, first, bg, pipefd, table, nextPipe, nextPid, launched))
  }

  /** The stages to the right of the first one run, and the first one has been read. */
  ghost predicate RightRuns(g: Goal, first: bool, bg: bool, p: Parsed, srcfd: int, dstfd: int,
                            t: Table, nextPipe: nat, nextPid: nat, mid: seq<Child>) {
    var n := |g.stages|;
    && PipelineOk(g.stages, first) && JustStandard(g.base)
    && p == Parse(g.stages[0]) && srcfd == (if p.srcfile != "" then -1 else 0)
    && nextPipe == g.pipe + n - 1 && nextPid == g.pid + n - 1
    && if n > 1 then
         && PipelineOk(g.stages[1..], false) && AllLaunched(g.before, mid, g.stages[1..], false, bg, g.pipe, g.base, g.pid)
         && dstfd > 2 && t == g.base[dstfd := PipeWrite(g.pipe + n - 2)]
       else
         mid == g.before && t == g.base && dstfd == if p.dstfile != "" then -1 else 1
  }

  /** `Completed` but for the first stage. */
  ghost predicate RightDone(g: Goal, first: bool, bg: bool, p: Parsed, srcfd: int, dstfd: int, w: nat,
                            t: Table, nextPipe: nat, nextPid: nat, mid: seq<Child>) {
    && g.stages != [] && nextPipe == g.pipe + |g.stages| - 1 && srcfd <= 0
    && AfterPipeline(Externals(g.stages), !first, g.base, g.pipe) == AfterStage(t, External(p.argv), dstfd, !first, nextPipe)
    && (PipelineOk(g.stages, first) && JustStandard(g.base) ==>
          RightRuns(g, first, bg, p, srcfd, dstfd, t, nextPipe, nextPid, mid) && (if |g.stages| == 1 then nextPid == g.pid else w == g.pid))
  }

  lemma {:induction false} DoneAtEnd(g: Goal, first: bool, bg: bool, p: Parsed, srcfd: int, dstfd: int, w: nat)
    requires |g.stages| == 1 && p == Parse(g.stages[0])
    requires srcfd == (if Sourced(g.stages[0]) then -1 else 0) && dstfd == (if Redirects(g.stages[0]) then -1 else 1)
    ensures RightDone(g, first, bg, p, srcfd, dstfd, w, g.base, g.pipe, g.pid, g.before)
  {
    hide AfterPipeline, AfterStage, Sourced, Redirects, Parse;
    AfterLast(g.stages, !first, g.base, g.pipe, dstfd);
    if PipelineOk(g.stages, first) {
      NamedFiles(g.stages[0]);
    }
  }

  lemma {:induction false} DoneAfterRest(g: Goal, first: bool, bg: bool, p: Parsed, srcfd: int, dstfd: int, w: nat,
                                         t: Table, nextPipe: nat, nextPid: nat, mid: seq<Child>)
    requires |g.stages| > 1 && p == Parse(g.stages[0]) && srcfd == if Sourced(g.stages[0]) then -1 else 0
    requires Completed(g.(stages := g.stages[1..]), false, bg, dstfd, w, t, nextPipe, nextPid, mid)
    ensures RightDone(g, first, bg, p, srcfd, dstfd, w, t, nextPipe, nextPid, mid)
  {
    hide AfterPipeline, AfterStage, AllLaunched, PipelineOk, Sourced, Parse;
    AfterMore(g.stages, !first, g.base, g.pipe);
    if PipelineOk(g.stages, first) {
      RestOk(g.stages, first);
    }
  }

  lemma {:induction false} RestOk(stages: seq<Stage>, first: bool)
    requires PipelineOk(stages, first)
    ensures |stages| > 1 ==> PipelineOk(stages[1..], false)
    ensures Parse(stages[0]).srcfile != "" <==> Sourced(stages[0])
  {
    hide Parse, External, Sourced, Redirects;
    NamedFiles(stages[0]);
  }

  /** A pipeline is its first stage and, after a bar, another pipeline. */
  lemma {:induction false} FirstStage(tokens: seq<Token>, first: bool)
    ensures var r, l := ReadItems(tokens, first, false), ReadPipeline(tokens, first);
            && l.stages != [] && l.stages[0] == r.stage
            && (if r.end == Bar then
                  var more := ReadPipeline(r.rest, false);
                  |l.stages| > 1 && l.stages[1..] == more.stages && l.end == more.end && l.rest == more.rest
                else |l.stages| == 1 && l.end == r.end && l.rest == r.rest)
            && (r.end == Bar || Terminator(r.end) || r.end == Eof || r.end == Error)
            && !Terminator(Bar) && !Terminator(Eof) && !Terminator(Error)
  {
    hide ReadItems;
    ReadIsAllowed(tokens, first, false);
  }

  /** The shell's descriptors after one stage, and the write end of the pipe into it. */
  function AfterStage(t: Table, external: bool, dstfd: int, makepipe: bool, pipe: nat): (Table, int) {
    var (t', r, w) := if makepipe then Piped(t, pipe) else (t, 0, 0);
    (if external then AfterFork(t', r, dstfd) else t', if makepipe then w else -1)
  }

  /** The shell's descriptors after a whole pipeline, launched from right to left. */
  function AfterPipeline(es: seq<bool>, makepipe: bool, t: Table, pipe: nat): (Table, int)
    requires es != []
  {
    if |es| == 1 then AfterStage(t, es[0], 1, makepipe, pipe)
    else
      var (t', d) := AfterPipeline(es[1..], true, t, pipe);
      AfterStage(t', es[0], d, makepipe, pipe + |es| - 1)
  }

  lemma {:induction false} AfterLast(stages: seq<Stage>, makepipe: bool, t: Table, pipe: nat, dstfd: int)
    requires |stages| == 1 && dstfd <= 1
    ensures AfterPipeline(Externals(stages), makepipe, t, pipe) ==
            AfterStage(t, External(Parse(stages[0]).argv), dstfd, makepipe, pipe)
  {
  }

  lemma {:induction false} AfterMore(stages: seq<Stage>, makepipe: bool, t: Table, pipe: nat)
    requires |stages| > 1
    ensures var (t', d) := AfterPipeline(Externals(stages[1..]), true, t, pipe);
            AfterPipeline(Externals(stages), makepipe, t, pipe) ==
            AfterStage(t', External(Parse(stages[0]).argv), d, makepipe, pipe + |stages| - 1)
  {
    hide AfterStage, Parse, External;
    assert Externals(stages)[1..] == Externals(stages[1..]);
  }

  /** A stage the shell runs itself, or an empty one, keeps its descriptors: the shell is
      left with more than it started with exactly when there is such a stage and it is
      not alone. */
  lemma {:induction false} WhenDescriptorsLeak(es: seq<bool>, t: Table, pipe: nat)
    requires es != [] && JustStandard(t)
    ensures var t' := AfterPipeline(es, false, t, pipe).0;
            t'.Keys == t.Keys <==> |es| == 1 || AllExternal(es)
  {
    if |es| > 1 {
      var (t', d) := AfterPipeline(es[1..], true, t, pipe);
      RightSideKeeps(es[1..], t, pipe);
      assert AllExternal(es) <==> es[0] && AllExternal(es[1..]);
      assert d in t' && d !in t;
      if AllExternal(es[1..]) {
        assert (t' - {d}).Keys == t.Keys;
      } else {
        assert (t' - {d}).Keys != t.Keys;
      }
    }
  }

  /** A builtin in front of a bar: the shell keeps the pipe it should have written to. */
  lemma {:induction false} BuiltinLeaks(t: Table, pipe: nat)
    requires JustStandard(t)
    ensures Externals([[Arg("cd")], [Arg("ls")]]) == [false, true]
    ensures AfterPipeline([false, true], false, t, pipe).0.Keys != t.Keys
  {
    var stages := [[Arg("cd")], [Arg("ls")]];
    assert Parse([Arg("cd")]) == Take(Parse([]), Arg("cd")) && Parse([Arg("ls")]) == Take(Parse([]), Arg("ls"));
    assert Externals(stages) == [false, true];
    WhenDescriptorsLeak([false, true], t, pipe);
    assert ![false, true][0];
  }

  lemma {:induction false} RightSideKeeps(es: seq<bool>, t: Table, pipe: nat)
    requires es != [] && JustStandard(t)
    ensures var (t', w) := AfterPipeline(es, true, t, pipe);
            && w > 2 && w in t' && t.Keys <= t'.Keys && w !in t
            && (t'.Keys == t.Keys + {w} <==> AllExternal(es))
  {
    if |es| == 1 {
      PipeEnds(t, pipe);
    } else {
      RightSideKeeps(es[1..], t, pipe);
      var (t1, d) := AfterPipeline(es[1..], true, t, pipe);
      PipeEnds(t1, pipe + |es| - 1);
      assert AllExternal(es) <==> es[0] && AllExternal(es[1..]);
    }
  }

  /** The shell holds its standard descriptors and at most the pipe this stage writes to. */
  ghost predicate StageReady(t: Table, base: Table, p: Parsed, srcfd: int, dstfd: int, makepipe: bool) {
    && JustStandard(base) && External(p.argv)
    && srcfd == (if p.srcfile != "" then -1 else 0) && (makepipe ==> p.srcfile == "")
    && (if dstfd > 2 then dstfd in t && t == base[dstfd := t[dstfd]] && p.dstfile == ""
        else dstfd == (if p.dstfile != "" then -1 else 1) && t == base)
  }

  ghost function StageChild(t: Table, base: Table, p: Parsed, dstfd: int, bg: bool, makepipe: bool, pipe: nat, pid: nat): Child
    requires p.argv != [] && JustStandard(base) && (dstfd > 2 ==> dstfd in t)
  {
    Child(pid, p.argv[0], p.argv[0 := ProgramName(p.argv[0])],
          Standard(if makepipe then PipeRead(pipe) else if p.srcfile != "" then Source(p.srcfile)
                   else if bg then Source("/dev/null") else base[0],
                   if dstfd > 2 then t[dstfd] else if p.dstfile != "" then Sink(p.dstfile, p.append) else base[1],
                   base[2]))
  }

  /** Everything `invoke` needs is in place, and it leaves what it should. */
  lemma {:induction false} ForkReady(t: Table, base: Table, p: Parsed, src: int, dstfd: int, makepipe: bool, pipe: nat)
    requires StageReady(t, base, p, src, dstfd, makepipe)
    ensures External(p.argv)
    ensures var (t', r, w) := Piped(t, pipe);
            if makepipe then
              && w > 2 && ReadyToFork(t', p, r, dstfd, w)
              && AfterFork(t', r, dstfd) == base[w := PipeWrite(pipe)]
              && forall bg, pid :: Forked(t', p, r, dstfd, bg, pid) == StageChild(t, base, p, dstfd, bg, makepipe, pipe, pid)
            else
              && ReadyToFork(t, p, src, dstfd, -1)
              && AfterFork(t, src, dstfd) == base
              && forall bg, pid :: Forked(t, p, src, dstfd, bg, pid) == StageChild(t, base, p, dstfd, bg, makepipe, pipe, pid)
  {
    PipeEnds(t, pipe);
  }

  /** Once the stages to its right run, the first stage can be launched, and then they all run. */
  lemma {:induction false} ReadyToLaunch(g: Goal, first: bool, bg: bool, p: Parsed, srcfd: int, dstfd: int,
                                         t: Table, nextPipe: nat, nextPid: nat, mid: seq<Child>)
    requires RightRuns(g, first, bg, p, srcfd, dstfd, t, nextPipe, nextPid, mid)
    ensures StageReady(t, g.base, p, srcfd, dstfd, !first)
    ensures var child := StageChild(t, g.base, p, dstfd, bg, !first, nextPipe, nextPid);
            AllLaunched(g.before, mid + [child], g.stages, first, bg, g.pipe, g.base, g.pid)
  {
    FirstReady(g, first, bg, p, srcfd, dstfd, t, nextPipe, nextPid, mid);
    var child := StageChild(t, g.base, p, dstfd, bg, !first, nextPipe, nextPid);
    if |g.stages| > 1 {
      OneMoreLaunched(g, first, bg, mid, child);
    } else {
      assert (mid + [child])[..|mid|] == mid;
    }
  }

  lemma {:induction false} FirstReady(g: Goal, first: bool, bg: bool, p: Parsed, srcfd: int, dstfd: int,
                                      t: Table, nextPipe: nat, nextPid: nat, mid: seq<Child>)
    requires RightRuns(g, first, bg, p, srcfd, dstfd, t, nextPipe, nextPid, mid)
    ensures StageReady(t, g.base, p, srcfd, dstfd, !first)
    ensures StageChild(t, g.base, p, dstfd, bg, !first, nextPipe, nextPid) ==
            Launched(g.stages, 0, first, bg, g.pipe, g.base, g.pid)
  {
    hide AllLaunched, Parse;
    assert StageSyntax(g.stages[0], first, |g.stages| == 1);
    NoRedirection(g.stages[0]);
  }

  /** Stage `i` is stage `i - 1` of the pipeline to the right of the first stage. */
  lemma {:induction false} LaunchedTail(stages: seq<Stage>, i: nat, first: bool, bg: bool, pipe: nat, base: Table, pid: nat)
    requires 0 < i < |stages| && Parse(stages[i]).argv != [] && JustStandard(base)
    ensures Launched(stages[1..], i - 1, false, bg, pipe, base, pid) == Launched(stages, i, first, bg, pipe, base, pid)
  {
    hide Parse, ProgramName, Standard;
    assert stages[1..][i - 1] == stages[i];
  }

  lemma {:induction false} OneMoreLaunched(g: Goal, first: bool, bg: bool, mid: seq<Child>, child: Child)
    requires PipelineOk(g.stages, first) && |g.stages| > 1 && PipelineOk(g.stages[1..], false) && JustStandard(g.base)
    requires AllLaunched(g.before, mid, g.stages[1..], false, bg, g.pipe, g.base, g.pid)
    requires child == Launched(g.stages, 0, first, bg, g.pipe, g.base, g.pid)
    ensures AllLaunched(g.before, mid + [child], g.stages, first, bg, g.pipe, g.base, g.pid)
  {
    hide Launched, Parse;
    var stages, n := g.stages, |g.stages|;
    forall i | 0 <= i < n
      ensures (mid + [child])[|g.before| + n - 1 - i] == Launched(stages, i, first, bg, g.pipe, g.base, g.pid)
    {
      if i > 0 {
        LaunchedTail(stages, i, first, bg, g.pipe, g.base, g.pid);
        assert mid[|g.before| + |stages[1..]| - 1 - (i - 1)] == Launched(stages[1..], i - 1, false, bg, g.pipe, g.base, g.pid);
      }
    }
  }

  /** Stage `i` of `n` is the process launched `n - 1 - i`-th. */
  ghost predicate AllLaunched(before: seq<Child>, after: seq<Child>, stages: seq<Stage>, first: bool, bg: bool,
                              pipe: nat, base: Table, pid: nat)
    requires PipelineOk(stages, first) && JustStandard(base)
  {
    && |after| == |before| + |stages| && after[..|before|] == before
    && forall i :: 0 <= i < |stages| ==>
         after[|before| + |stages| - 1 - i] == Launched(stages, i, first, bg, pipe, base, pid)
  }

  ghost predicate ReadyToFork(t: Table, p: Parsed, srcfd: int, dstfd: int, closefd: int) {
    && (closefd == -1 || (closefd > 2 && closefd in t && closefd != srcfd && closefd != dstfd))
    && Handed(if closefd == -1 then t else t - {closefd}, srcfd, dstfd)
    && (srcfd == -1 || (srcfd >= 0 && srcfd in t)) && (dstfd == -1 || (dstfd >= 0 && dstfd in t)) && 2 in t
    && (srcfd == -1 <==> p.srcfile != "") && (dstfd == -1 <==> p.dstfile != "")
  }

  function AfterFork(t: Table, srcfd: int, dstfd: int): Table {
    var t' := if srcfd > 1 then t - {srcfd} else t;
    if dstfd > 1 then t' - {dstfd} else t'
  }

  ghost function Forked(t: Table, p: Parsed, srcfd: int, dstfd: int, bg: bool, pid: nat): Child
    requires p.argv != [] && srcfd >= -1 && dstfd >= -1
    requires (srcfd == -1 || srcfd in t) && (dstfd == -1 || dstfd in t) && 2 in t
  {
    Child(pid, p.argv[0], p.argv[0 := ProgramName(p.argv[0])],
          Standard(if srcfd == 0 && bg then Source("/dev/null") else if srcfd == -1 then Source(p.srcfile) else t[srcfd],
                   if dstfd == -1 then Sink(p.dstfile, p.append) else t[dstfd],
                   t[2]))
  }

  /** The variables of `command` after these items. */
  ghost predicate Track(stage: Stage, p: Parsed, srcfd: int, dstfd: int) {
    && p == Parse(stage)
    && srcfd == (if Sourced(stage) then -1 else 0) && dstfd == (if Redirects(stage) then -1 else 1)
  }

  lemma {:induction false} Tracked(stage: Stage, p: Parsed, srcfd: int, dstfd: int)
    requires Track(stage, p, srcfd, dstfd)
    ensures p == Parse(stage)
    ensures srcfd == (if Sourced(stage) then -1 else 0) && dstfd == (if Redirects(stage) then -1 else 1)
  {
  }

  lemma {:induction false} NothingRead(r: Reading)
    ensures After([], r) == r && Track([], Parsed([], "", "", false), 0, 1)
  {
    assert [] + r.stage == r.stage;
  }

  lemma {:induction false} TrackMore(stage: Stage, p: Parsed, srcfd: int, dstfd: int, item: Item)
    requires Track(stage, p, srcfd, dstfd)
    ensures Track(stage + [item], Take(p, item), if item.From? then -1 else srcfd, if item.To? then -1 else dstfd)
  {
    var more := stage + [item];
    assert more[..|stage|] == stage;
    assert more[|stage|] == item && forall i :: 0 <= i < |stage| ==> more[i] == stage[i];
  }

  /** What the next token, and sometimes the one after it, does to the reading. */
  lemma {:induction false} Advance(stage: Stage, tokens: seq<Token>, first: bool, redirected: bool)
    ensures var r := After(stage, ReadItems(tokens, first, redirected));
            if tokens == [] then r == Reading(stage, Eof, [])
            else
              var t, rest := tokens[0], tokens[1..];
              var named, more := rest != [] && rest[0].Word?, if rest == [] then [] else rest[1..];
              if t.Word? then r == After(stage + [Arg(t.text)], ReadItems(rest, first, redirected))
              else if t == Lt then
                r == if !first then After(stage, ReadItems(rest, first, redirected))
                     else After(if named then stage + [From(rest[0].text)] else stage, ReadItems(more, first, redirected))
              else if t == Gt || t == GtGt then
                r == if redirected then After(stage, ReadItems(rest, first, redirected))
                     else After(if named then stage + [To(rest[0].text, t == GtGt)] else stage, ReadItems(more, first, named))
              else r == if t == Bar && redirected then After(stage, ReadItems(rest, first, redirected)) else Reading(stage, t, rest)
  {
    assert stage + [] == stage;
    assert forall item, r {:trigger After([item], r)} :: After(stage, After([item], r)) == After(stage + [item], r) by {
      forall item, r {:trigger After([item], r)}
        ensures After(stage, After([item], r)) == After(stage + [item], r)
      {
        assert stage + ([item] + r.stage) == stage + [item] + r.stage;
      }
    }
  }

  /** Stage `i`'s process, among those launched after `before`. */
  function StageProcess(before: seq<Child>, after: seq<Child>, n: nat, i: nat): Child
    requires i < n && |after| == |before| + n
  {
    after[|before| + n - 1 - i]
  }

  /** The plumbing of a whole pipeline: every process execs with descriptors 0, 1 and 2 and
      no others, neighbours share one pipe, and no other process has an end of it. */
  lemma {:induction false} Plumbing(before: seq<Child>, after: seq<Child>, stages: seq<Stage>, bg: bool,
                                    pipe: nat, base: Table, pid: nat, i: nat, j: nat)
    requires PipelineOk(stages, true) && JustStandard(base) && AllLaunched(before, after, stages, true, bg, pipe, base, pid)
    requires forall fd: nat :: fd in base ==> !base[fd].PipeRead? && !base[fd].PipeWrite?
    requires i + 1 < |stages| && j < |stages|
    ensures var n := |stages|;
            var left, right, any := StageProcess(before, after, n, i).table, StageProcess(before, after, n, i + 1).table,
                                    StageProcess(before, after, n, j).table;
            && JustStandard(left) && JustStandard(right) && JustStandard(any)
            && (StageProcess(before, after, n, j).pid == StageProcess(before, after, n, i).pid ==> j == i)
            && left[1].PipeWrite? && right[0].PipeRead? && left[1].pipe == right[0].pipe
            && (any[1] == left[1] ==> j == i) && (any[0] == right[0] ==> j == i + 1)
            && any[0] != left[1] && any[1] != right[0] && any[2] == base[2]
  {
    var n := |stages|;
    assert after[|before| + n - 1 - i] == Launched(stages, i, true, bg, pipe, base, pid);
    assert after[|before| + n - 1 - (i + 1)] == Launched(stages, i + 1, true, bg, pipe, base, pid);
    assert after[|before| + n - 1 - j] == Launched(stages, j, true, bg, pipe, base, pid);
  }

  /** The words of a stage are its process's arguments, in order and up to the 49th; the first
      is the path, of which the program sees what follows the first slash. */
  lemma {:induction false} RunsItsWords(before: seq<Child>, after: seq<Child>, stages: seq<Stage>, bg: bool,
                                        pipe: nat, base: Table, pid: nat, i: nat, j: nat)
    requires PipelineOk(stages, true) && JustStandard(base) && AllLaunched(before, after, stages, true, bg, pipe, base, pid)
    requires i < |stages| && j < |stages[i]| && stages[i][j].Arg?
    ensures var child, stage := StageProcess(before, after, |stages|, i), stages[i];
            var k, n := ArgCount(stage[..j]), ArgCount(stage);
            && child.argv != [] && |child.argv| == (if n < MAXARG - 1 then n else MAXARG - 1)
            && (k == 0 ==> child.path == stage[j].word && NamesProgram(stage[j].word, child.argv[0]))
            && (0 < k < MAXARG - 1 ==> k < |child.argv| && child.argv[k] == stage[j].word)
  {
    hide Parse, NamesProgram, ArgCount;
    var stage := stages[i];
    assert after[|before| + |stages| - 1 - i] == Launched(stages, i, true, bg, pipe, base, pid);
    ArgvLength(stage);
    ProgramNameIs(Parse(stage).argv[0]);
    if ArgCount(stage[..j]) < MAXARG - 1 {
      ArgvAt(stage, j);
    }
  }

  /** The first process reads from the file after the last `<` and the last one writes to the
      file after the `>` or `>>`, appending for `>>`; without them they have what the shell
      has, or nothing to read in the background. */
  lemma {:induction false} RunsWithItsFiles(before: seq<Child>, after: seq<Child>, stages: seq<Stage>, bg: bool,
                                            pipe: nat, base: Table, pid: nat, j: nat)
    requires PipelineOk(stages, true) && JustStandard(base) && AllLaunched(before, after, stages, true, bg, pipe, base, pid)
    ensures var n := |stages|;
            var first, last := stages[0], stages[n - 1];
            var input, output := StageProcess(before, after, n, 0).table, StageProcess(before, after, n, n - 1).table;
            && JustStandard(input) && JustStandard(output)
            && (j < |first| && first[j].From? && (forall m :: j < m < |first| ==> !first[m].From?) ==>
                  ItemTokens(first[j])[0] == Lt && input[0] == Source(first[j].file))
            && ((forall m :: 0 <= m < |first| ==> !first[m].From?) ==> input[0] == if bg then Source("/dev/null") else base[0])
            && (j < |last| && last[j].To? ==>
                  output[1] == Sink(last[j].file, ItemTokens(last[j])[0] == GtGt))
            && ((forall m :: 0 <= m < |last| ==> !last[m].To?) ==> output[1] == base[1])
  {
    hide Parse, Builtin;
    var n := |stages|;
    assert StageSyntax(stages[n - 1], n == 1, true);
    assert after[|before| + n - 1 - 0] == Launched(stages, 0, true, bg, pipe, base, pid);
    assert after[|before| + n - 1 - (n - 1)] == Launched(stages, n - 1, true, bg, pipe, base, pid);
    NamedFiles(stages[0]);
    NamedFiles(stages[n - 1]);
    if j < |stages[0]| {
      LastRedirection(stages[0], j);
    }
    if j < |stages[n - 1]| {
      LastRedirection(stages[n - 1], j);
    }
  }

  lemma {:induction false} AllStart(stages: seq<Stage>)
    ensures AllExternal(Externals(stages)) <==> forall i :: 0 <= i < |stages| ==> StartsProcess(stages[i])
  {
    hide Parse, External, StartsProcess;
    forall i | 0 <= i < |stages|
      ensures Externals(stages)[i] <==> StartsProcess(stages[i])
    {
      ExternalStage(stages[i]);
    }
  }

  /** One round of `main`: what is read, what runs, whether the shell is left with more
      descriptors than it had, and the process it waits for (0 if none). */
  method RunLine(sh: Shell) returns (term: Token, wait: nat)
    requires JustStandard(sh.table)
    modifies sh
    ensures var l := ReadPipeline(old(sh.tokens), true);
            && sh.tokens == l.rest && term == (if l.end == Error then Nl else l.end)
            && (Terminator(l.end) ==>
                  (sh.table.Keys == old(sh.table).Keys <==>
                   |l.stages| == 1 || forall i :: 0 <= i < |l.stages| ==> StartsProcess(l.stages[i])))
            && (!Terminator(l.end) ==> sh.table == old(sh.table) && sh.launched == old(sh.launched))
            && (Terminator(l.end) && PipelineOk(l.stages, true) ==>
                  && sh.table == old(sh.table) && Clean(sh.table)
                  && AllLaunched(old(sh.launched), sh.launched, l.stages, true, l.end == Amp, old(sh.nextPipe), old(sh.table), old(sh.nextPid))
                  && wait == if l.end == Amp then 0 else StageProcess(old(sh.launched), sh.launched, |l.stages|, |l.stages| - 1).pid)
  {
    hide ReadPipeline, AfterPipeline, Parse, Externals, StartsProcess, AllExternal;
    var pipefd;
    ghost var before, l := sh.launched, ReadPipeline(sh.tokens, true);
    ghost var n := |l.stages|;
    term, pipefd, wait := sh.Command(false);
    if Terminator(term) {
      WhenDescriptorsLeak(Externals(l.stages), old(sh.table), old(sh.nextPipe));
      AllStart(l.stages);
      if PipelineOk(l.stages, true) {
        assert sh.launched[|before| + n - 1 - (n - 1)] ==
               Launched(l.stages, n - 1, true, term == Amp, old(sh.nextPipe), old(sh.table), old(sh.nextPid));
      }
    }
    if term == Error {
      term := Nl;
    }
    if term == Amp {
      wait := 0;
    }
  }
}

/** Descriptor tables and the system calls on them. */
module Descriptors {
  /** What a descriptor refers to. */
  datatype Desc =
    | Std(i: nat)
    | PipeRead(pipe: nat)
    | PipeWrite(pipe: nat)
    | Source(file: string)
    | Sink(file: string, append: bool)

  type Table = map<nat, Desc>

  datatype Option<T> = None | Some(value: T)

  /** The lowest descriptor not in use, from `i` on. */
  function LowestFrom(t: Table, i: nat): (fd: nat)
    requires forall j: nat :: j < i ==> j in t
    ensures fd !in t && fd >= i && forall j: nat :: j < fd ==> j in t
    decreases |t| - i
  {
    if i !in t then i
    else
      InitialSegment(t, i + 1);
      LowestFrom(t, i + 1)
  }

  lemma {:induction false} InitialSegment(t: Table, n: nat)
    requires forall j: nat :: j < n ==> j in t
    ensures n <= |t|
    decreases n
  {
    if n > 0 {
      var rest := t - {n - 1};
      assert t.Keys == rest.Keys + {n - 1};
      InitialSegment(rest, n - 1);
    }
  }

  function Lowest(t: Table): nat {
    LowestFrom(t, 0)
  }

  /** `open`: the lowest free descriptor. */
  function Opened(t: Table, d: Desc): (Table, nat) {
    (t[Lowest(t) := d], Lowest(t))
  }

  /** `pipe`: the two lowest free descriptors, the read end first. */
  function Piped(t: Table, id: nat): (Table, nat, nat) {
    var r := Lowest(t);
    var w := Lowest(t[r := PipeRead(id)]);
    (t[r := PipeRead(id)][w := PipeWrite(id)], r, w)
  }

  lemma {:induction false} PipeEnds(t: Table, id: nat)
    requires 0 in t && 1 in t && 2 in t
    ensures var (t', r, w) := Piped(t, id);
            r !in t && w !in t && r != w && r > 2 && w > 2 && t' == t[r := PipeRead(id)][w := PipeWrite(id)]
  {
  }

  function Dup2(t: Table, from: int, to: nat): Option<Table> {
    if from >= 0 && from in t then Some(t[to := t[from]]) else None
  }

  function Close(t: Table, fd: int): Option<Table> {
    if fd >= 0 && fd in t then Some(t - {fd}) else None
  }

  /** `fd_check`: descriptors 3 to 19 are closed. */
  predicate Clean(t: Table) {
    forall fd: nat :: 3 <= fd < 20 ==> fd !in t
  }

  ghost predicate JustStandard(t: Table) {
    t.Keys == {0, 1, 2}
  }

  /** The table of a stage that execs: its three standard descriptors. */
  function Standard(i: Desc, o: Desc, e: Desc): Table {
    map[0 := i, 1 := o, 2 := e]
  }
}

/** Pipelines as the shell's grammar gives them, and how they are read from tokens. */
module Pipelines {
  import opened Descriptors
  import opened Tokenizing

  const MAXARG: nat := 50

  datatype Item = Arg(word: string) | From(file: string) | To(file: string, append: bool)

  type Stage = seq<Item>

  /** What reading a stage leaves in the variables of `command`. */
  datatype Parsed = Parsed(argv: seq<string>, srcfile: string, dstfile: string, append: bool)

  function Take(p: Parsed, item: Item): Parsed {
    match item
    case Arg(w) => if |p.argv| >= MAXARG - 1 then p else p.(argv := p.argv + [w])
    case From(f) => p.(srcfile := f)
    case To(f, a) => p.(dstfile := f, append := a)
  }

  function Parse(stage: Stage): Parsed {
    if stage == [] then Parsed([], "", "", false) else Take(Parse(stage[..|stage| - 1]), stage[|stage| - 1])
  }

  // ---------- what the variables hold ----------

  function ArgCount(stage: Stage): nat {
    if stage == [] then 0 else (if stage[0].Arg? then 1 else 0) + ArgCount(stage[1..])
  }

  predicate Redirects(stage: Stage) {
    exists i :: 0 <= i < |stage| && stage[i].To?
  }

  predicate Sourced(stage: Stage) {
    exists i :: 0 <= i < |stage| && stage[i].From?
  }

  lemma {:induction false} ArgCountMore(stage: Stage, item: Item)
    ensures ArgCount(stage + [item]) == ArgCount(stage) + if item.Arg? then 1 else 0
  {
    if stage != [] {
      assert (stage + [item])[1..] == stage[1..] + [item];
      ArgCountMore(stage[1..], item);
    }
  }

  /** All the arguments are there, up to the 49th. */
  lemma {:induction false} ArgvLength(stage: Stage)
    ensures |Parse(stage).argv| == if ArgCount(stage) < MAXARG - 1 then ArgCount(stage) else MAXARG - 1
  {
    if stage != [] {
      var n := |stage| - 1;
      ArgvLength(stage[..n]);
      assert stage == stage[..n] + [stage[n]];
      ArgCountMore(stage[..n], stage[n]);
    }
  }

  /** Each is in the place given by the number of arguments before it. */
  lemma {:induction false} ArgvAt(stage: Stage, i: nat)
    requires i < |stage| && stage[i].Arg? && ArgCount(stage[..i]) < MAXARG - 1
    ensures ArgCount(stage[..i]) < |Parse(stage).argv| && Parse(stage).argv[ArgCount(stage[..i])] == stage[i].word
  {
    var n := |stage| - 1;
    if i < n {
      assert stage[..n][..i] == stage[..i];
      ArgvAt(stage[..n], i);
    } else {
      ArgvLength(stage[..n]);
    }
  }

  /** The input file is that of the last `<`, the output file that of the last `>` or `>>`. */
  lemma {:induction false} LastRedirection(stage: Stage, i: nat)
    requires i < |stage|
    ensures stage[i].From? && (forall j :: i < j < |stage| ==> !stage[j].From?) ==> Parse(stage).srcfile == stage[i].file
    ensures stage[i].To? && (forall j :: i < j < |stage| ==> !stage[j].To?) ==>
              Parse(stage).dstfile == stage[i].file && Parse(stage).append == stage[i].append
  {
    var n := |stage| - 1;
    if i < n {
      LastRedirection(stage[..n], i);
    }
  }

  lemma {:induction false} NoRedirection(stage: Stage)
    ensures !Sourced(stage) ==> Parse(stage).srcfile == ""
    ensures !Redirects(stage) ==> Parse(stage).dstfile == ""
  {
    if stage != [] {
      var n := |stage| - 1;
      NoRedirection(stage[..n]);
      assert Sourced(stage[..n]) ==> Sourced(stage) by {
        if Sourced(stage[..n]) {
          var i :| 0 <= i < n && stage[..n][i].From?;
          assert stage[i].From?;
        }
      }
      assert Redirects(stage[..n]) ==> Redirects(stage) by {
        if Redirects(stage[..n]) {
          var i :| 0 <= i < n && stage[..n][i].To?;
          assert stage[i].To?;
        }
      }
    }
  }

  ghost predicate FilesNamed(stage: Stage) {
    forall i :: 0 <= i < |stage| && !stage[i].Arg? ==> stage[i].file != ""
  }

  /** A file name is set exactly when there is a redirection. */
  lemma {:induction false} NamedFiles(stage: Stage)
    requires FilesNamed(stage)
    ensures Parse(stage).srcfile != "" <==> Sourced(stage)
    ensures Parse(stage).dstfile != "" <==> Redirects(stage)
  {
    NoRedirection(stage);
    if stage != [] {
      var n := |stage| - 1;
      NamedFiles(stage[..n]);
      assert Sourced(stage) ==> Sourced(stage[..n]) || stage[n].From? by {
        if Sourced(stage) {
          var i :| 0 <= i < |stage| && stage[i].From?;
          assert i < n ==> stage[..n][i].From?;
        }
      }
      assert Redirects(stage) ==> Redirects(stage[..n]) || stage[n].To? by {
        if Redirects(stage) {
          var i :| 0 <= i < |stage| && stage[i].To?;
          assert i < n ==> stage[..n][i].To?;
        }
      }
    }
  }

  /** Commands the shell executes itself. */
  predicate Builtin(word: string) {
    '=' in word || word == "set" || word == "cd"
  }

  /** There is a command to run, and not one the shell runs itself. */
  predicate External(argv: seq<string>) {
    argv != [] && !Builtin(argv[0])
  }

  ghost predicate FirstArg(stage: Stage, i: nat) {
    i < |stage| && stage[i].Arg? && forall j :: 0 <= j < i ==> !stage[j].Arg?
  }

  /** The first argument decides: no argument, an assignment, `set` and `cd` start no process. */
  ghost predicate StartsProcess(stage: Stage) {
    exists i: nat :: FirstArg(stage, i) && '=' !in stage[i].word && stage[i].word != "set" && stage[i].word != "cd"
  }

  lemma {:induction false} ExternalStage(stage: Stage)
    ensures External(Parse(stage).argv) <==> StartsProcess(stage)
  {
    if ArgCount(stage) == 0 {
      ArgvLength(stage);
      NoFirstArg(stage);
    } else {
      var i := FindFirstArg(stage);
      NoArgs(stage[..i]);
      ArgvAt(stage, i);
      assert forall j: nat :: FirstArg(stage, j) ==> j == i;
    }
  }

  lemma {:induction false} NoFirstArg(stage: Stage)
    requires ArgCount(stage) == 0
    ensures forall j :: 0 <= j < |stage| ==> !stage[j].Arg?
  {
    if stage != [] {
      NoFirstArg(stage[1..]);
    }
  }

  lemma {:induction false} FindFirstArg(stage: Stage) returns (i: nat)
    requires ArgCount(stage) > 0
    ensures FirstArg(stage, i)
  {
    if stage[0].Arg? {
      i := 0;
    } else {
      i := FindFirstArg(stage[1..]);
      i := i + 1;
    }
  }

  lemma {:induction false} NoArgs(stage: Stage)
    requires forall j :: 0 <= j < |stage| ==> !stage[j].Arg?
    ensures ArgCount(stage) == 0
  {
    if stage != [] {
      NoArgs(stage[1..]);
    }
  }

  // ---------- the grammar ----------

  function ItemTokens(item: Item): seq<Token> {
    match item
    case Arg(w) => [Word(w)]
    case From(f) => [Lt, Word(f)]
    case To(f, a) => [if a then GtGt else Gt, Word(f)]
  }

  function StageTokens(stage: Stage): seq<Token> {
    if stage == [] then [] else ItemTokens(stage[0]) + StageTokens(stage[1..])
  }

  /** The tokens of a pipeline, up to and including its terminator. */
  function Tokens(stages: seq<Stage>, term: Token): seq<Token>
    requires stages != []
  {
    if |stages| == 1 then StageTokens(stages[0]) + [term]
    else StageTokens(stages[0]) + [Bar] + Tokens(stages[1..], term)
  }

  predicate Terminator(t: Token) {
    t == Amp || t == Semi || t == Nl
  }

  /** Input is redirected only in the first stage, output at most once and only in the last. */
  ghost predicate StageSyntax(stage: Stage, first: bool, last: bool) {
    && (forall i :: 0 <= i < |stage| && stage[i].From? ==> first)
    && (forall i :: 0 <= i < |stage| && stage[i].To? ==> last)
    && (forall i, j :: 0 <= i < j < |stage| ==> !(stage[i].To? && stage[j].To?))
  }

  ghost predicate PipelineSyntax(stages: seq<Stage>, first: bool) {
    stages != [] && forall i :: 0 <= i < |stages| ==> StageSyntax(stages[i], first && i == 0, i == |stages| - 1)
  }

  /** For each stage, whether it runs an external command. */
  function Externals(stages: seq<Stage>): (es: seq<bool>)
    ensures |es| == |stages| && forall i :: 0 <= i < |stages| ==> es[i] == External(Parse(stages[i]).argv)
  {
    seq(|stages|, i requires 0 <= i < |stages| => External(Parse(stages[i]).argv))
  }

  ghost predicate AllExternal(es: seq<bool>) {
    forall i :: 0 <= i < |es| ==> es[i]
  }

  /** A pipeline whose stages are all processes of their own, with files that have names. */
  ghost predicate PipelineOk(stages: seq<Stage>, first: bool) {
    PipelineSyntax(stages, first) && forall i :: 0 <= i < |stages| ==> External(Parse(stages[i]).argv) && FilesNamed(stages[i])
  }

  // ---------- reading a stage ----------

  /** The items read, the token that ended them, and the tokens left. */
  datatype Reading = Reading(stage: Stage, end: Token, rest: seq<Token>)

  function After(items: Stage, r: Reading): Reading {
    Reading(items + r.stage, r.end, r.rest)
  }

  /** How `command` reads a stage from any tokens: `first` says whether `<` is allowed,
      `redirected` whether output is redirected already.  After a message about something
      that is not allowed it reads on. */
  function ReadItems(tokens: seq<Token>, first: bool, redirected: bool): (r: Reading)
    ensures |r.rest| <= |tokens| && (tokens != [] ==> |r.rest| < |tokens|) && (r.end == Bar ==> tokens != [])
    decreases |tokens|, 0
  {
    if tokens == [] then Reading([], Eof, [])
    else
      var rest := tokens[1..];
      var more := if rest == [] then [] else rest[1..];
      match tokens[0]
      case Word(w) => After([Arg(w)], ReadItems(rest, first, redirected))
      case Lt =>
        if !first then ReadItems(rest, first, redirected)
        else if rest != [] && rest[0].Word? then After([From(rest[0].text)], ReadItems(more, first, redirected))
        else ReadItems(more, first, redirected)
      case Gt => ReadTarget(rest, first, redirected, false)
      case GtGt => ReadTarget(rest, first, redirected, true)
      case Bar => if redirected then ReadItems(rest, first, redirected) else Reading([], Bar, rest)
      case t => Reading([], t, rest)
  }

  function ReadTarget(tokens: seq<Token>, first: bool, redirected: bool, append: bool): (r: Reading)
    ensures |r.rest| <= |tokens|
    ensures r.end == Bar ==> tokens != []
    decreases |tokens|, 1
  {
    var more := if tokens == [] then [] else tokens[1..];
    if redirected then ReadItems(tokens, first, redirected)
    else if tokens != [] && tokens[0].Word? then After([To(tokens[0].text, append)], ReadItems(more, first, true))
    else ReadItems(more, first, redirected)
  }

  /** Allowed items in front are read as they are. */
  lemma {:induction false} ReadAllowed(stage: Stage, more: seq<Token>, first: bool, redirected: bool)
    requires StageSyntax(stage, first, !redirected)
    ensures ReadItems(StageTokens(stage) + more, first, redirected) ==
            After(stage, ReadItems(more, first, redirected || Redirects(stage)))
    decreases |stage|
  {
    hide *;
    if stage == [] {
      NothingFirst(more, ReadItems(more, first, redirected));
    } else {
      var item, tail := stage[0], stage[1..];
      var redirected' := redirected || item.To?;
      FirstOfStage(stage, first, !redirected);
      FirstTokens(stage, more);
      ReadItem(item, StageTokens(tail) + more, first, redirected);
      ReadAllowed(tail, more, first, redirected');
      AfterAfter(item, tail, ReadItems(more, first, redirected || Redirects(stage)));
    }
  }

  lemma {:induction false} NothingFirst(more: seq<Token>, r: Reading)
    ensures StageTokens([]) + more == more && !Redirects([]) && After([], r) == r
  {
    assert [] + r.stage == r.stage;
  }

  lemma {:induction false} FirstTokens(stage: Stage, more: seq<Token>)
    requires stage != []
    ensures StageTokens(stage) + more == ItemTokens(stage[0]) + (StageTokens(stage[1..]) + more)
    ensures stage == [stage[0]] + stage[1..]
  {
    hide ItemTokens;
    var item, tail := ItemTokens(stage[0]), StageTokens(stage[1..]);
    assert StageTokens(stage) == item + tail;
    hide StageTokens;
    assert item + tail + more == item + (tail + more);
  }

  lemma {:induction false} FirstOfStage(stage: Stage, first: bool, last: bool)
    requires stage != [] && StageSyntax(stage, first, last)
    ensures (stage[0].From? ==> first) && (stage[0].To? ==> last) && StageSyntax(stage[1..], first, last && !stage[0].To?)
    ensures Redirects(stage) <==> stage[0].To? || Redirects(stage[1..])
  {
    RedirectsTail(stage);
  }

  lemma {:induction false} RedirectsTail(stage: Stage)
    requires stage != []
    ensures Redirects(stage) <==> stage[0].To? || Redirects(stage[1..])
  {
    if Redirects(stage) {
      var i :| 0 <= i < |stage| && stage[i].To?;
      assert i > 0 ==> stage[1..][i - 1].To?;
    }
    if Redirects(stage[1..]) {
      var i :| 0 <= i < |stage[1..]| && stage[1..][i].To?;
      assert stage[i + 1].To?;
    }
  }

  lemma {:induction false} AfterAfter(item: Item, tail: Stage, r: Reading)
    ensures After([item], After(tail, r)) == After([item] + tail, r)
  {
    assert [item] + (tail + r.stage) == [item] + tail + r.stage;
  }

  lemma {:induction false} ReadItem(item: Item, more: seq<Token>, first: bool, redirected: bool)
    requires (item.From? ==> first) && (item.To? ==> !redirected)
    ensures ReadItems(ItemTokens(item) + more, first, redirected) ==
            After([item], ReadItems(more, first, redirected || item.To?))
  {
    var tokens := ItemTokens(item) + more;
    match item
    case Arg(w) =>
      assert tokens == [Word(w)] + more && tokens[1..] == more;
    case From(f) =>
      assert tokens == [Lt, Word(f)] + more && tokens[1..] == [Word(f)] + more && tokens[1..][1..] == more;
    case To(f, a) =>
      var t := if a then GtGt else Gt;
      assert tokens == [t, Word(f)] + more && tokens[1..] == [Word(f)] + more && tokens[1..][1..] == more;
  }

  /** A stage the grammar allows is read as it is. */
  lemma {:induction false} ReadLegal(stage: Stage, end: Token, rest: seq<Token>, first: bool)
    requires StageSyntax(stage, first, end != Bar) && (Terminator(end) || end == Bar)
    ensures ReadItems(StageTokens(stage) + [end] + rest, first, false) == Reading(stage, end, rest)
  {
    hide StageTokens;
    assert StageTokens(stage) + [end] + rest == StageTokens(stage) + ([end] + rest);
    assert StageSyntax(stage, first, true);
    ReadAllowed(stage, [end] + rest, first, false);
    assert ([end] + rest)[1..] == rest;
    assert stage + [] == stage;
  }

  /** What is not allowed is left out: after any allowed items, a `<` in a later stage, and a
      second `>`, a `>>` or a bar after output is redirected, are as if they were not there;
      a redirection with no word after it disappears together with the token after it. */
  lemma {:induction false} MalformedIsDropped(stage: Stage, t: Token, u: Token, more: seq<Token>, first: bool)
    requires StageSyntax(stage, first, true)
    ensures (t == Lt && !first) || ((t == Gt || t == GtGt || t == Bar) && Redirects(stage)) ==>
              ReadItems(StageTokens(stage) + [t] + more, first, false) == ReadItems(StageTokens(stage) + more, first, false)
    ensures ((t == Lt && first) || ((t == Gt || t == GtGt) && !Redirects(stage))) && !u.Word? ==>
              ReadItems(StageTokens(stage) + [t, u] + more, first, false) == ReadItems(StageTokens(stage) + more, first, false)
  {
    hide *;
    ReadAllowed(stage, more, first, false);
    assert StageTokens(stage) + [t] + more == StageTokens(stage) + ([t] + more);
    ReadAllowed(stage, [t] + more, first, false);
    assert StageTokens(stage) + [t, u] + more == StageTokens(stage) + ([t, u] + more);
    ReadAllowed(stage, [t, u] + more, first, false);
    SkipMalformed(t, u, more, first, Redirects(stage));
  }

  lemma {:induction false} SkipMalformed(t: Token, u: Token, more: seq<Token>, first: bool, redirected: bool)
    ensures (t == Lt && !first) || ((t == Gt || t == GtGt || t == Bar) && redirected) ==>
              ReadItems([t] + more, first, redirected) == ReadItems(more, first, redirected)
    ensures ((t == Lt && first) || ((t == Gt || t == GtGt) && !redirected)) && !u.Word? ==>
              ReadItems([t, u] + more, first, redirected) == ReadItems(more, first, redirected)
  {
    assert ([t] + more)[1..] == more && ([t, u] + more)[1..] == [u] + more && ([t, u] + more)[1..][1..] == more;
  }

  /** Whatever the tokens, what has been read is allowed. */
  lemma {:induction false} ReadIsAllowed(tokens: seq<Token>, first: bool, redirected: bool)
    ensures var r := ReadItems(tokens, first, redirected);
            && StageSyntax(r.stage, first, !redirected && r.end != Bar)
            && (r.end == Bar || Terminator(r.end) || r.end == Eof || r.end == Error)
            && (r.end == Bar ==> !redirected)
    decreases |tokens|
  {
    if tokens != [] {
      var t, rest := tokens[0], tokens[1..];
      var more := if rest == [] then [] else rest[1..];
      ReadIsAllowed(rest, first, redirected);
      ReadIsAllowed(more, first, redirected);
      if t.Word? {
        var r := ReadItems(rest, first, redirected);
        OneMoreItem(Arg(t.text), r, first, !redirected && r.end != Bar);
      } else if rest != [] && rest[0].Word? {
        if t == Lt && first {
          var r := ReadItems(more, first, redirected);
          OneMoreItem(From(rest[0].text), r, first, !redirected && r.end != Bar);
        } else if (t == Gt || t == GtGt) && !redirected {
          ReadIsAllowed(more, first, true);
          OneMoreItem(To(rest[0].text, t == GtGt), ReadItems(more, first, true), first, true);
        }
      }
    }
  }

  lemma {:induction false} OneMoreItem(item: Item, r: Reading, first: bool, last: bool)
    requires (item.From? ==> first) && (item.To? ==> last) && StageSyntax(r.stage, first, last && !item.To?)
    ensures StageSyntax(After([item], r).stage, first, last)
  {
  }

  // ---------- reading a pipeline ----------

  datatype Line = Line(stages: seq<Stage>, end: Token, rest: seq<Token>)

  /** The stages up to the first token that ends a pipeline. */
  function ReadPipeline(tokens: seq<Token>, first: bool): (l: Line)
    ensures l.stages != [] && |l.rest| <= |tokens|
    decreases |tokens|
  {
    var r := ReadItems(tokens, first, false);
    if r.end == Bar then
      var l := ReadPipeline(r.rest, false);
      l.(stages := [r.stage] + l.stages)
    else Line([r.stage], r.end, r.rest)
  }

  /** A pipeline the grammar allows is read as it is. */
  lemma {:induction false} ReadLegalPipeline(stages: seq<Stage>, end: Token, rest: seq<Token>, first: bool)
    requires PipelineSyntax(stages, first) && Terminator(end)
    ensures ReadPipeline(Tokens(stages, end) + rest, first) == Line(stages, end, rest)
    decreases |stages|
  {
    hide ReadItems;
    assert StageSyntax(stages[0], first, |stages| == 1);
    if |stages| == 1 {
      ReadLegal(stages[0], end, rest, first);
    } else {
      var more := Tokens(stages[1..], end) + rest;
      assert Tokens(stages, end) + rest == StageTokens(stages[0]) + [Bar] + more;
      ReadLegal(stages[0], Bar, more, first);
      assert PipelineSyntax(stages[1..], false);
      ReadLegalPipeline(stages[1..], end, rest, false);
      assert [stages[0]] + stages[1..] == stages;
    }
  }

  /** Whatever the tokens, the pipeline read is allowed: a command line with mistakes in it
      runs as some command line without. */
  lemma {:induction false} PipelineReadIsAllowed(tokens: seq<Token>, first: bool)
    ensures var l := ReadPipeline(tokens, first);
            PipelineSyntax(l.stages, first) && (Terminator(l.end) || l.end == Eof || l.end == Error)
    decreases |tokens|
  {
    hide ReadItems, StageSyntax;
    var r := ReadItems(tokens, first, false);
    ReadIsAllowed(tokens, first, false);
    if r.end == Bar {
      PipelineReadIsAllowed(r.rest, false);
    }
  }

  // ---------- typing a pipeline ----------

  function ItemText(item: Item, quote: bool): string {
    match item
    case Arg(w) => Spelled(w, quote) + " "
    case From(f) => "< " + Spelled(f, quote) + " "
    case To(f, a) => (if a then ">> " else "> ") + Spelled(f, quote) + " "
  }

  function StageText(stage: Stage, quote: seq<bool>): string
    requires |quote| == |stage|
  {
    if stage == [] then "" else ItemText(stage[0], quote[0]) + StageText(stage[1..], quote[1..])
  }

  ghost predicate QuotesFor(stages: seq<Stage>, quote: seq<seq<bool>>) {
    |quote| == |stages| && forall i :: 0 <= i < |stages| ==> |quote[i]| == |stages[i]|
  }

  /** The stages with bars between them. */
  ghost function PipelineText(stages: seq<Stage>, quote: seq<seq<bool>>): string
    requires stages != [] && QuotesFor(stages, quote)
  {
    if |stages| == 1 then StageText(stages[0], quote[0])
    else StageText(stages[0], quote[0]) + "| " + PipelineText(stages[1..], quote[1..])
  }

  ghost predicate ItemFits(item: Item, max: nat) {
    match item case Arg(w) => |w| < max case From(f) => |f| < max case To(f, _) => |f| < max
  }

  ghost predicate StageFits(stage: Stage, max: nat) {
    forall j :: 0 <= j < |stage| ==> ItemFits(stage[j], max)
  }

  lemma {:induction false} LexItem(item: Item, quote: bool, tail: string, max: nat)
    requires ItemFits(item, max)
    ensures LexAll(ItemText(item, quote) + tail, max) == ItemTokens(item) + LexAll(tail, max)
  {
    hide LexAll, ShowAll, Escaped, Needed, Plain;
    match item
    case Arg(w) =>
      ShowWord(w, quote);
      RoundTrip([Word(w)], [quote], tail, max);
    case From(f) =>
      ShowRedirection(Lt, f, quote);
      RoundTrip([Lt, Word(f)], [false, quote], tail, max);
    case To(f, a) =>
      ShowRedirection(if a then GtGt else Gt, f, quote);
      RoundTrip([if a then GtGt else Gt, Word(f)], [false, quote], tail, max);
  }

  lemma {:induction false} ShowWord(w: string, quote: bool)
    ensures ShowAll([Word(w)], [quote]) == Spelled(w, quote) + " "
  {
    assert ShowAll([Word(w)][1..], [quote][1..]) == "";
  }

  lemma {:induction false} ShowRedirection(t: Token, w: string, quote: bool)
    requires t == Lt || t == Gt || t == GtGt
    ensures ShowAll([t, Word(w)], [false, quote]) ==
            (match t case Lt => "< " case Gt => "> " case _ => ">> ") + Spelled(w, quote) + " "
  {
    hide Escaped, Needed, Plain;
    ShowWord(w, quote);
    assert [t, Word(w)][1..] == [Word(w)] && [false, quote][1..] == [quote];
  }

  lemma {:induction false} LexStage(stage: Stage, quote: seq<bool>, tail: string, max: nat)
    requires |quote| == |stage| && StageFits(stage, max)
    ensures LexAll(StageText(stage, quote) + tail, max) == StageTokens(stage) + LexAll(tail, max)
  {
    hide LexAll, ItemText, ItemTokens, ItemFits;
    if stage == [] {
      assert StageText(stage, quote) + tail == tail;
    } else {
      var more := StageText(stage[1..], quote[1..]) + tail;
      assert StageText(stage, quote) + tail == ItemText(stage[0], quote[0]) + more;
      LexItem(stage[0], quote[0], more, max);
      LexStage(stage[1..], quote[1..], tail, max);
    }
  }

  /** The character that ends a pipeline. */
  function EndChar(end: Token): char
    requires Terminator(end)
  {
    match end case Amp => '&' case Semi => ';' case Nl => '\n'
  }

  lemma {:induction false} LexPipeline(stages: seq<Stage>, quote: seq<seq<bool>>, end: Token, tail: string, max: nat)
    requires stages != [] && QuotesFor(stages, quote) && Terminator(end)
    requires forall i :: 0 <= i < |stages| ==> StageFits(stages[i], max)
    ensures LexAll(PipelineText(stages, quote) + [EndChar(end)] + tail, max) == Tokens(stages, end) + LexAll(tail, max)
    decreases |stages|
  {
    hide LexAll, StageText, StageTokens, StageFits;
    var text := StageText(stages[0], quote[0]);
    if |stages| == 1 {
      var more := [EndChar(end)] + tail;
      assert PipelineText(stages, quote) + [EndChar(end)] + tail == text + more;
      LexStage(stages[0], quote[0], more, max);
      LexEnd(end, tail, max);
    } else {
      var more := PipelineText(stages[1..], quote[1..]) + [EndChar(end)] + tail;
      assert PipelineText(stages, quote) + [EndChar(end)] + tail == text + ("| " + more);
      LexStage(stages[0], quote[0], "| " + more, max);
      LexBar(more, max);
      LexPipeline(stages[1..], quote[1..], end, tail, max);
    }
  }

  lemma {:induction false} LexEnd(end: Token, tail: string, max: nat)
    requires Terminator(end)
    ensures LexAll([EndChar(end)] + tail, max) == [end] + LexAll(tail, max)
  {
    hide Lex, LexAll;
    SymbolTokens(tail, max);
    LexAllStep([EndChar(end)] + tail, end, tail, max);
  }

  lemma {:induction false} LexBar(more: string, max: nat)
    ensures LexAll("| " + more, max) == [Bar] + LexAll(more, max)
  {
    hide Lex, LexAll;
    assert "| " + more == "|" + (" " + more);
    SymbolTokens(" " + more, max);
    LexAllStep("|" + (" " + more), Bar, " " + more, max);
    SkipBlank(more, max);
  }

  /** A pipeline typed in, its words quoted or not, is the pipeline the shell reads, and what
      is typed after it is left for the next one. */
  lemma {:induction false} TypedPipeline(stages: seq<Stage>, quote: seq<seq<bool>>, end: Token, tail: string, max: nat)
    requires PipelineSyntax(stages, true) && QuotesFor(stages, quote) && Terminator(end)
    requires forall i :: 0 <= i < |stages| ==> StageFits(stages[i], max)
    ensures ReadPipeline(LexAll(PipelineText(stages, quote) + [EndChar(end)] + tail, max), true) ==
            Line(stages, end, LexAll(tail, max))
  {
    hide LexAll, ReadPipeline, PipelineText, Tokens, StageSyntax, StageFits;
    LexPipeline(stages, quote, end, tail, max);
    ReadLegalPipeline(stages, end, LexAll(tail, max), true);
  }

  // ---------- the processes of a pipeline ----------

  /** The command's name as the program sees it: what follows the first slash. */
  function AfterSlash(s: string): string {
    if s == "" then "" else if s[0] == '/' then s[1..] else AfterSlash(s[1..])
  }

  function ProgramName(path: string): string {
    if '/' in path then AfterSlash(path) else path
  }

  /** `name` is all of `path`, or what follows its first slash. */
  ghost predicate NamesProgram(path: string, name: string) {
    ('/' !in path && name == path) || exists i :: 0 <= i < |path| && path[i] == '/' && '/' !in path[..i] && name == path[i + 1..]
  }

  lemma {:induction false} ProgramNameIs(path: string)
    ensures NamesProgram(path, ProgramName(path))
  {
    if '/' in path {
      var i := FirstSlash(path);
    }
  }

  lemma {:induction false} FirstSlash(path: string) returns (i: nat)
    requires '/' in path
    ensures i < |path| && path[i] == '/' && '/' !in path[..i] && AfterSlash(path) == path[i + 1..]
  {
    if path[0] == '/' {
      i := 0;
    } else {
      i := FirstSlash(path[1..]);
      assert path[..i + 1] == [path[0]] + path[1..][..i];
      i := i + 1;
    }
  }

  /** A process as it execs. */
  datatype Child = Child(pid: nat, path: string, argv: seq<string>, table: Table)

  /** Standard input of stage `i` of `n`, when the pipes made for them start at `pipe`.
      The last stage's pipe is made first. */
  function Input(stages: seq<Stage>, i: nat, first: bool, bg: bool, pipe: nat, base: Table): Desc
    requires i < |stages| && 0 in base
  {
    if i > 0 || !first then PipeRead(pipe + |stages| - 1 - i)
    else if Parse(stages[i]).srcfile != "" then Source(Parse(stages[i]).srcfile)
    else if bg then Source("/dev/null")
    else base[0]
  }

  function Output(stages: seq<Stage>, i: nat, pipe: nat, base: Table): Desc
    requires i < |stages| && 1 in base
  {
    var p := Parse(stages[i]);
    if i + 1 < |stages| then PipeWrite(pipe + |stages| - 2 - i)
    else if p.dstfile != "" then Sink(p.dstfile, p.append)
    else base[1]
  }

  /** The process stage `i` becomes. */
  function Launched(stages: seq<Stage>, i: nat, first: bool, bg: bool, pipe: nat, base: Table, pid: nat): Child
    requires i < |stages| && Parse(stages[i]).argv != [] && 0 in base && 1 in base && 2 in base
  {
    var argv := Parse(stages[i]).argv;
    Child(pid + |stages| - 1 - i, argv[0], argv[0 := ProgramName(argv[0])],
          Standard(Input(stages, i, first, bg, pipe, base), Output(stages, i, pipe, base), base[2]))
  }
}

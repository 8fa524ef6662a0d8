/** Safety of the messaging protocol over every schedule: who holds each segment,
    what its message area contains, and what every client has been told. */
module SmiSafety {
  import opened Smi
  import opened Sets

  predicate Sending(c: Client) { c.pc.Stamp? || c.pc.Copy? || c.pc.Announce? }

  predicate Receiving(c: Client) { c.pc.Read? || c.pc.Release? }

  /** The server is between receive_getaddr and receive_release. */
  predicate ServerReads(pc: ServerPc) {
    pc.Save? || pc.Find? || pc.Lock? || pc.Fetch? || pc.Store? || pc.Free?
  }

  /** The server is between send_getaddr and send_release. */
  predicate ServerWrites(pc: ServerPc) {
    pc.Fetch? || pc.Store? || pc.Free? || pc.Post?
  }

  /** The process the server is working for; after Save it is the saved copy. */
  function CurrentPid(s: State): int {
    if s.pc.Save? then s.srv.from else s.saved
  }

  predicate Serving(cfg: Config, s: State, k: nat)
    requires k < |cfg.pids|
  {
    !s.pc.Listen? && CurrentPid(s) == cfg.pids[k]
  }

  predicate Queued(cfg: Config, s: State, k: nat)
    requires k < |cfg.pids|
  {
    s.srv.r == 1 && s.srv.from == cfg.pids[k]
  }

  /** The first `j` characters of `t` have been written. */
  predicate HasPrefix(data: string, t: string, j: nat) {
    j <= |t| && j <= |data| && data[..j] == t[..j]
  }

  ghost predicate TableOk(cfg: Config, s: State) {
    !cfg.sysv ==>
    && |s.table| == MAX_CLIENTS
    && (forall i :: 0 <= i < |s.table| ==> s.table[i] == 0 || s.table[i] in cfg.pids)
    && (forall i, j :: 0 <= i < j < |s.table| && s.table[i] != 0 ==> s.table[i] != s.table[j])
  }

  /** Who may be using the server segment. */
  ghost predicate ServerSegmentOk(s: State) {
    && s.srv.w + s.srv.r <= 1
    && (s.srv.w + s.srv.r == 1 ==> !ServerReads(s.pc) && forall k :: 0 <= k < |s.clients| ==> !Sending(s.clients[k]))
    && (ServerReads(s.pc) ==> forall k :: 0 <= k < |s.clients| ==> !Sending(s.clients[k]))
    && (forall k, l :: 0 <= k < |s.clients| && 0 <= l < |s.clients| && Sending(s.clients[k]) && Sending(s.clients[l]) ==> k == l)
    && (s.srv.w + s.srv.r == 0 && !ServerReads(s.pc) ==> exists k :: 0 <= k < |s.clients| && Sending(s.clients[k]))
  }

  ghost predicate ServerOk(cfg: Config, s: State) {
    && !s.pc.Failed?
    && (s.srv.r == 1 ==> s.srv.from in cfg.pids)
    && (!s.pc.Listen? ==> CurrentPid(s) in cfg.pids)
    && (ServerReads(s.pc) ==> s.srv.from == CurrentPid(s))
    && (s.pc.Lock? || s.pc.Fetch? || s.pc.Store? ==> s.pc.k < |cfg.pids| && cfg.pids[s.pc.k] == s.saved)
  }

  /** What holds while client `k` waits for the reply to `text`. */
  ghost predicate AwaitOk(cfg: Config, s: State, k: nat, text: string)
    requires k < |cfg.pids| && k < |s.segs|
  {
    var seg := s.segs[k];
    if Queued(cfg, s, k) then
      !Serving(cfg, s, k) && seg.w == 1 && seg.r == 0 && HasString(s.srv.data, text)
    else if Serving(cfg, s, k) then
      && seg.r == 0 && seg.w == (if ServerWrites(s.pc) then 0 else 1)
      && (ServerReads(s.pc) ==> HasString(s.srv.data, text))
      && (match s.pc
          case Fetch(_, j) => HasPrefix(seg.data, UpperAll(text), j)
          case Store(_, j, ch) => HasPrefix(seg.data, UpperAll(text), j) && ch == (text + [NUL])[j]
          case Free => HasString(seg.data, UpperAll(text))
          case Post => HasString(seg.data, UpperAll(text))
          case _ => true)
    else
      seg.w == 0 && seg.r == 1 && HasString(seg.data, UpperAll(text))
  }

  /** The replies so far are the upper-cased requests, in order. */
  ghost predicate RepliesOk(work: seq<string>, c: Client) {
    && |c.replies| == (if c.pc.Release? then c.i + 1 else c.i) <= |work|
    && forall n :: 0 <= n < |c.replies| ==> c.replies[n] == UpperAll(work[n])
  }

  ghost predicate ClientOk(cfg: Config, s: State, k: nat)
    requires Fits(cfg, s) && k < |cfg.pids|
  {
    var c := s.clients[k];
    var seg := s.segs[k];
    && RepliesOk(cfg.work[k], c)
    && |seg.data| == cfg.cap
    && (if c.pc.Idle? then
          !Queued(cfg, s, k) && !Serving(cfg, s, k) && seg.w == 1 && seg.r == 0
        else
          c.i < |cfg.work[k]| &&
          var text := cfg.work[k][c.i];
          if c.pc.Await? then AwaitOk(cfg, s, k, text)
          else
            && !Queued(cfg, s, k) && !Serving(cfg, s, k)
            && seg.r == 0 && seg.w == (if Sending(c) then 1 else 0)
            && (match c.pc
                case Copy(j) => s.srv.from == cfg.pids[k] && HasPrefix(s.srv.data, text, j)
                case Announce => s.srv.from == cfg.pids[k] && HasString(s.srv.data, text)
                case Read(j) => j <= |text| && c.line == UpperAll(text)[..j] && HasString(seg.data, UpperAll(text))
                case _ => true))
  }

  ghost predicate Inv(cfg: Config, s: State) {
    && ConfigOk(cfg) && Fits(cfg, s) && |s.srv.data| == cfg.cap
    && TableOk(cfg, s) && ServerSegmentOk(s) && ServerOk(cfg, s)
    && forall k :: 0 <= k < |cfg.pids| ==> ClientOk(cfg, s, k)
  }

  lemma {:induction false} InitInv(cfg: Config, s: State)
    requires ConfigOk(cfg) && Init(cfg, s)
    ensures Inv(cfg, s)
  {
  }

  // ---------- a client's step ----------

  lemma {:induction false} PrefixGrows(data: string, t: string, j: nat, ch: char)
    requires HasPrefix(data, t, j) && j < |data|
    ensures j < |t| && ch == t[j] ==> HasPrefix(data[j := ch], t, j + 1)
    ensures j == |t| && ch == NUL ==> HasString(data[j := ch], t)
  {
    assert data[j := ch][..j] == data[..j];
    if j < |t| && ch == t[j] {
      assert data[j := ch][..j + 1] == data[..j] + [ch];
      assert t[..j + 1] == t[..j] + [t[j]];
    }
  }

  lemma {:induction false} OwnClientOk(cfg: Config, s: State, k: nat)
    requires Inv(cfg, s) && ClientEnabled(cfg, s, k)
    ensures ClientOk(cfg, ClientStep(cfg, s, k), k)
  {
    hide TableOk, GetClient, SegmentOf;
    assert ClientOk(cfg, s, k);
    var c := s.clients[k];
    var text := cfg.work[k][c.i];
    match c.pc
    case Copy(j) => PrefixGrows(s.srv.data, text, j, if j < |text| then text[j] else NUL);
    case Read(j) =>
      var up := UpperAll(text);
      assert s.segs[k].data[..|up|] == up;
      if j < |text| {
        assert s.segs[k].data[j] == up[j] != NUL;
        assert up[..j + 1] == up[..j] + [up[j]];
      } else {
        assert up[..j] == up;
      }
    case _ =>
  }

  lemma {:induction false} OtherClientOk(cfg: Config, s: State, k: nat, l: nat)
    requires Inv(cfg, s) && ClientEnabled(cfg, s, k)
    requires l < |cfg.pids| && l != k
    ensures ClientOk(cfg, ClientStep(cfg, s, k), l)
  {
    hide TableOk, GetClient, SegmentOf, RepliesOk;
    assert ClientOk(cfg, s, l) && ClientOk(cfg, s, k);
    var t := ClientStep(cfg, s, k);
    assert t.clients[l] == s.clients[l] && t.segs[l] == s.segs[l] && t.pc == s.pc;
    assert cfg.pids[k] != cfg.pids[l];
    assert t.srv != s.srv ==> Sending(s.clients[k]) || s.clients[k].pc.Idle?;
  }

  lemma {:induction false} ClientKeepsServerSegment(cfg: Config, s: State, k: nat)
    requires Inv(cfg, s) && ClientEnabled(cfg, s, k)
    ensures ServerSegmentOk(ClientStep(cfg, s, k)) && ServerOk(cfg, ClientStep(cfg, s, k))
  {
    hide TableOk, GetClient, SegmentOf, RepliesOk, HasString, HasPrefix;
    assert ClientOk(cfg, s, k);
    var t := ClientStep(cfg, s, k);
    var c := s.clients[k];
    assert forall l :: 0 <= l < |s.clients| && l != k ==> t.clients[l] == s.clients[l];
    assert Sending(c) ==> s.srv.w + s.srv.r == 0 && !ServerReads(s.pc);
    if t.srv.w + t.srv.r == 0 && !ServerReads(t.pc) && !Sending(t.clients[k]) {
      var l :| 0 <= l < |s.clients| && Sending(s.clients[l]);
      assert l != k;
      assert Sending(t.clients[l]);
    }
  }

  lemma {:induction false} ClientStepInv(cfg: Config, s: State, k: nat)
    requires Inv(cfg, s) && ClientEnabled(cfg, s, k)
    ensures Inv(cfg, ClientStep(cfg, s, k))
  {
    ClientKeepsServerSegment(cfg, s, k);
    forall l | 0 <= l < |cfg.pids|
      ensures ClientOk(cfg, ClientStep(cfg, s, k), l)
    {
      if l == k { OwnClientOk(cfg, s, k); } else { OtherClientOk(cfg, s, k, l); }
    }
  }

  // ---------- the server's step ----------

  /** The client the server is working for. */
  function Current(cfg: Config, s: State): (k: nat)
    requires CurrentPid(s) in cfg.pids
    ensures k < |cfg.pids| && cfg.pids[k] == CurrentPid(s)
  {
    FirstIndex(cfg.pids, CurrentPid(s))
  }

  lemma {:induction false} ServedClientOk(cfg: Config, s: State)
    requires Inv(cfg, s) && ServerEnabled(cfg, s) && !s.pc.Listen?
    ensures ClientOk(cfg, ServerStep(cfg, s), Current(cfg, s))
  {
    hide TableOk, ServerSegmentOk, RepliesOk;
    var k := Current(cfg, s);
    assert ClientOk(cfg, s, k);
    var text := cfg.work[k][s.clients[k].i];
    match s.pc
    case Fetch(_, j) =>
      assert (text + [NUL])[j] == s.srv.data[j];
    case Store(_, j, ch) =>
      PrefixGrows(s.segs[k].data, UpperAll(text), j, Upper(ch));
    case Post =>
      SlotAvailable(cfg, s, s.saved);
    case _ =>
  }

  lemma {:induction false} OthersUnderServer(cfg: Config, s: State, l: nat)
    requires Inv(cfg, s) && ServerEnabled(cfg, s)
    requires l < |cfg.pids| && (s.pc.Listen? || l != Current(cfg, s))
    ensures ClientOk(cfg, ServerStep(cfg, s), l)
  {
    hide TableOk, RepliesOk, HasString, HasPrefix;
    assert ClientOk(cfg, s, l);
    if !s.pc.Listen? {
      assert ClientOk(cfg, s, Current(cfg, s));
    }
  }

  lemma {:induction false} DistinctCount(xs: seq<int>)
    requires forall i, j :: 0 <= i < j < |xs| ==> xs[i] != xs[j]
    ensures |set x | x in xs| == |xs|
  {
    if xs != [] {
      DistinctCount(xs[1..]);
      assert (set x | x in xs) == {xs[0]} + set x | x in xs[1..];
    }
  }

  /** Pigeonhole: a table that holds only clients has room for one more of them. */
  lemma {:induction false} SlotAvailable(cfg: Config, s: State, pid: int)
    requires ConfigOk(cfg) && TableOk(cfg, s) && pid in cfg.pids
    ensures SegmentOf(cfg, s.table, pid).Some?
  {
    if !cfg.sysv && GetClient(s.table, pid) == None {
      var used, all := set x | x in s.table, set x | x in cfg.pids;
      assert 0 !in s.table && pid !in s.table;
      DistinctCount(s.table);
      DistinctCount(cfg.pids);
      assert used + {pid} <= all;
      SubsetSize(used + {pid}, all);
      assert false;
    }
  }

  lemma {:induction false} ServerKeepsTable(cfg: Config, s: State)
    requires Inv(cfg, s) && ServerEnabled(cfg, s)
    ensures TableOk(cfg, ServerStep(cfg, s)) && ServerOk(cfg, ServerStep(cfg, s))
  {
    if s.pc.Find? || s.pc.Post? {
      SlotAvailable(cfg, s, CurrentPid(s));
    }
  }

  lemma {:induction false} ServerKeepsServerSegment(cfg: Config, s: State)
    requires Inv(cfg, s) && ServerEnabled(cfg, s)
    ensures ServerSegmentOk(ServerStep(cfg, s))
  {
    ServerKeepsTable(cfg, s);
  }

  lemma {:induction false} ServerStepInv(cfg: Config, s: State)
    requires Inv(cfg, s) && ServerEnabled(cfg, s)
    ensures Inv(cfg, ServerStep(cfg, s))
  {
    ServerKeepsTable(cfg, s);
    ServerKeepsServerSegment(cfg, s);
    forall l | 0 <= l < |cfg.pids|
      ensures ClientOk(cfg, ServerStep(cfg, s), l)
    {
      if !s.pc.Listen? && l == Current(cfg, s) { ServedClientOk(cfg, s); } else { OthersUnderServer(cfg, s, l); }
    }
  }

  lemma {:induction false} RunInv(cfg: Config, s: State, sched: seq<Actor>)
    requires Inv(cfg, s) && Legal(cfg, s, sched)
    ensures Inv(cfg, Exec(cfg, s, sched))
    decreases |sched|
  {
    if sched != [] {
      match sched[0] {
        case Server => ServerStepInv(cfg, s);
        case ClientProc(k) => ClientStepInv(cfg, s, k);
      }
      RunInv(cfg, Next(cfg, s, sched[0]), sched[1..]);
    }
  }

  // ---------- what every run guarantees ----------

  /** After any schedule, every client has been told exactly the upper-cased forms of
      a prefix of its own requests, in order. */
  lemma {:induction false} RepliesAreOwnRequestsUpperCased(cfg: Config, s0: State, sched: seq<Actor>, k: nat)
    requires ConfigOk(cfg) && Init(cfg, s0) && Legal(cfg, s0, sched)
    requires k < |cfg.pids|
    ensures Answers(cfg.work[k], Exec(cfg, s0, sched).clients[k].replies)
  {
    InitInv(cfg, s0);
    RunInv(cfg, s0, sched);
    assert ClientOk(cfg, Exec(cfg, s0, sched), k);
    UpperAllAnswers(cfg.work[k], Exec(cfg, s0, sched).clients[k].replies);
  }

  /** The processes between getaddr and release on the server segment. */
  ghost function ServerSegmentHolders(s: State): set<Actor> {
    (if ServerReads(s.pc) then {Server} else {}) +
    (set k: nat | k < |s.clients| && Sending(s.clients[k]) :: ClientProc(k))
  }

  /** The processes between getaddr and release on client `k`'s segment. */
  ghost function ClientSegmentHolders(cfg: Config, s: State, k: nat): set<Actor>
    requires Fits(cfg, s) && k < |cfg.pids|
  {
    (if ServerWrites(s.pc) && s.saved == cfg.pids[k] then {Server} else {}) +
    (if Receiving(s.clients[k]) then {ClientProc(k)} else {})
  }

  /** Conservation: on every segment, in every reachable state, the write semaphore,
      the read semaphore and the number of holders add up to one. */
  lemma {:induction false} OneTokenPerSegment(cfg: Config, s0: State, sched: seq<Actor>, k: nat)
    requires ConfigOk(cfg) && Init(cfg, s0) && Legal(cfg, s0, sched)
    requires k < |cfg.pids|
    ensures var s := Exec(cfg, s0, sched);
            && s.srv.w + s.srv.r + |ServerSegmentHolders(s)| == 1
            && s.segs[k].w + s.segs[k].r + |ClientSegmentHolders(cfg, s, k)| == 1
  {
    InitInv(cfg, s0);
    RunInv(cfg, s0, sched);
    ServerSegmentToken(Exec(cfg, s0, sched));
    ClientSegmentToken(cfg, Exec(cfg, s0, sched), k);
  }

  lemma {:induction false} ServerSegmentToken(s: State)
    requires ServerSegmentOk(s)
    ensures s.srv.w + s.srv.r + |ServerSegmentHolders(s)| == 1
  {
    if s.srv.w + s.srv.r == 1 {
      assert ServerSegmentHolders(s) == {};
    } else if ServerReads(s.pc) {
      assert ServerSegmentHolders(s) == {Server};
    } else {
      var l: nat :| l < |s.clients| && Sending(s.clients[l]);
      assert ServerSegmentHolders(s) == {ClientProc(l)};
    }
  }

  lemma {:induction false} ClientSegmentToken(cfg: Config, s: State, k: nat)
    requires Inv(cfg, s) && k < |cfg.pids|
    ensures s.segs[k].w + s.segs[k].r + |ClientSegmentHolders(cfg, s, k)| == 1
  {
    assert ClientOk(cfg, s, k);
  }

  /** The server never has to wait for a client's write semaphore, and get_client
      never runs out of slots. */
  lemma {:induction false} ServerNeverBlocksOnClient(cfg: Config, s0: State, sched: seq<Actor>)
    requires ConfigOk(cfg) && Init(cfg, s0) && Legal(cfg, s0, sched)
    ensures var s := Exec(cfg, s0, sched);
            !s.pc.Failed? && (!s.pc.Listen? ==> ServerEnabled(cfg, s))
  {
    InitInv(cfg, s0);
    RunInv(cfg, s0, sched);
    if !Exec(cfg, s0, sched).pc.Listen? {
      ServerCanStep(cfg, Exec(cfg, s0, sched));
    }
  }

  lemma {:induction false} ServerCanStep(cfg: Config, s: State)
    requires Inv(cfg, s) && !s.pc.Listen?
    ensures ServerEnabled(cfg, s)
  {
    assert ClientOk(cfg, s, Current(cfg, s));
  }
}

/** Progress: no schedule gets stuck early and none runs for ever. */
module SmiProgress {
  import opened Smi
  import opened SmiSafety

  predicate Finished(cfg: Config, s: State, k: nat)
    requires Fits(cfg, s) && k < |cfg.pids|
  {
    s.clients[k].i == |cfg.work[k]|
  }

  /** Client `k` has requests left and its next step is blocked: then somebody else can act. */
  lemma {:induction false} SomebodyCanStep(cfg: Config, s: State, k: nat) returns (a: Actor)
    requires Inv(cfg, s) && k < |cfg.pids| && !Finished(cfg, s, k)
    ensures Enabled(cfg, s, a)
  {
    assert ClientOk(cfg, s, k);
    if !s.pc.Listen? {
      ServerCanStep(cfg, s);
      return Server;
    } else if s.srv.r == 1 {
      return Server;
    } else if s.srv.w == 0 {
      var l: nat :| l < |s.clients| && Sending(s.clients[l]);
      assert ClientOk(cfg, s, l);
      return ClientProc(l);
    } else {
      return ClientProc(k);
    }
  }

  // ---------- a measure every step decreases ----------

  function Sum(xs: seq<nat>): nat {
    if xs == [] then 0 else xs[0] + Sum(xs[1..])
  }

  lemma {:induction false} SumUpdate(xs: seq<nat>, k: nat, v: nat)
    requires k < |xs|
    ensures Sum(xs[k := v]) + xs[k] == Sum(xs) + v
  {
    if k == 0 {
      assert xs[k := v][1..] == xs[1..];
    } else {
      assert xs[k := v][1..] == xs[1..][k - 1 := v];
      SumUpdate(xs[1..], k - 1, v);
    }
  }

  /** Steps client process `c` still takes for its current request, of length `n`. */
  function OwnSteps(pc: ClientPc, n: nat): int {
    match pc
    case Idle => 2 * n + 7
    case Stamp => 2 * n + 6
    case Copy(j) => 2 * n + 5 - j
    case Announce => n + 4
    case Await => n + 3
    case Read(j) => n + 2 - j
    case Release => 1
  }

  /** Steps the server still takes for the request in hand, of length `n`. */
  function CycleSteps(pc: ServerPc, n: nat): int {
    match pc
    case Listen => 0
    case Save => 2 * n + 7
    case Find => 2 * n + 6
    case Lock(_) => 2 * n + 5
    case Fetch(_, j) => 2 * (n - j) + 4
    case Store(_, j, _) => 2 * (n - j) + 3
    case Free => 2
    case Post => 1
    case Failed => 0
  }

  /** Client and server steps for all requests from the `i`-th on. */
  function Ahead(work: seq<string>, i: nat): nat
    requires i <= |work|
    decreases |work| - i
  {
    if i == |work| then 0 else 4 * |work[i]| + 15 + Ahead(work, i + 1)
  }

  /** Steps left because of client `k`, those of the server's current cycle excepted. */
  ghost function ClientMeasure(cfg: Config, s: State, k: nat): nat
    requires Inv(cfg, s) && k < |cfg.pids|
  {
    assert ClientOk(cfg, s, k);
    var c := s.clients[k];
    if c.i == |cfg.work[k]| then 0
    else
      var n := |cfg.work[k][c.i]|;
      var taken := Receiving(c) || (c.pc.Await? && !Queued(cfg, s, k));
      OwnSteps(c.pc, n) + (if taken then 0 else 2 * n + 8) + Ahead(cfg.work[k], c.i + 1)
  }

  ghost function Measures(cfg: Config, s: State): (ms: seq<nat>)
    requires Inv(cfg, s)
    ensures |ms| == |cfg.pids|
    ensures forall k :: 0 <= k < |ms| ==> ms[k] == ClientMeasure(cfg, s, k)
  {
    seq(|cfg.pids|, k requires 0 <= k < |cfg.pids| => ClientMeasure(cfg, s, k))
  }

  ghost function ServerMeasure(cfg: Config, s: State): nat
    requires Inv(cfg, s)
  {
    if s.pc.Listen? then 0
    else
      var k := Current(cfg, s);
      assert ClientOk(cfg, s, k);
      CycleSteps(s.pc, |cfg.work[k][s.clients[k].i]|)
  }

  ghost function Measure(cfg: Config, s: State): nat
    requires Inv(cfg, s)
  {
    Sum(Measures(cfg, s)) + ServerMeasure(cfg, s)
  }

  lemma {:induction false} OwnMeasureDrops(cfg: Config, s: State, k: nat)
    requires Inv(cfg, s) && ClientEnabled(cfg, s, k)
    requires Inv(cfg, ClientStep(cfg, s, k))
    ensures ClientMeasure(cfg, ClientStep(cfg, s, k), k) == ClientMeasure(cfg, s, k) - 1
  {
    var t := ClientStep(cfg, s, k);
    assert ClientOk(cfg, s, k) && ClientOk(cfg, t, k);
    var c := s.clients[k];
    var text := cfg.work[k][c.i];
    if c.pc.Read? {
      assert c.pc.j < |text| ==> s.segs[k].data[c.pc.j] == UpperAll(text)[c.pc.j] != NUL;
    }
  }

  lemma {:induction false} OthersMeasureSame(cfg: Config, s: State, k: nat, l: nat)
    requires Inv(cfg, s) && ClientEnabled(cfg, s, k)
    requires Inv(cfg, ClientStep(cfg, s, k)) && l < |cfg.pids| && l != k
    ensures ClientMeasure(cfg, ClientStep(cfg, s, k), l) == ClientMeasure(cfg, s, l)
  {
    assert ClientOk(cfg, s, l) && ClientOk(cfg, s, k);
    assert ClientStep(cfg, s, k).clients[l] == s.clients[l];
    assert cfg.pids[k] != cfg.pids[l];
  }

  lemma {:induction false} ServerMeasureSame(cfg: Config, s: State, k: nat)
    requires Inv(cfg, s) && ClientEnabled(cfg, s, k)
    requires Inv(cfg, ClientStep(cfg, s, k))
    ensures ServerMeasure(cfg, ClientStep(cfg, s, k)) == ServerMeasure(cfg, s)
  {
    if !s.pc.Listen? {
      assert ClientOk(cfg, s, k) && ClientOk(cfg, s, Current(cfg, s));
    }
  }

  /** Changing one client's share changes the sum by that much. */
  lemma {:induction false} SumChangesAt(cfg: Config, s: State, t: State, k: nat)
    requires Inv(cfg, s) && Inv(cfg, t) && k < |cfg.pids|
    requires forall l :: 0 <= l < |cfg.pids| && l != k ==> ClientMeasure(cfg, t, l) == ClientMeasure(cfg, s, l)
    ensures Sum(Measures(cfg, t)) + ClientMeasure(cfg, s, k) == Sum(Measures(cfg, s)) + ClientMeasure(cfg, t, k)
  {
    assert Measures(cfg, t) == Measures(cfg, s)[k := ClientMeasure(cfg, t, k)];
    SumUpdate(Measures(cfg, s), k, ClientMeasure(cfg, t, k));
  }

  lemma {:induction false} ClientStepDrops(cfg: Config, s: State, k: nat)
    requires Inv(cfg, s) && ClientEnabled(cfg, s, k)
    requires Inv(cfg, ClientStep(cfg, s, k))
    ensures Measure(cfg, ClientStep(cfg, s, k)) == Measure(cfg, s) - 1
  {
    var t := ClientStep(cfg, s, k);
    OwnMeasureDrops(cfg, s, k);
    ServerMeasureSame(cfg, s, k);
    forall l | 0 <= l < |cfg.pids| && l != k
      ensures ClientMeasure(cfg, t, l) == ClientMeasure(cfg, s, l)
    {
      OthersMeasureSame(cfg, s, k, l);
    }
    SumChangesAt(cfg, s, t, k);
  }

  lemma {:induction false} AcceptMeasure(cfg: Config, s: State)
    requires Inv(cfg, s) && s.pc.Listen? && ServerEnabled(cfg, s)
    requires Inv(cfg, ServerStep(cfg, s))
    ensures var t, k := ServerStep(cfg, s), FirstIndex(cfg.pids, s.srv.from);
            && k < |cfg.pids|
            && ClientMeasure(cfg, t, k) + ServerMeasure(cfg, t) == ClientMeasure(cfg, s, k) - 1
            && forall l :: 0 <= l < |cfg.pids| && l != k ==> ClientMeasure(cfg, t, l) == ClientMeasure(cfg, s, l)
  {
    var t, k := ServerStep(cfg, s), FirstIndex(cfg.pids, s.srv.from);
    assert ClientOk(cfg, s, k) && ClientOk(cfg, t, k);
    forall l | 0 <= l < |cfg.pids| && l != k
      ensures ClientMeasure(cfg, t, l) == ClientMeasure(cfg, s, l)
    {
      assert ClientOk(cfg, s, l);
    }
  }

  lemma {:induction false} CycleMeasure(cfg: Config, s: State)
    requires Inv(cfg, s) && !s.pc.Listen? && ServerEnabled(cfg, s)
    requires Inv(cfg, ServerStep(cfg, s))
    ensures ServerMeasure(cfg, ServerStep(cfg, s)) == ServerMeasure(cfg, s) - 1
  {
    var k := Current(cfg, s);
    assert ClientOk(cfg, s, k);
    if s.pc.Find? || s.pc.Post? {
      SlotAvailable(cfg, s, CurrentPid(s));
    }
    if s.pc.Store? {
      var text := cfg.work[k][s.clients[k].i];
      assert s.pc.ch == NUL <==> s.pc.j == |text|;
    }
  }

  lemma {:induction false} CycleKeepsClientMeasure(cfg: Config, s: State, l: nat)
    requires Inv(cfg, s) && !s.pc.Listen? && ServerEnabled(cfg, s)
    requires Inv(cfg, ServerStep(cfg, s)) && l < |cfg.pids|
    ensures ClientMeasure(cfg, ServerStep(cfg, s), l) == ClientMeasure(cfg, s, l)
  {
    assert ClientOk(cfg, s, l);
  }

  lemma {:induction false} ServerStepDrops(cfg: Config, s: State)
    requires Inv(cfg, s) && ServerEnabled(cfg, s)
    requires Inv(cfg, ServerStep(cfg, s))
    ensures Measure(cfg, ServerStep(cfg, s)) == Measure(cfg, s) - 1
  {
    var t := ServerStep(cfg, s);
    if s.pc.Listen? {
      AcceptMeasure(cfg, s);
      SumChangesAt(cfg, s, t, FirstIndex(cfg.pids, s.srv.from));
    } else {
      CycleMeasure(cfg, s);
      forall l | 0 <= l < |cfg.pids|
        ensures ClientMeasure(cfg, t, l) == ClientMeasure(cfg, s, l)
      {
        CycleKeepsClientMeasure(cfg, s, l);
      }
      SumChangesAt(cfg, s, t, Current(cfg, s));
    }
  }

  lemma {:induction false} RunConsumesMeasure(cfg: Config, s: State, sched: seq<Actor>)
    requires Inv(cfg, s) && Legal(cfg, s, sched)
    ensures Inv(cfg, Exec(cfg, s, sched))
    ensures Measure(cfg, Exec(cfg, s, sched)) == Measure(cfg, s) - |sched|
    decreases |sched|
  {
    if sched != [] {
      match sched[0] {
        case Server => ServerStepInv(cfg, s); ServerStepDrops(cfg, s);
        case ClientProc(k) => ClientStepInv(cfg, s, k); ClientStepDrops(cfg, s, k);
      }
      RunConsumesMeasure(cfg, Next(cfg, s, sched[0]), sched[1..]);
    }
  }

  /** The number of steps a whole run takes, known from the work lists alone: fifteen
      per request, and four for each of its characters. */
  function TotalSteps(work: seq<seq<string>>): nat {
    if work == [] then 0 else Ahead(work[0], 0) + TotalSteps(work[1..])
  }

  lemma {:induction false} InitialMeasure(work: seq<seq<string>>, ms: seq<nat>)
    requires |ms| == |work| && forall k :: 0 <= k < |ms| ==> ms[k] == Ahead(work[k], 0)
    ensures Sum(ms) == TotalSteps(work)
  {
    if work != [] {
      InitialMeasure(work[1..], ms[1..]);
    }
  }

  /** No schedule is longer than the work lists allow, and one that cannot be
      continued has delivered to every client the reply to every one of its requests. */
  lemma {:induction false} EveryMaximalRunDelivers(cfg: Config, s0: State, sched: seq<Actor>)
    requires ConfigOk(cfg) && Init(cfg, s0) && Legal(cfg, s0, sched)
    ensures |sched| <= TotalSteps(cfg.work)
    ensures var s := Exec(cfg, s0, sched);
            (forall a :: !Enabled(cfg, s, a)) ==>
              |sched| == TotalSteps(cfg.work) &&
              forall k :: 0 <= k < |cfg.pids| ==>
                s.clients[k].pc == Idle && |s.clients[k].replies| == |cfg.work[k]| && Answers(cfg.work[k], s.clients[k].replies)
  {
    InitInv(cfg, s0);
    RunConsumesMeasure(cfg, s0, sched);
    forall k | 0 <= k < |cfg.pids|
      ensures ClientMeasure(cfg, s0, k) == Ahead(cfg.work[k], 0)
    {
      assert ClientOk(cfg, s0, k);
    }
    InitialMeasure(cfg.work, Measures(cfg, s0));
    var s := Exec(cfg, s0, sched);
    if forall a :: !Enabled(cfg, s, a) {
      StuckMeansDone(cfg, s);
    }
  }

  lemma {:induction false} SumOfZeros(ms: seq<nat>)
    requires forall k :: 0 <= k < |ms| ==> ms[k] == 0
    ensures Sum(ms) == 0
  {
    if ms != [] {
      SumOfZeros(ms[1..]);
    }
  }

  lemma {:induction false} StuckMeansDone(cfg: Config, s: State)
    requires Inv(cfg, s) && forall a :: !Enabled(cfg, s, a)
    ensures Measure(cfg, s) == 0
    ensures forall k :: 0 <= k < |cfg.pids| ==>
              s.clients[k].pc == Idle && |s.clients[k].replies| == |cfg.work[k]| && Answers(cfg.work[k], s.clients[k].replies)
  {
    forall k | 0 <= k < |cfg.pids|
      ensures Finished(cfg, s, k) && s.clients[k].pc == Idle && ClientMeasure(cfg, s, k) == 0
      ensures |s.clients[k].replies| == |cfg.work[k]| && Answers(cfg.work[k], s.clients[k].replies)
    {
      if !Finished(cfg, s, k) {
        var a := SomebodyCanStep(cfg, s, k);
        assert false;
      }
      assert ClientOk(cfg, s, k);
      UpperAllAnswers(cfg.work[k], s.clients[k].replies);
    }
    if !s.pc.Listen? {
      assert !Enabled(cfg, s, Server);
      ServerCanStep(cfg, s);
      assert false;
    }
    SumOfZeros(Measures(cfg, s));
  }
}

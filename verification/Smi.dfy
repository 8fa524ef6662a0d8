/** The simple messaging interface over shared memory, POSIX or System V: one segment for
    the server and one for each client, every segment guarded by a write and a read
    semaphore.  The server upper-cases each request into the sender's segment.  The POSIX
    form finds a client's segment through a table of slots, the System V form directly by
    the identifiers in the message.

    The processes are modelled as an interleaved step system.  Each step is one
    semaphore operation or one access to a shared location (one character of a
    message, the sender's identification), so half-written messages are states of
    the model.  `Next` is deterministic in the acting process; a schedule (any
    sequence of actors) is what varies. */
module Smi {
  const MAX_CLIENTS: nat := 50
  const NUL: char := '\0'

  /** Which form, the clients' identifications (process or segment ids), their work lists,
      and the size of a message area. */
  datatype Config = Config(sysv: bool, pids: seq<int>, work: seq<seq<string>>, cap: nat)

  datatype Segment = Segment(w: nat, r: nat, from: int, data: string)

  datatype ClientPc =
    | Idle              // about to wait for the server segment's write semaphore
    | Stamp             // about to store its own pid in the message
    | Copy(j: nat)      // strcpy has reached character j
    | Announce          // about to post the server segment's read semaphore
    | Await             // waiting for its own segment's read semaphore
    | Read(j: nat)      // printing has reached character j
    | Release           // about to post its own segment's write semaphore

  datatype Client = Client(pc: ClientPc, i: nat, line: string, replies: seq<string>)

  datatype ServerPc =
    | Listen                                    // wait for the server segment's read semaphore
    | Save                                      // sq_client = *client
    | Find                                      // find the segment of the request's sender
    | Lock(k: nat)                              // wait for that segment's write semaphore
    | Fetch(k: nat, j: nat)                     // read character j of the request
    | Store(k: nat, j: nat, ch: char)           // write character j of the reply
    | Free                                      // receive_release: post the server's write semaphore
    | Post                                      // send_release: post the client's read semaphore
    | Failed

  datatype State = State(srv: Segment, segs: seq<Segment>, clients: seq<Client>,
                         pc: ServerPc, saved: int, table: seq<int>)

  datatype Actor = Server | ClientProc(k: nat)

  datatype Option<T> = None | Some(value: T)

  // ---------- the C library and get_client ----------

  function Upper(c: char): (u: char)
    ensures u == NUL <==> c == NUL
  {
    if 'a' <= c <= 'z' then (c as int - 32) as char else c
  }

  /** Small letters become the capitals in the same places of the alphabet, in the same
      order, and everything else stays what it is. */
  lemma {:induction false} UpperLaws(c: char, d: char)
    ensures 'a' <= c <= 'z' ==> 'A' <= Upper(c) <= 'Z' && (c < d <= 'z' ==> Upper(c) < Upper(d))
    ensures !('a' <= c <= 'z') ==> Upper(c) == c
    ensures !('a' <= Upper(c) <= 'z') && Upper(Upper(c)) == Upper(c)
    ensures Upper('a') == 'A' && Upper('z') == 'Z'
  {
  }

  function UpperAll(t: string): (u: string)
    ensures |u| == |t|
    ensures forall i :: 0 <= i < |t| ==> u[i] == Upper(t[i])
  {
    seq(|t|, i requires 0 <= i < |t| => Upper(t[i]))
  }

  /** `reply` is `request` in capitals: nothing added or lost, no small letter left, each
      small letter replaced by the capital in the same place of the alphabet. */
  ghost predicate InCapitals(request: string, reply: string) {
    && |reply| == |request|
    && (forall i :: 0 <= i < |reply| ==> !('a' <= reply[i] <= 'z'))
    && (forall i :: 0 <= i < |reply| && !('a' <= request[i] <= 'z') ==> reply[i] == request[i])
    && (forall i :: 0 <= i < |reply| && 'a' <= request[i] <= 'z' ==>
          'A' <= reply[i] <= 'Z' && reply[i] as int - 'A' as int == request[i] as int - 'a' as int)
  }

  /** The first requests, answered one by one. */
  ghost predicate Answers(requests: seq<string>, replies: seq<string>) {
    |replies| <= |requests| && forall n :: 0 <= n < |replies| ==> InCapitals(requests[n], replies[n])
  }

  lemma {:induction false} UpperAllAnswers(requests: seq<string>, replies: seq<string>)
    requires |replies| <= |requests| && forall n :: 0 <= n < |replies| ==> replies[n] == UpperAll(requests[n])
    ensures Answers(requests, replies)
  {
    forall n | 0 <= n < |replies|
      ensures InCapitals(requests[n], replies[n])
    {
      assert replies[n] == UpperAll(requests[n]);
    }
  }

  predicate HasString(data: string, t: string) {
    |t| < |data| && data[..|t|] == t && data[|t|] == NUL
  }

  function FirstIndex(table: seq<int>, x: int): (r: nat)
    ensures r <= |table|
    ensures r < |table| ==> table[r] == x
    ensures forall i :: 0 <= i < r ==> table[i] != x
  {
    if table == [] then 0
    else if table[0] == x then 0
    else
      var r := FirstIndex(table[1..], x);
      assert forall i :: 1 <= i < r + 1 ==> table[i] == table[1..][i - 1];
      r + 1
  }

  /** The slot `get_client` returns and the table it leaves, or None when the
      process is unknown and no slot is free. */
  function GetClient(table: seq<int>, pid: int): (r: Option<(nat, seq<int>)>)
    ensures r.Some? ==> r.value.0 < |r.value.1| && r.value.1[r.value.0] == pid
  {
    var known := FirstIndex(table, pid);
    if known < |table| then Some((known, table))
    else
      var avail := FirstIndex(table, 0);
      if avail < |table| then Some((avail, table[avail := pid])) else None
  }

  /** A client keeps the slot it has; a new one gets the first free slot and nobody else's
      slot changes; there is no slot exactly when the client is unknown and none is free. */
  lemma {:induction false} GetClientClaims(table: seq<int>, pid: int)
    requires pid != 0
    ensures GetClient(table, pid) == None <==> pid !in table && 0 !in table
    ensures GetClient(table, pid).Some? ==>
              var (slot, table') := GetClient(table, pid).value;
              && slot < |table| == |table'| && table'[slot] == pid && pid !in table'[..slot]
              && (forall i :: 0 <= i < |table| && i != slot ==> table'[i] == table[i])
              && (if pid in table then table[slot] == pid else table[slot] == 0 && 0 !in table[..slot])
  {
  }

  /** The single loop of `get_client`, which looks for the process and remembers the
      first free slot on the way. */
  method FindClient(table: array<int>, pid: int) returns (slot: int)
    modifies table
    ensures match GetClient(old(table[..]), pid)
            case None => slot == -1 && table[..] == old(table[..])
            case Some(found) => slot == found.0 && table[..] == found.1
  {
    var avail := -1;
    ghost var was := table[..];
    for i := 0 to table.Length
      invariant table[..] == was
      invariant pid !in was[..i]
      invariant avail == -1 ==> 0 !in was[..i]
      invariant avail != -1 ==> 0 <= avail < i && was[avail] == 0 && 0 !in was[..avail]
    {
      if table[i] == pid {
        return i;
      }
      if table[i] == 0 && avail == -1 {
        avail := i;
      }
    }
    if avail == -1 {
      return -1;
    }
    table[avail] := pid;
    slot := avail;
    assert table[..] == was[avail := pid];
  }

  // ---------- the processes ----------

  predicate ConfigOk(cfg: Config) {
    && |cfg.pids| == |cfg.work|
    && (!cfg.sysv ==> |cfg.pids| <= MAX_CLIENTS && forall k :: 0 <= k < |cfg.pids| ==> cfg.pids[k] != 0)
    && (forall k, l :: 0 <= k < l < |cfg.pids| ==> cfg.pids[k] != cfg.pids[l])
    && (forall k, n :: 0 <= k < |cfg.work| && 0 <= n < |cfg.work[k]| ==> |cfg.work[k][n]| < cfg.cap)
    && (forall k, n :: 0 <= k < |cfg.work| && 0 <= n < |cfg.work[k]| ==> NUL !in cfg.work[k][n])
  }

  /** Any state the processes can start from: semaphores as `smi_open_pshm` sets
      them, an empty slot table, arbitrary bytes in the message areas. */
  predicate Init(cfg: Config, s: State) {
    var n := |cfg.pids|;
    && s.srv.w == 1 && s.srv.r == 0 && |s.srv.data| == cfg.cap
    && |s.segs| == n
    && (forall k :: 0 <= k < n ==> s.segs[k].w == 1 && s.segs[k].r == 0 && |s.segs[k].data| == cfg.cap)
    && s.clients == seq(n, _ => Client(Idle, 0, "", []))
    && s.pc == Listen
    && s.table == seq(MAX_CLIENTS, _ => 0)
  }

  predicate Fits(cfg: Config, s: State) {
    |cfg.pids| == |cfg.work| == |s.segs| == |s.clients|
  }

  predicate ClientEnabled(cfg: Config, s: State, k: nat)
    requires Fits(cfg, s)
  {
    && k < |s.clients|
    && var c := s.clients[k];
       c.i < |cfg.work[k]| &&
       match c.pc
       case Idle => s.srv.w > 0
       case Copy(j) => j < |s.srv.data| && j <= |cfg.work[k][c.i]|
       case Await => s.segs[k].r > 0
       case Read(j) => j < |s.segs[k].data|
       case _ => true
  }

  function ClientStep(cfg: Config, s: State, k: nat): State
    requires Fits(cfg, s) && ClientEnabled(cfg, s, k)
  {
    var c := s.clients[k];
    var seg := s.segs[k];
    var text := cfg.work[k][c.i];
    match c.pc
    case Idle =>
      s.(srv := s.srv.(w := s.srv.w - 1), clients := s.clients[k := c.(pc := Stamp)])
    case Stamp =>
      s.(srv := s.srv.(from := cfg.pids[k]), clients := s.clients[k := c.(pc := Copy(0))])
    case Copy(j) =>
      if j < |text| then
        s.(srv := s.srv.(data := s.srv.data[j := text[j]]), clients := s.clients[k := c.(pc := Copy(j + 1))])
      else
        s.(srv := s.srv.(data := s.srv.data[j := NUL]), clients := s.clients[k := c.(pc := Announce)])
    case Announce =>
      s.(srv := s.srv.(r := s.srv.r + 1), clients := s.clients[k := c.(pc := Await)])
    case Await =>
      s.(segs := s.segs[k := seg.(r := seg.r - 1)], clients := s.clients[k := c.(pc := Read(0), line := "")])
    case Read(j) =>
      if seg.data[j] == NUL then
        s.(clients := s.clients[k := c.(pc := Release, replies := c.replies + [c.line])])
      else
        s.(clients := s.clients[k := c.(pc := Read(j + 1), line := c.line + [seg.data[j]])])
    case Release =>
      s.(segs := s.segs[k := seg.(w := seg.w + 1)], clients := s.clients[k := c.(pc := Idle, i := c.i + 1)])
  }

  predicate ServerEnabled(cfg: Config, s: State)
    requires Fits(cfg, s)
  {
    match s.pc
    case Listen => s.srv.r > 0
    case Lock(k) => k < |s.segs| && s.segs[k].w > 0
    case Fetch(_, j) => j < |s.srv.data|
    case Store(k, j, _) => k < |s.segs| && j < |s.segs[k].data|
    case Failed => false
    case _ => true
  }

  /** The table and the segment of the client that `id` identifies; None when the slots are
      used up or no such segment exists. */
  function SegmentOf(cfg: Config, table: seq<int>, id: int): Option<(seq<int>, nat)> {
    var found: Option<(seq<int>, int)> :=
                 if cfg.sysv then Some((table, id)) else
                 (match GetClient(table, id) case None => None case Some((slot, t)) => Some((t, t[slot])));
    match found
    case None => None
    case Some((t, x)) => if x in cfg.pids then Some((t, FirstIndex(cfg.pids, x))) else None
  }

  function ServerStep(cfg: Config, s: State): State
    requires Fits(cfg, s) && ServerEnabled(cfg, s)
  {
    match s.pc
    case Listen => s.(srv := s.srv.(r := s.srv.r - 1), pc := Save)
    case Save => s.(saved := s.srv.from, pc := Find)
    case Find =>
      (match SegmentOf(cfg, s.table, s.srv.from)
       case None => s.(pc := Failed)
       case Some((table, k)) => s.(table := table, pc := Lock(k)))
    case Lock(k) =>
      s.(segs := s.segs[k := s.segs[k].(w := s.segs[k].w - 1)], pc := Fetch(k, 0))
    case Fetch(k, j) => s.(pc := Store(k, j, s.srv.data[j]))
    case Store(k, j, ch) =>
      s.(segs := s.segs[k := s.segs[k].(data := s.segs[k].data[j := Upper(ch)])],
         pc := if ch == NUL then Free else Fetch(k, j + 1))
    case Free => s.(srv := s.srv.(w := s.srv.w + 1), pc := Post)
    case Post =>
      (match SegmentOf(cfg, s.table, s.saved)
       case None => s.(pc := Failed)
       case Some((table, k)) =>
         s.(table := table, segs := s.segs[k := s.segs[k].(r := s.segs[k].r + 1)], pc := Listen))
  }

  predicate Enabled(cfg: Config, s: State, a: Actor)
    requires Fits(cfg, s)
  {
    match a
    case Server => ServerEnabled(cfg, s)
    case ClientProc(k) => ClientEnabled(cfg, s, k)
  }

  function Next(cfg: Config, s: State, a: Actor): (t: State)
    requires Fits(cfg, s) && Enabled(cfg, s, a)
    ensures Fits(cfg, t)
  {
    match a
    case Server => ServerStep(cfg, s)
    case ClientProc(k) => ClientStep(cfg, s, k)
  }

  /** `sched` can be carried out from `s`, one enabled actor after another. */
  predicate Legal(cfg: Config, s: State, sched: seq<Actor>)
    requires Fits(cfg, s)
    decreases |sched|
  {
    sched == [] || (Enabled(cfg, s, sched[0]) && Legal(cfg, Next(cfg, s, sched[0]), sched[1..]))
  }

  function Exec(cfg: Config, s: State, sched: seq<Actor>): (t: State)
    requires Fits(cfg, s) && Legal(cfg, s, sched)
    ensures Fits(cfg, t)
    decreases |sched|
  {
    if sched == [] then s else Exec(cfg, Next(cfg, s, sched[0]), sched[1..])
  }
}

/**
 The WebSocket connection manager as interleaved steps. A step is what a coroutine does between
 two awaits; a section under the manager's own lock that contains no await is one step.
 Broadcasts, pings and `send_to` are all fan-outs: snapshot the targets, send to each under that
 connection's lock, then drop those that failed.
 */
module Sockets {
  import opened Collections

  /** A send to one target. `attempted` is false when its lock was already gone. */
  datatype Job = Ready | Waiting(lock: nat) | InFlight(lock: nat) | Over(attempted: bool, ok: bool)

  datatype Target = Target(conn: nat, job: Job)

  /** `only` is Some for a send to a single client. */
  datatype Fanout =
    | Snapshotting(only: Option<nat>)
    | Sending(targets: map<nat, Target>)
    | Pruning(targets: map<nat, Target>)
    | Complete(targets: map<nat, Target>)

  datatype Event = Sent(fanout: nat, client: nat, ok: bool) | Dropped(fanout: nat, client: nat)

  /**
   `active` and `locks` are the manager's two dictionaries, `closing` says that disconnect_all
   holds the manager's lock, `holders` who holds each connection's lock. `conns` and `issued`
   remember the connection and lock each client id was given, `log` what happened.
   */
  datatype Manager = Manager(active: map<nat, nat>, locks: map<nat, nat>, closing: bool, holders: map<nat, (nat, nat)>,
                             fanouts: map<nat, Fanout>, conns: map<nat, nat>, issued: map<nat, nat>, lockCount: nat,
                             log: seq<Event>)

  datatype Action =
    | Connect(client: nat, conn: nat)
    | Disconnect(client: nat)
    | BeginDisconnectAll
    | EndDisconnectAll
    | StartFanout(fanout: nat, only: Option<nat>)
    | Snapshot(fanout: nat)
    | FindLock(fanout: nat, client: nat)
    | Acquire(fanout: nat, client: nat)
    | FinishSend(fanout: nat, client: nat, ok: bool)
    | Gather(fanout: nat)
    | Prune(fanout: nat)

  function Targets(f: Fanout): map<nat, Target> {
    match f
    case Snapshotting(_) => map[]
    case Sending(t) => t
    case Pruning(t) => t
    case Complete(t) => t
  }

  predicate Sends(m: Manager, fanout: nat, client: nat) {
    fanout in m.fanouts && m.fanouts[fanout].Sending? && client in m.fanouts[fanout].targets
  }

  function JobOf(m: Manager, fanout: nat, client: nat): Job
    requires Sends(m, fanout, client)
  {
    m.fanouts[fanout].targets[client].job
  }

  function SetJob(m: Manager, fanout: nat, client: nat, job: Job): Manager
    requires Sends(m, fanout, client)
  {
    var targets := m.fanouts[fanout].targets;
    m.(fanouts := m.fanouts[fanout := Sending(targets[client := targets[client].(job := job)])])
  }

  predicate AllOver(targets: map<nat, Target>) {
    forall c :: c in targets ==> targets[c].job.Over?
  }

  function Failed(targets: map<nat, Target>): set<nat> {
    set c | c in targets && targets[c].job.Over? && !targets[c].job.ok
  }

  function Snapshotted(active: map<nat, nat>, only: Option<nat>): map<nat, Target> {
    map c | c in active && (only == None || only == Some(c)) :: Target(active[c], Ready)
  }

  ghost function DropEvents(fanout: nat, clients: set<nat>): seq<Event>
    decreases |clients|
  {
    if clients == {} then []
    else
      var c :| c in clients;
      [Dropped(fanout, c)] + DropEvents(fanout, clients - {c})
  }

  ghost function Step(m: Manager, a: Action): Manager {
    match a
    case Connect(client, conn) =>
      if m.closing || conn in m.conns.Values then m
      else m.(active := m.active[client := conn], locks := m.locks[client := m.lockCount],
              conns := m.conns[client := conn], issued := m.issued[client := m.lockCount], lockCount := m.lockCount + 1)
    case Disconnect(client) =>
      if m.closing then m else m.(active := m.active - {client}, locks := m.locks - {client})
    case BeginDisconnectAll => m.(closing := true)
    case EndDisconnectAll =>
      if m.closing then m.(active := map[], locks := map[], closing := false) else m
    case StartFanout(fanout, only) =>
      if fanout in m.fanouts then m else m.(fanouts := m.fanouts[fanout := Snapshotting(only)])
    case Snapshot(fanout) =>
      if fanout in m.fanouts && m.fanouts[fanout].Snapshotting? && !m.closing then
        m.(fanouts := m.fanouts[fanout := Sending(Snapshotted(m.active, m.fanouts[fanout].only))])
      else m
    case FindLock(fanout, client) =>
      if Sends(m, fanout, client) && JobOf(m, fanout, client) == Ready then
        SetJob(m, fanout, client, if client in m.locks then Waiting(m.locks[client]) else Over(false, false))
      else m
    case Acquire(fanout, client) =>
      if Sends(m, fanout, client) && JobOf(m, fanout, client).Waiting? && JobOf(m, fanout, client).lock !in m.holders then
        var lock := JobOf(m, fanout, client).lock;
        SetJob(m, fanout, client, InFlight(lock)).(holders := m.holders[lock := (fanout, client)])
      else m
    case FinishSend(fanout, client, ok) =>
      if Sends(m, fanout, client) && JobOf(m, fanout, client).InFlight? then
        SetJob(m, fanout, client, Over(true, ok)).(holders := m.holders - {JobOf(m, fanout, client).lock},
                                                   log := m.log + [Sent(fanout, client, ok)])
      else m
    case Gather(fanout) =>
      if fanout in m.fanouts && m.fanouts[fanout].Sending? && AllOver(m.fanouts[fanout].targets) then
        var targets := m.fanouts[fanout].targets;
        m.(fanouts := m.fanouts[fanout := if Failed(targets) == {} then Complete(targets) else Pruning(targets)])
      else m
    case Prune(fanout) =>
      if fanout in m.fanouts && m.fanouts[fanout].Pruning? && !m.closing then
        var failed := Failed(m.fanouts[fanout].targets);
        m.(active := m.active - failed, locks := m.locks - failed,
           fanouts := m.fanouts[fanout := Complete(m.fanouts[fanout].targets)],
           log := m.log + DropEvents(fanout, failed * m.active.Keys))
      else m
  }

  const INITIAL := Manager(map[], map[], false, map[], map[], map[], map[], 0, [])

  ghost function Run(m: Manager, actions: seq<Action>): Manager
    decreases |actions|
  {
    if actions == [] then m else Run(Step(m, actions[0]), actions[1..])
  }

  /** No client id is connected twice, as ids drawn at random for each connection ensure. */
  ghost predicate FreshIds(used: set<nat>, actions: seq<Action>)
    decreases |actions|
  {
    actions == [] || (
      if actions[0].Connect? then actions[0].client !in used && FreshIds(used + {actions[0].client}, actions[1..])
      else FreshIds(used, actions[1..]))
  }

  // ---- the invariant ----

  ghost predicate Injective(m: map<nat, nat>) {
    forall c, d :: c in m && d in m && m[c] == m[d] ==> c == d
  }

  /** A target of a fan-out: its connection is its client's, its lock its client's, and who holds it. */
  ghost predicate TargetOk(m: Manager, fanout: nat, client: nat, t: Target) {
    && client in m.conns && client in m.issued && t.conn == m.conns[client]
    && match t.job
       case Ready => (forall e :: e in m.log ==> e != Sent(fanout, client, true) && e != Sent(fanout, client, false))
       case Waiting(lock) =>
         lock == m.issued[client]
         && (forall e :: e in m.log ==> e != Sent(fanout, client, true) && e != Sent(fanout, client, false))
       case InFlight(lock) =>
         lock == m.issued[client] && lock in m.holders && m.holders[lock] == (fanout, client)
         && (forall e :: e in m.log ==> e != Sent(fanout, client, true) && e != Sent(fanout, client, false))
       case Over(attempted, ok) =>
         if attempted then Sent(fanout, client, ok) in m.log else !ok && client !in m.active
  }

  ghost predicate FanoutOk(m: Manager, fanout: nat, f: Fanout) {
    && (forall c :: c in Targets(f) ==> TargetOk(m, fanout, c, Targets(f)[c]))
    && (f.Pruning? || f.Complete? ==> AllOver(Targets(f)))
    && (f.Complete? ==> forall c :: c in Failed(Targets(f)) ==> c !in m.active)
  }

  /** A drop comes after this fan-out's own failed send to that client. */
  ghost predicate DropsExplained(log: seq<Event>) {
    forall i :: 0 <= i < |log| && log[i].Dropped? ==> Sent(log[i].fanout, log[i].client, false) in log[..i]
  }

  /** No fan-out sends to a client twice. */
  ghost predicate SentOnce(log: seq<Event>) {
    forall i, j :: 0 <= i < j < |log| && log[i].Sent? && log[j].Sent? ==>
      log[i].fanout != log[j].fanout || log[i].client != log[j].client
  }

  ghost predicate LogOk(m: Manager) {
    && DropsExplained(m.log) && SentOnce(m.log)
    && (forall e :: e in m.log && e.Sent? ==> e.fanout in m.fanouts && e.client in Targets(m.fanouts[e.fanout]))
  }

  ghost predicate Inv(m: Manager) {
    && m.active.Keys == m.locks.Keys
    && m.conns.Keys == m.issued.Keys && Injective(m.conns) && Injective(m.issued)
    && (forall c :: c in m.active ==> c in m.conns && m.active[c] == m.conns[c] && m.locks[c] == m.issued[c])
    && (forall c :: c in m.issued ==> m.issued[c] < m.lockCount)
    && (forall f :: f in m.fanouts ==> FanoutOk(m, f, m.fanouts[f]))
    && LogOk(m)
  }

  // ---- preservation ----

  /** Nothing a target depends on changed, except that clients may have gone or new ones come. */
  lemma TargetStays(m: Manager, n: Manager, fanout: nat, client: nat, t: Target)
    requires TargetOk(m, fanout, client, t) && m.conns.Keys == m.issued.Keys && n.conns.Keys == n.issued.Keys
    requires forall c :: c in m.conns ==> c in n.conns && n.conns[c] == m.conns[c] && n.issued[c] == m.issued[c]
    requires forall c :: c in n.active && c in m.conns ==> c in m.active
    requires t.job.InFlight? ==> t.job.lock in n.holders && n.holders[t.job.lock] == m.holders[t.job.lock]
    requires forall e :: e in m.log ==> e in n.log
    requires forall e :: e in n.log && e !in m.log ==> e.Dropped? || e.fanout != fanout || e.client != client
    ensures TargetOk(n, fanout, client, t)
  {
  }

  /** The fan-outs of `others` are as before. */
  lemma FanoutStays(m: Manager, n: Manager, fanout: nat, f: Fanout)
    requires FanoutOk(m, fanout, f) && m.conns.Keys == m.issued.Keys && n.conns.Keys == n.issued.Keys
    requires forall c :: c in m.conns ==> c in n.conns && n.conns[c] == m.conns[c] && n.issued[c] == m.issued[c]
    requires forall c :: c in n.active && c in m.conns ==> c in m.active
    requires forall l :: l in m.holders && m.holders[l].0 == fanout ==> l in n.holders && n.holders[l] == m.holders[l]
    requires forall e :: e in m.log ==> e in n.log
    requires forall e :: e in n.log && e !in m.log ==> e.Dropped? || e.fanout != fanout
    ensures FanoutOk(n, fanout, f)
  {
    hide TargetOk;
    forall c | c in Targets(f) ensures TargetOk(n, fanout, c, Targets(f)[c]) {
      assert TargetOk(m, fanout, c, Targets(f)[c]);
      TargetHolds(m, fanout, c, Targets(f)[c]);
      TargetStays(m, n, fanout, c, Targets(f)[c]);
    }
    forall c | c in Failed(Targets(f)) && f.Complete? ensures c !in n.active {
      TargetHolds(m, fanout, c, Targets(f)[c]);
    }
  }

  lemma TargetHolds(m: Manager, fanout: nat, client: nat, t: Target)
    requires TargetOk(m, fanout, client, t)
    ensures client in m.conns
    ensures t.job.InFlight? ==> t.job.lock in m.holders && m.holders[t.job.lock] == (fanout, client)
  {
  }

  lemma InjectiveGrows(m: map<nat, nat>, c: nat, v: nat)
    requires Injective(m) && c !in m && (forall d :: d in m ==> m[d] != v)
    ensures Injective(m[c := v])
  {
  }

  lemma ConnectKeepsInv(m: Manager, client: nat, conn: nat)
    requires Inv(m) && client !in m.conns
    ensures Inv(Step(m, Connect(client, conn)))
  {
    hide FanoutOk, LogOk, Injective;
    var n := Step(m, Connect(client, conn));
    if n != m {
      assert forall c :: c in m.conns ==> m.conns[c] in m.conns.Values;
      InjectiveGrows(m.conns, client, conn);
      InjectiveGrows(m.issued, client, m.lockCount);
      ConnectFanouts(m, n, client);
      LogStays(m, n);
    }
  }

  lemma ConnectFanouts(m: Manager, n: Manager, client: nat)
    requires m.conns.Keys == m.issued.Keys && n.conns.Keys == n.issued.Keys && client !in m.conns
    requires client in n.conns && n.conns == m.conns[client := n.conns[client]] && n.issued == m.issued[client := n.issued[client]]
    requires n.active.Keys == m.active.Keys + {client}
    requires n.holders == m.holders && n.log == m.log && n.fanouts == m.fanouts
    requires forall f :: f in m.fanouts ==> FanoutOk(m, f, m.fanouts[f])
    ensures forall f :: f in n.fanouts ==> FanoutOk(n, f, n.fanouts[f])
  {
    hide FanoutOk;
    forall f | f in m.fanouts ensures FanoutOk(n, f, m.fanouts[f]) {
      FanoutStays(m, n, f, m.fanouts[f]);
    }
  }

  lemma LogStays(m: Manager, n: Manager)
    requires LogOk(m) && n.log == m.log
    requires forall f :: f in m.fanouts ==> f in n.fanouts && Targets(m.fanouts[f]).Keys <= Targets(n.fanouts[f]).Keys
    ensures LogOk(n)
  {
  }

  /** Clients leave: by disconnecting, or all at once. */
  lemma LeaveKeepsInv(m: Manager, n: Manager)
    requires Inv(m)
    requires n == m.(active := n.active, locks := n.locks, closing := n.closing)
    requires n.active.Keys == n.locks.Keys && n.active.Keys <= m.active.Keys
    requires forall c :: c in n.active ==> n.active[c] == m.active[c] && n.locks[c] == m.locks[c]
    ensures Inv(n)
  {
    hide FanoutOk, LogOk;
    forall f | f in m.fanouts ensures FanoutOk(n, f, m.fanouts[f]) {
      FanoutStays(m, n, f, m.fanouts[f]);
    }
    LogStays(m, n);
  }

  /** A fan-out starts or takes its snapshot. */
  lemma BeginKeepsInv(m: Manager, fanout: nat, next: Fanout)
    requires Inv(m)
    requires fanout in m.fanouts ==> m.fanouts[fanout].Snapshotting?
    requires next.Snapshotting? || (next.Sending? && exists only :: next.targets == Snapshotted(m.active, only))
    ensures Inv(m.(fanouts := m.fanouts[fanout := next]))
  {
    var n := m.(fanouts := m.fanouts[fanout := next]);
    NothingSentYet(m, fanout);
    forall c | c in Targets(next) ensures TargetOk(n, fanout, c, Targets(next)[c]) {
      FreshTarget(m, n, fanout, c, Targets(next)[c]);
    }
    assert FanoutOk(n, fanout, next);
    BeginOthers(m, n, fanout);
    LogOkOf(m);
    hide TargetOk, FanoutOk, LogOk, Injective, Snapshotted;
    LogStays(m, n);
  }

  lemma NothingSentYet(m: Manager, fanout: nat)
    requires Inv(m) && (fanout in m.fanouts ==> m.fanouts[fanout].Snapshotting?)
    ensures forall e :: e in m.log && e.Sent? ==> e.fanout != fanout
  {
    LogOkOf(m);
    hide Inv, DropsExplained, SentOnce;
    forall e | e in m.log && e.Sent? ensures e.fanout != fanout {
      assert e.fanout in m.fanouts && e.client in Targets(m.fanouts[e.fanout]);
    }
  }

  /** A target as a snapshot has it. */
  lemma FreshTarget(m: Manager, n: Manager, fanout: nat, client: nat, t: Target)
    requires Inv(m) && client in m.active && t == Target(m.active[client], Ready)
    requires n.conns == m.conns && n.issued == m.issued && n.log == m.log
    requires forall e :: e in m.log && e.Sent? ==> e.fanout != fanout
    ensures TargetOk(n, fanout, client, t)
  {
    hide FanoutOk, LogOk, Injective;
  }

  lemma BeginOthers(m: Manager, n: Manager, fanout: nat)
    requires Inv(m) && n == m.(fanouts := n.fanouts)
    ensures forall f :: f in m.fanouts && f != fanout ==> FanoutOk(n, f, m.fanouts[f])
  {
    hide FanoutOk, LogOk, Injective;
    forall f | f in m.fanouts && f != fanout ensures FanoutOk(n, f, m.fanouts[f]) {
      FanoutStays(m, n, f, m.fanouts[f]);
    }
  }

  /** One job of a fan-out moves; n is m with that job, the holders and the log advanced. */
  lemma JobKeepsInv(m: Manager, n: Manager, fanout: nat, client: nat, job: Job)
    requires Inv(m) && Sends(m, fanout, client)
    requires n == SetJob(m, fanout, client, job).(holders := n.holders, log := n.log)
    requires TargetOk(n, fanout, client, Target(m.fanouts[fanout].targets[client].conn, job))
    requires forall l :: l in m.holders && m.holders[l] != (fanout, client) ==> l in n.holders && n.holders[l] == m.holders[l]
    requires n.log == m.log || (exists ok :: n.log == m.log + [Sent(fanout, client, ok)])
    requires LogOk(n)
    ensures Inv(n)
  {
    hide LogOk, TargetOk;
    var targets := m.fanouts[fanout].targets;
    LogMembers(m, n, fanout, client);
    forall c | c in targets && c != client ensures TargetOk(n, fanout, c, targets[c]) {
      GetTarget(m, fanout, c);
      TargetHolds(m, fanout, c, targets[c]);
      TargetStays(m, n, fanout, c, targets[c]);
    }
    forall f | f in m.fanouts && f != fanout ensures FanoutOk(n, f, m.fanouts[f]) {
      FanoutStays(m, n, f, m.fanouts[f]);
    }
  }

  lemma LogMembers(m: Manager, n: Manager, fanout: nat, client: nat)
    requires n.log == m.log || (exists ok :: n.log == m.log + [Sent(fanout, client, ok)])
    ensures forall e :: e in m.log ==> e in n.log
    ensures forall e :: e in n.log && e !in m.log ==> e == Sent(fanout, client, true) || e == Sent(fanout, client, false)
  {
  }

  lemma GetTarget(m: Manager, fanout: nat, client: nat)
    requires Inv(m) && fanout in m.fanouts && client in Targets(m.fanouts[fanout])
    ensures TargetOk(m, fanout, client, Targets(m.fanouts[fanout])[client])
  {
    assert FanoutOk(m, fanout, m.fanouts[fanout]);
  }

  /** A client's lock is the one it was issued; without a lock it is not connected. */
  lemma LockOf(m: Manager, client: nat)
    requires Inv(m)
    ensures client in m.locks ==> client in m.issued && m.locks[client] == m.issued[client]
    ensures client !in m.locks ==> client !in m.active
  {
    hide FanoutOk, LogOk, Injective;
  }

  lemma LogOkOf(m: Manager)
    requires Inv(m)
    ensures LogOk(m)
  {
    hide FanoutOk, LogOk, Injective;
  }

  /** A job that moves leaves every fan-out its targets. */
  lemma SetJobKeepsTargets(m: Manager, n: Manager, fanout: nat, client: nat, job: Job)
    requires Sends(m, fanout, client) && n.fanouts == SetJob(m, fanout, client, job).fanouts
    ensures forall f :: f in m.fanouts ==> f in n.fanouts && Targets(m.fanouts[f]).Keys <= Targets(n.fanouts[f]).Keys
    ensures Sends(n, fanout, client) && JobOf(n, fanout, client) == job
  {
  }

  lemma FindLockKeepsInv(m: Manager, fanout: nat, client: nat)
    requires Inv(m)
    ensures Inv(Step(m, FindLock(fanout, client)))
  {
    var n := Step(m, FindLock(fanout, client));
    if n != m {
      var job := if client in m.locks then Waiting(m.locks[client]) else Over(false, false);
      assert n == SetJob(m, fanout, client, job);
      assert Sends(m, fanout, client) && JobOf(m, fanout, client) == Ready;
      hide Inv, LogOk, Step;
      SetJobKeepsTargets(m, n, fanout, client, job);
      GetTarget(m, fanout, client);
      LockOf(m, client);
      LogOkOf(m);
      LogStays(m, n);
      assert TargetOk(n, fanout, client, Target(m.fanouts[fanout].targets[client].conn, job));
      hide TargetOk;
      JobKeepsInv(m, n, fanout, client, job);
    }
  }

  lemma AcquireKeepsInv(m: Manager, fanout: nat, client: nat)
    requires Inv(m)
    ensures Inv(Step(m, Acquire(fanout, client)))
  {
    var n := Step(m, Acquire(fanout, client));
    if n != m {
      var lock := JobOf(m, fanout, client).lock;
      assert n == SetJob(m, fanout, client, InFlight(lock)).(holders := m.holders[lock := (fanout, client)]);
      assert Sends(m, fanout, client) && JobOf(m, fanout, client) == Waiting(lock) && lock !in m.holders;
      hide Inv, LogOk, Step;
      SetJobKeepsTargets(m, n, fanout, client, InFlight(lock));
      GetTarget(m, fanout, client);
      LogOkOf(m);
      LogStays(m, n);
      assert TargetOk(n, fanout, client, Target(m.fanouts[fanout].targets[client].conn, InFlight(lock)));
      hide TargetOk;
      JobKeepsInv(m, n, fanout, client, InFlight(lock));
    }
  }

  lemma FinishKeepsInv(m: Manager, fanout: nat, client: nat, ok: bool)
    requires Inv(m)
    ensures Inv(Step(m, FinishSend(fanout, client, ok)))
  {
    var n := Step(m, FinishSend(fanout, client, ok));
    if n != m {
      var lock := JobOf(m, fanout, client).lock;
      assert n == SetJob(m, fanout, client, Over(true, ok)).(holders := m.holders - {lock}, log := m.log + [Sent(fanout, client, ok)]);
      assert Sends(m, fanout, client) && JobOf(m, fanout, client) == InFlight(lock);
      hide Inv, LogOk, Step;
      SetJobKeepsTargets(m, n, fanout, client, Over(true, ok));
      GetTarget(m, fanout, client);
      LogOkOf(m);
      SentGrows(m, n, fanout, client, ok);
      assert Sent(fanout, client, ok) in n.log by { assert n.log[|m.log|] == Sent(fanout, client, ok); }
      assert TargetOk(n, fanout, client, Target(m.fanouts[fanout].targets[client].conn, Over(true, ok)));
      assert forall l :: l in m.holders && m.holders[l] != (fanout, client) ==> l != lock;
      hide TargetOk;
      JobKeepsInv(m, n, fanout, client, Over(true, ok));
    }
  }

  lemma SentGrows(m: Manager, n: Manager, fanout: nat, client: nat, ok: bool)
    requires LogOk(m) && n.log == m.log + [Sent(fanout, client, ok)]
    requires forall e :: e in m.log ==> e != Sent(fanout, client, true) && e != Sent(fanout, client, false)
    requires fanout in n.fanouts && client in Targets(n.fanouts[fanout])
    requires forall f :: f in m.fanouts ==> f in n.fanouts && Targets(m.fanouts[f]).Keys <= Targets(n.fanouts[f]).Keys
    ensures LogOk(n)
  {
    var e := Sent(fanout, client, ok);
    forall i | 0 <= i < |n.log| && n.log[i].Dropped? ensures Sent(n.log[i].fanout, n.log[i].client, false) in n.log[..i] {
      assert n.log[..i] == m.log[..i];
    }
    forall i, j | 0 <= i < j < |n.log| && n.log[i].Sent? && n.log[j].Sent?
      ensures n.log[i].fanout != n.log[j].fanout || n.log[i].client != n.log[j].client
    {
      assert n.log[i] in m.log;
    }
  }

  /** A fan-out whose sends are over moves on, keeping its targets. */
  lemma PhaseMoves(m: Manager, n: Manager, fanout: nat)
    requires Inv(m) && fanout in m.fanouts && AllOver(Targets(m.fanouts[fanout]))
    requires n.conns == m.conns && n.issued == m.issued && n.holders == m.holders && n.active.Keys <= m.active.Keys
    requires fanout in n.fanouts && n.fanouts == m.fanouts[fanout := n.fanouts[fanout]]
    requires Targets(n.fanouts[fanout]) == Targets(m.fanouts[fanout])
    requires n.fanouts[fanout].Complete? ==> forall c :: c in Failed(Targets(m.fanouts[fanout])) ==> c !in n.active
    requires forall e :: e in m.log ==> e in n.log
    requires forall e :: e in n.log && e !in m.log ==> e.Dropped?
    ensures forall f :: f in n.fanouts ==> FanoutOk(n, f, n.fanouts[f])
  {
    hide TargetOk, LogOk, Injective;
    var targets := Targets(m.fanouts[fanout]);
    forall c | c in targets ensures TargetOk(n, fanout, c, targets[c]) {
      GetTarget(m, fanout, c);
      TargetHolds(m, fanout, c, targets[c]);
      TargetStays(m, n, fanout, c, targets[c]);
    }
    forall f | f in m.fanouts && f != fanout ensures FanoutOk(n, f, m.fanouts[f]) {
      FanoutStays(m, n, f, m.fanouts[f]);
    }
  }

  lemma GatherKeepsInv(m: Manager, fanout: nat)
    requires Inv(m)
    ensures Inv(Step(m, Gather(fanout)))
  {
    hide FanoutOk, LogOk, Injective;
    var n := Step(m, Gather(fanout));
    if n != m {
      PhaseMoves(m, n, fanout);
      LogStays(m, n);
    }
  }

  lemma {:induction false} DropEventsAre(fanout: nat, clients: set<nat>)
    ensures forall e :: e in DropEvents(fanout, clients) <==> e.Dropped? && e.fanout == fanout && e.client in clients
    decreases |clients|
  {
    if clients != {} {
      var c :| c in clients && DropEvents(fanout, clients) == [Dropped(fanout, c)] + DropEvents(fanout, clients - {c});
      DropEventsAre(fanout, clients - {c});
    }
  }

  /** Drops appended after the failed sends they answer stay explained. */
  lemma DropsStayExplained(log: seq<Event>, more: seq<Event>)
    requires DropsExplained(log)
    requires forall e :: e in more ==> e.Dropped? && Sent(e.fanout, e.client, false) in log
    ensures DropsExplained(log + more)
  {
    var all := log + more;
    forall i | 0 <= i < |all| && all[i].Dropped? ensures Sent(all[i].fanout, all[i].client, false) in all[..i] {
      if i < |log| {
        assert all[..i] == log[..i];
      } else {
        assert all[i] == more[i - |log|];
        var k :| 0 <= k < |log| && log[k] == Sent(all[i].fanout, all[i].client, false);
        assert all[..i][k] == log[k];
      }
    }
  }

  lemma SentOnceStays(log: seq<Event>, more: seq<Event>)
    requires SentOnce(log) && forall e :: e in more ==> e.Dropped?
    ensures SentOnce(log + more)
  {
    var all := log + more;
    forall i, j | 0 <= i < j < |all| && all[i].Sent? && all[j].Sent?
      ensures all[i].fanout != all[j].fanout || all[i].client != all[j].client
    {
      assert j < |log| by {
        assert forall k :: |log| <= k < |all| ==> all[k] == more[k - |log|] && more[k - |log|] in more;
      }
    }
  }

  lemma PruneLog(m: Manager, n: Manager, fanout: nat, dropped: set<nat>)
    requires LogOk(m) && n.log == m.log + DropEvents(fanout, dropped)
    requires forall c :: c in dropped ==> Sent(fanout, c, false) in m.log
    requires forall f :: f in m.fanouts ==> f in n.fanouts && Targets(m.fanouts[f]).Keys <= Targets(n.fanouts[f]).Keys
    ensures LogOk(n)
    ensures forall e :: e in m.log ==> e in n.log
    ensures forall e :: e in n.log && e !in m.log ==> e.Dropped?
  {
    hide DropsExplained, SentOnce, DropEvents;
    DropEventsAre(fanout, dropped);
    DropsStayExplained(m.log, DropEvents(fanout, dropped));
    SentOnceStays(m.log, DropEvents(fanout, dropped));
  }

  /** Whoever is still connected among the failed targets was sent to and failed. */
  lemma FailedWereSent(m: Manager, fanout: nat)
    requires Inv(m) && fanout in m.fanouts
    ensures forall c :: c in Failed(Targets(m.fanouts[fanout])) && c in m.active ==> Sent(fanout, c, false) in m.log
  {
    forall c | c in Failed(Targets(m.fanouts[fanout])) && c in m.active ensures Sent(fanout, c, false) in m.log {
      GetTarget(m, fanout, c);
    }
  }

  lemma PruneKeepsInv(m: Manager, fanout: nat)
    requires Inv(m)
    ensures Inv(Step(m, Prune(fanout)))
  {
    hide LogOk, DropEvents, Injective, TargetOk;
    var n := Step(m, Prune(fanout));
    if n != m {
      assert FanoutOk(m, fanout, m.fanouts[fanout]);
      FailedWereSent(m, fanout);
      PruneLog(m, n, fanout, Failed(m.fanouts[fanout].targets) * m.active.Keys);
      PhaseMoves(m, n, fanout);
    }
  }

  lemma DepartKeepsInv(m: Manager, a: Action)
    requires Inv(m) && (a.Disconnect? || a.BeginDisconnectAll? || a.EndDisconnectAll?)
    ensures Inv(Step(m, a))
  {
    hide FanoutOk, LogOk, Injective;
    LeaveKeepsInv(m, Step(m, a));
  }

  lemma ConnsGrow(m: Manager, a: Action)
    ensures Step(m, a).conns.Keys <= m.conns.Keys + if a.Connect? then {a.client} else {}
  {
  }

  lemma StepKeepsInv(m: Manager, a: Action)
    requires Inv(m) && (a.Connect? ==> a.client !in m.conns)
    ensures Inv(Step(m, a))
  {
    hide Inv;
    match a
    case Connect(client, conn) => ConnectKeepsInv(m, client, conn);
    case StartFanout(fanout, only) =>
      if fanout !in m.fanouts {
        BeginKeepsInv(m, fanout, Snapshotting(only));
      }
    case Snapshot(fanout) =>
      if fanout in m.fanouts && m.fanouts[fanout].Snapshotting? && !m.closing {
        BeginKeepsInv(m, fanout, Sending(Snapshotted(m.active, m.fanouts[fanout].only)));
      }
    case FindLock(fanout, client) => FindLockKeepsInv(m, fanout, client);
    case Acquire(fanout, client) => AcquireKeepsInv(m, fanout, client);
    case FinishSend(fanout, client, ok) => FinishKeepsInv(m, fanout, client, ok);
    case Gather(fanout) => GatherKeepsInv(m, fanout);
    case Prune(fanout) => PruneKeepsInv(m, fanout);
    case _ => DepartKeepsInv(m, a);
  }

  lemma {:induction false} RunKeepsInv(m: Manager, actions: seq<Action>)
    requires Inv(m) && FreshIds(m.conns.Keys, actions)
    ensures Inv(Run(m, actions))
    decreases |actions|
  {
    if actions != [] {
      StepKeepsInv(m, actions[0]);
      ConnsGrow(m, actions[0]);
      var n := Step(m, actions[0]);
      if actions[0].Connect? {
        FreshFewer(n.conns.Keys, m.conns.Keys + {actions[0].client}, actions[1..]);
      } else {
        FreshFewer(n.conns.Keys, m.conns.Keys, actions[1..]);
      }
      RunKeepsInv(n, actions[1..]);
    }
  }

  lemma {:induction false} FreshFewer(used: set<nat>, more: set<nat>, actions: seq<Action>)
    requires used <= more && FreshIds(more, actions)
    ensures FreshIds(used, actions)
    decreases |actions|
  {
    if actions != [] {
      if actions[0].Connect? {
        FreshFewer(used + {actions[0].client}, more + {actions[0].client}, actions[1..]);
      } else {
        FreshFewer(used, more, actions[1..]);
      }
    }
  }

  // ---- main results, for every interleaving with fresh client ids ----

  /** The two dictionaries always list the same clients. */
  lemma DictionariesAgree(actions: seq<Action>)
    requires FreshIds({}, actions)
    ensures Run(INITIAL, actions).active.Keys == Run(INITIAL, actions).locks.Keys
  {
    hide FanoutOk, LogOk;
    InitialInv();
    RunKeepsInv(INITIAL, actions);
  }

  lemma InitialInv()
    ensures Inv(INITIAL) && INITIAL.conns.Keys == {}
  {
  }

  ghost predicate SendingOn(m: Manager, fanout: nat, client: nat, conn: nat) {
    Sends(m, fanout, client) && JobOf(m, fanout, client).InFlight? && m.fanouts[fanout].targets[client].conn == conn
  }

  /** At most one send is in flight per connection. */
  lemma OneSendPerConnection(actions: seq<Action>, conn: nat, f: nat, c: nat, g: nat, d: nat)
    requires FreshIds({}, actions)
    requires SendingOn(Run(INITIAL, actions), f, c, conn) && SendingOn(Run(INITIAL, actions), g, d, conn)
    ensures f == g && c == d
  {
    InitialInv();
    RunKeepsInv(INITIAL, actions);
    var m := Run(INITIAL, actions);
    GetTarget(m, f, c);
    GetTarget(m, g, d);
  }

  /**
   Each fan-out sends at most once to a client, and only to its snapshot; it drops a client only
   after its own send to that client failed.
   */
  lemma SendsAndDrops(actions: seq<Action>)
    requires FreshIds({}, actions)
    ensures var m := Run(INITIAL, actions);
            && SentOnce(m.log) && DropsExplained(m.log)
            && (forall e :: e in m.log && e.Sent? ==> e.fanout in m.fanouts && e.client in Targets(m.fanouts[e.fanout]))
  {
    hide FanoutOk;
    InitialInv();
    RunKeepsInv(INITIAL, actions);
  }

  /** A completed fan-out has delivered to every snapshot client that is still connected. */
  lemma CompleteDelivers(actions: seq<Action>, fanout: nat, client: nat)
    requires FreshIds({}, actions)
    requires var m := Run(INITIAL, actions);
             fanout in m.fanouts && m.fanouts[fanout].Complete? && client in m.fanouts[fanout].targets && client in m.active
    ensures Sent(fanout, client, true) in Run(INITIAL, actions).log
  {
    InitialInv();
    RunKeepsInv(INITIAL, actions);
    var m := Run(INITIAL, actions);
    assert FanoutOk(m, fanout, m.fanouts[fanout]);
    GetTarget(m, fanout, client);
  }

  // ---- who is sent to ----

  /** Who is connected after a step: who comes, and who neither leaves nor is dropped for a failed send. */
  lemma ConnectedAfter(m: Manager, a: Action, client: nat)
    ensures client in Step(m, a).active <==>
      || (a.Connect? && a.client == client && !m.closing && a.conn !in m.conns.Values)
      || (client in m.active
          && !(a == Disconnect(client) && !m.closing)
          && !(a.EndDisconnectAll? && m.closing)
          && !(a.Prune? && !m.closing && a.fanout in m.fanouts && m.fanouts[a.fanout].Pruning?
               && client in m.fanouts[a.fanout].targets && m.fanouts[a.fanout].targets[client].job.Over?
               && !m.fanouts[a.fanout].targets[client].job.ok))
  {
    hide DropEvents, Snapshotted;
  }

  /** Step k takes the fan-out's snapshot; `only` is Some for a send to a single client. */
  ghost predicate TookSnapshot(actions: seq<Action>, k: nat, fanout: nat, only: Option<nat>) {
    && k < |actions| && actions[k] == Snapshot(fanout)
    && var m := Run(INITIAL, actions[..k]);
       !m.closing && fanout in m.fanouts && m.fanouts[fanout] == Snapshotting(only)
  }

  /** Connected at step k, and meant. */
  ghost predicate MeantAt(actions: seq<Action>, k: nat, only: Option<nat>, client: nat) {
    k <= |actions| && client in Run(INITIAL, actions[..k]).active && (only.None? || only.value == client)
  }

  ghost predicate SameTargets(m: Manager, n: Manager) {
    forall f :: f in m.fanouts && !m.fanouts[f].Snapshotting? ==>
      f in n.fanouts && !n.fanouts[f].Snapshotting? && Targets(n.fanouts[f]).Keys == Targets(m.fanouts[f]).Keys
  }

  lemma StepKeepsTargets(m: Manager, a: Action)
    ensures SameTargets(m, Step(m, a))
  {
    var n := Step(m, a);
    if n.fanouts != m.fanouts {
      hide SameTargets, DropEvents, Failed, Snapshotted;
      if a.FindLock? || a.Acquire? || a.FinishSend? {
        hide AllOver;
        var job :| n.fanouts == SetJob(m, a.fanout, a.client, job).fanouts;
        JobKeepsTargets(m, n, a.fanout, a.client, job);
      } else {
        assert n.fanouts == m.fanouts[a.fanout := n.fanouts[a.fanout]];
        assert a.fanout in m.fanouts && !m.fanouts[a.fanout].Snapshotting? ==>
          !n.fanouts[a.fanout].Snapshotting? && Targets(n.fanouts[a.fanout]) == Targets(m.fanouts[a.fanout]);
        hide Step;
        OneFanoutMoves(m, n, a.fanout);
      }
    }
  }

  lemma OneFanoutMoves(m: Manager, n: Manager, fanout: nat)
    requires fanout in n.fanouts && n.fanouts == m.fanouts[fanout := n.fanouts[fanout]]
    requires fanout in m.fanouts && !m.fanouts[fanout].Snapshotting? ==>
      !n.fanouts[fanout].Snapshotting? && Targets(n.fanouts[fanout]).Keys == Targets(m.fanouts[fanout]).Keys
    ensures SameTargets(m, n)
  {
    hide Targets;
  }

  lemma JobKeepsTargets(m: Manager, n: Manager, fanout: nat, client: nat, job: Job)
    requires Sends(m, fanout, client) && n.fanouts == SetJob(m, fanout, client, job).fanouts
    ensures SameTargets(m, n)
  {
    assert Targets(n.fanouts[fanout]).Keys == Targets(m.fanouts[fanout]).Keys;
    OneFanoutMoves(m, n, fanout);
  }

  lemma {:induction false} RunKeepsTargets(m: Manager, actions: seq<Action>)
    ensures SameTargets(m, Run(m, actions))
    decreases |actions|
  {
    hide Step;
    if actions != [] {
      StepKeepsTargets(m, actions[0]);
      RunKeepsTargets(Step(m, actions[0]), actions[1..]);
    }
  }

  lemma {:induction false} RunSplit(m: Manager, actions: seq<Action>, k: nat)
    requires k < |actions|
    ensures Run(m, actions) == Run(Step(Run(m, actions[..k]), actions[k]), actions[k + 1..])
    decreases |actions|
  {
    hide Step;
    if k > 0 {
      RunSplit(Step(m, actions[0]), actions[1..], k - 1);
      assert actions[1..][..k - 1] == actions[..k][1..];
      assert actions[1..][k..] == actions[k + 1..];
    }
  }

  /** A fan-out's targets are those that were connected and meant when it took its snapshot, from then on. */
  lemma TargetsAreMeant(actions: seq<Action>, k: nat, fanout: nat, only: Option<nat>)
    requires TookSnapshot(actions, k, fanout, only)
    ensures var m := Run(INITIAL, actions);
            && fanout in m.fanouts && !m.fanouts[fanout].Snapshotting?
            && forall c: nat :: c in Targets(m.fanouts[fanout]) <==> MeantAt(actions, k, only, c)
  {
    var m := Run(INITIAL, actions[..k]);
    var n := Step(m, actions[k]);
    SnapshotTakes(m, fanout, only);
    hide Step, Snapshotted;
    RunSplit(INITIAL, actions, k);
    RunKeepsTargets(n, actions[k + 1..]);
    hide Run;
    assert forall c: nat :: c in Targets(n.fanouts[fanout]) <==> MeantAt(actions, k, only, c);
  }

  lemma SnapshotTakes(m: Manager, fanout: nat, only: Option<nat>)
    requires !m.closing && fanout in m.fanouts && m.fanouts[fanout] == Snapshotting(only)
    ensures var n := Step(m, Snapshot(fanout));
            && fanout in n.fanouts && n.fanouts[fanout].Sending?
            && forall c: nat :: c in Targets(n.fanouts[fanout]) <==> c in m.active && (only.None? || only.value == c)
  {
  }

  /** Every fan-out that has targets took a snapshot. */
  lemma {:induction false} SnapshotWasTaken(actions: seq<Action>, fanout: nat) returns (k: nat, only: Option<nat>)
    requires var m := Run(INITIAL, actions); fanout in m.fanouts && !m.fanouts[fanout].Snapshotting?
    ensures TookSnapshot(actions, k, fanout, only)
  {
    hide Step;
    var n := |actions| - 1;
    assert actions != [];
    var before, a := actions[..n], actions[n];
    RunSplit(INITIAL, actions, n);
    assert actions[n + 1..] == [];
    var m := Run(INITIAL, before);
    if fanout in m.fanouts && !m.fanouts[fanout].Snapshotting? {
      k, only := SnapshotWasTaken(before, fanout);
      assert before[..k] == actions[..k];
    } else {
      LeavesSnapshotting(m, a, fanout);
      k, only := n, m.fanouts[fanout].only;
    }
  }

  lemma LeavesSnapshotting(m: Manager, a: Action, fanout: nat)
    requires fanout in m.fanouts ==> m.fanouts[fanout].Snapshotting?
    requires fanout in Step(m, a).fanouts && !Step(m, a).fanouts[fanout].Snapshotting?
    ensures a == Snapshot(fanout) && !m.closing && fanout in m.fanouts
  {
    hide DropEvents, Failed, Snapshotted;
  }

  /** Whoever was connected when a broadcast took its snapshot, and still is when it is complete, was sent to. */
  lemma BroadcastReachesAll(actions: seq<Action>, k: nat, fanout: nat, client: nat)
    requires FreshIds({}, actions) && TookSnapshot(actions, k, fanout, None)
    requires client in Run(INITIAL, actions[..k]).active && client in Run(INITIAL, actions).active
    requires fanout in Run(INITIAL, actions).fanouts && Run(INITIAL, actions).fanouts[fanout].Complete?
    ensures Sent(fanout, client, true) in Run(INITIAL, actions).log
  {
    hide Step;
    TargetsAreMeant(actions, k, fanout, None);
    assert MeantAt(actions, k, None, client);
    CompleteDelivers(actions, fanout, client);
  }

  /** A send to one client reaches it likewise. */
  lemma SingleSendReaches(actions: seq<Action>, k: nat, fanout: nat, client: nat)
    requires FreshIds({}, actions) && TookSnapshot(actions, k, fanout, Some(client))
    requires client in Run(INITIAL, actions[..k]).active && client in Run(INITIAL, actions).active
    requires fanout in Run(INITIAL, actions).fanouts && Run(INITIAL, actions).fanouts[fanout].Complete?
    ensures Sent(fanout, client, true) in Run(INITIAL, actions).log
  {
    hide Step;
    TargetsAreMeant(actions, k, fanout, Some(client));
    assert MeantAt(actions, k, Some(client), client);
    CompleteDelivers(actions, fanout, client);
  }

  /** Every send of a fan-out goes to a client that was connected, and meant, when it took its snapshot. */
  lemma SentOnlyToMeant(actions: seq<Action>, fanout: nat, client: nat, ok: bool) returns (k: nat, only: Option<nat>)
    requires FreshIds({}, actions) && Sent(fanout, client, ok) in Run(INITIAL, actions).log
    ensures TookSnapshot(actions, k, fanout, only)
    ensures client in Run(INITIAL, actions[..k]).active && (only.Some? ==> only.value == client)
  {
    hide Step;
    SendsAndDrops(actions);
    k, only := SnapshotWasTaken(actions, fanout);
    TargetsAreMeant(actions, k, fanout, only);
  }

  // ---- progress, for every interleaving ----

  /** Whoever holds a lock is sending with it. */
  ghost predicate HoldersSend(m: Manager) {
    forall l :: l in m.holders ==> HolderSends(m, l, m.holders[l].0, m.holders[l].1)
  }

  ghost predicate HolderSends(m: Manager, lock: nat, fanout: nat, client: nat) {
    Sends(m, fanout, client) && JobOf(m, fanout, client) == InFlight(lock)
  }

  /** A step that leaves the holders alone, and changes no fan-out that is in the middle of a send. */
  lemma HoldersStay(m: Manager, n: Manager)
    requires HoldersSend(m) && n.holders == m.holders
    requires forall f :: f in m.fanouts && m.fanouts[f].Sending? && !AllOver(m.fanouts[f].targets) ==>
               f in n.fanouts && n.fanouts[f] == m.fanouts[f]
    ensures HoldersSend(n)
  {
    forall l | l in n.holders ensures HolderSends(n, l, n.holders[l].0, n.holders[l].1) {
      assert HolderSends(m, l, m.holders[l].0, m.holders[l].1);
    }
  }

  /** One job moves; nobody else's does. */
  lemma HoldersAfterJob(m: Manager, n: Manager, fanout: nat, client: nat, job: Job)
    requires HoldersSend(m) && Sends(m, fanout, client)
    requires n == SetJob(m, fanout, client, job).(holders := n.holders, log := n.log)
    requires forall l :: l in n.holders ==>
               (n.holders[l] == (fanout, client) && job == InFlight(l))
               || (l in m.holders && n.holders[l] == m.holders[l] && JobOf(m, fanout, client) != InFlight(l))
    ensures HoldersSend(n)
  {
    forall l | l in n.holders ensures HolderSends(n, l, n.holders[l].0, n.holders[l].1) {
      if l in m.holders {
        assert HolderSends(m, l, m.holders[l].0, m.holders[l].1);
      }
    }
  }

  lemma StepKeepsHolders(m: Manager, a: Action)
    requires HoldersSend(m)
    ensures HoldersSend(Step(m, a))
  {
    hide HoldersSend, Step;
    match a
    case FindLock(fanout, client) => JobKeepsHolders(m, a, fanout, client);
    case Acquire(fanout, client) => JobKeepsHolders(m, a, fanout, client);
    case FinishSend(fanout, client, _) => JobKeepsHolders(m, a, fanout, client);
    case StartFanout(fanout, _) => PhaseKeepsHolders(m, a, fanout);
    case Snapshot(fanout) => PhaseKeepsHolders(m, a, fanout);
    case Gather(fanout) => PhaseKeepsHolders(m, a, fanout);
    case Prune(fanout) => PhaseKeepsHolders(m, a, fanout);
    case _ => DepartKeepsHolders(m, a);
  }

  lemma DepartKeepsHolders(m: Manager, a: Action)
    requires HoldersSend(m) && (a.Connect? || a.Disconnect? || a.BeginDisconnectAll? || a.EndDisconnectAll?)
    ensures HoldersSend(Step(m, a))
  {
    hide HoldersSend;
    var n := Step(m, a);
    assert n.fanouts == m.fanouts && n.holders == m.holders;
    hide Step;
    HoldersStay(m, n);
  }

  lemma PhaseKeepsHolders(m: Manager, a: Action, fanout: nat)
    requires HoldersSend(m)
    requires a == Snapshot(fanout) || a == Gather(fanout) || a == Prune(fanout) || (a.StartFanout? && a.fanout == fanout)
    ensures HoldersSend(Step(m, a))
  {
    OnlyThatPhase(m, a, fanout);
    hide HoldersSend, Step, AllOver;
    HoldersStay(m, Step(m, a));
  }

  lemma OnlyThatPhase(m: Manager, a: Action, fanout: nat)
    requires a == Snapshot(fanout) || a == Gather(fanout) || a == Prune(fanout) || (a.StartFanout? && a.fanout == fanout)
    ensures var n := Step(m, a);
            && n.holders == m.holders && m.fanouts.Keys <= n.fanouts.Keys
            && (forall f :: f in m.fanouts && f != fanout ==> n.fanouts[f] == m.fanouts[f])
            && (fanout in m.fanouts && m.fanouts[fanout].Sending? && !AllOver(m.fanouts[fanout].targets) ==> n == m)
  {
    hide DropEvents, Failed, Snapshotted, AllOver;
  }

  lemma JobKeepsHolders(m: Manager, a: Action, fanout: nat, client: nat)
    requires HoldersSend(m)
    requires a == FindLock(fanout, client) || a == Acquire(fanout, client) || (a.FinishSend? && a == FinishSend(fanout, client, a.ok))
    ensures HoldersSend(Step(m, a))
  {
    var n := Step(m, a);
    if n != m {
      var before := JobOf(m, fanout, client);
      var job := if a.FindLock? then (if client in m.locks then Waiting(m.locks[client]) else Over(false, false))
                 else if a.Acquire? then InFlight(before.lock) else Over(true, a.ok);
      HolderJobs(m, fanout, client);
      hide HoldersSend, SetJob;
      assert n == SetJob(m, fanout, client, job).(holders := n.holders, log := n.log);
      HoldersAfterJob(m, n, fanout, client, job);
    }
  }

  /** A lock that is held for a job is the one it sends with. */
  lemma HolderJobs(m: Manager, fanout: nat, client: nat)
    requires HoldersSend(m) && Sends(m, fanout, client)
    ensures forall l :: l in m.holders && m.holders[l] == (fanout, client) ==> JobOf(m, fanout, client) == InFlight(l)
  {
    forall l | l in m.holders && m.holders[l] == (fanout, client) ensures JobOf(m, fanout, client) == InFlight(l) {
      assert HolderSends(m, l, m.holders[l].0, m.holders[l].1);
    }
  }

  lemma {:induction false} RunKeepsHolders(m: Manager, actions: seq<Action>)
    requires HoldersSend(m)
    ensures HoldersSend(Run(m, actions))
    decreases |actions|
  {
    if actions != [] {
      StepKeepsHolders(m, actions[0]);
      RunKeepsHolders(Step(m, actions[0]), actions[1..]);
    }
  }

  /** A step of the fan-out's own. */
  predicate OwnStep(a: Action, fanout: nat) {
    (a.Snapshot? || a.FindLock? || a.Acquire? || a.FinishSend? || a.Gather? || a.Prune?) && a.fanout == fanout
  }

  ghost predicate CanMove(m: Manager, fanout: nat) {
    exists a :: OwnStep(a, fanout) && Step(m, a) != m
  }

  /** One of its sends waits for a lock that is held. */
  ghost predicate WaitsFor(m: Manager, fanout: nat, holder: nat) {
    exists c, lock :: Sends(m, fanout, c) && JobOf(m, fanout, c) == Waiting(lock) && lock in m.holders && m.holders[lock].0 == holder
  }

  /**
   In every reachable state a fan-out that is not complete can move, or waits for another one that
   can, or waits for disconnect_all, which can end. Client ids need not be fresh for that.
   */
  lemma NobodyIsStuck(actions: seq<Action>, fanout: nat)
    requires var m := Run(INITIAL, actions); fanout in m.fanouts && !m.fanouts[fanout].Complete?
    ensures var m := Run(INITIAL, actions);
            || CanMove(m, fanout)
            || (exists holder :: WaitsFor(m, fanout, holder) && CanMove(m, holder))
            || (m.closing && (m.fanouts[fanout].Snapshotting? || m.fanouts[fanout].Pruning?) && !Step(m, EndDisconnectAll).closing)
  {
    RunKeepsHolders(INITIAL, actions);
    var m := Run(INITIAL, actions);
    hide Run;
    match m.fanouts[fanout]
    case Snapshotting(_) =>
      if !m.closing {
        SnapshotMoves(m, fanout);
      }
    case Sending(targets) =>
      if AllOver(targets) {
        GatherMoves(m, fanout);
      } else {
        var c :| c in targets && !targets[c].job.Over?;
        SendMoves(m, fanout, c);
      }
    case Pruning(_) =>
      if !m.closing {
        PruneMoves(m, fanout);
      }
    case Complete(_) =>
  }

  lemma SnapshotMoves(m: Manager, fanout: nat)
    requires fanout in m.fanouts && m.fanouts[fanout].Snapshotting? && !m.closing
    ensures CanMove(m, fanout)
  {
    var n := Step(m, Snapshot(fanout));
    assert n.fanouts[fanout] != m.fanouts[fanout];
    assert OwnStep(Snapshot(fanout), fanout);
  }

  lemma GatherMoves(m: Manager, fanout: nat)
    requires fanout in m.fanouts && m.fanouts[fanout].Sending? && AllOver(m.fanouts[fanout].targets)
    ensures CanMove(m, fanout)
  {
    var n := Step(m, Gather(fanout));
    assert n.fanouts[fanout] != m.fanouts[fanout];
    assert OwnStep(Gather(fanout), fanout);
  }

  lemma PruneMoves(m: Manager, fanout: nat)
    requires fanout in m.fanouts && m.fanouts[fanout].Pruning? && !m.closing
    ensures CanMove(m, fanout)
  {
    hide DropEvents, Failed;
    var n := Step(m, Prune(fanout));
    assert n.fanouts[fanout] != m.fanouts[fanout];
    assert OwnStep(Prune(fanout), fanout);
  }

  /** A send that is not over can go on, or waits for one that is in flight. */
  lemma SendMoves(m: Manager, fanout: nat, client: nat)
    requires HoldersSend(m) && Sends(m, fanout, client) && !JobOf(m, fanout, client).Over?
    ensures CanMove(m, fanout) || exists holder :: WaitsFor(m, fanout, holder) && CanMove(m, holder)
  {
    match JobOf(m, fanout, client)
    case Ready =>
      JobMoves(m, FindLock(fanout, client), fanout, client);
    case Waiting(lock) =>
      if lock in m.holders {
        var g, d := m.holders[lock].0, m.holders[lock].1;
        assert HolderSends(m, lock, g, d);
        JobMoves(m, FinishSend(g, d, true), g, d);
        assert WaitsFor(m, fanout, g);
      } else {
        JobMoves(m, Acquire(fanout, client), fanout, client);
      }
    case InFlight(_) =>
      JobMoves(m, FinishSend(fanout, client, true), fanout, client);
  }

  lemma JobMoves(m: Manager, a: Action, fanout: nat, client: nat)
    requires Sends(m, fanout, client)
    requires var job := JobOf(m, fanout, client);
             || (job == Ready && a == FindLock(fanout, client))
             || (job.Waiting? && job.lock !in m.holders && a == Acquire(fanout, client))
             || (job.InFlight? && a == FinishSend(fanout, client, true))
    ensures CanMove(m, fanout)
  {
    var n := Step(m, a);
    assert Sends(n, fanout, client) && JobOf(n, fanout, client) != JobOf(m, fanout, client);
    assert OwnStep(a, fanout);
  }

  // ---- why ids must be fresh ----

  function Reconnect(): seq<Action> {
    [Connect(1, 10), StartFanout(100, None), Snapshot(100), FindLock(100, 1), Acquire(100, 1),
     StartFanout(200, None), Snapshot(200), Disconnect(1), Connect(1, 11), FindLock(200, 1), Acquire(200, 1)]
  }

  /** The states this run goes through. */
  ghost function Stage(k: nat): Manager
    requires k <= 11
  {
    var ready, held := Sending(map[1 := Target(10, Ready)]), Sending(map[1 := Target(10, InFlight(0))]);
    var m1 := Manager(map[1 := 10], map[1 := 0], false, map[], map[], map[1 := 10], map[1 := 0], 1, []);
    var m5 := m1.(fanouts := map[100 := held], holders := map[0 := (100, 1)]);
    var m8 := m5.(active := map[], locks := map[], fanouts := map[100 := held, 200 := ready]);
    var m9 := m8.(active := map[1 := 11], locks := map[1 := 1], conns := map[1 := 11], issued := map[1 := 1], lockCount := 2);
    if k == 0 then INITIAL
    else if k == 1 then m1
    else if k == 2 then m1.(fanouts := map[100 := Snapshotting(None)])
    else if k == 3 then m1.(fanouts := map[100 := ready])
    else if k == 4 then m1.(fanouts := map[100 := Sending(map[1 := Target(10, Waiting(0))])])
    else if k == 5 then m5
    else if k == 6 then m5.(fanouts := map[100 := held, 200 := Snapshotting(None)])
    else if k == 7 then m5.(fanouts := map[100 := held, 200 := ready])
    else if k == 8 then m8
    else if k == 9 then m9
    else if k == 10 then m9.(fanouts := map[100 := held, 200 := Sending(map[1 := Target(10, Waiting(1))])])
    else m9.(fanouts := map[100 := held, 200 := Sending(map[1 := Target(10, InFlight(1))])],
             holders := map[0 := (100, 1), 1 := (200, 1)])
  }

  lemma Starts(k: nat)
    requires k == 0 || k == 1 || k == 5
    ensures Step(Stage(k), Reconnect()[k]) == Stage(k + 1)
  {
  }

  lemma Snapshots(k: nat)
    requires k == 2 || k == 6
    ensures Step(Stage(k), Reconnect()[k]) == Stage(k + 1)
  {
    assert Snapshotted(map[1 := 10], None) == map[1 := Target(10, Ready)];
  }

  lemma FindsFirstLock(k: nat)
    requires k == 3
    ensures Step(Stage(k), Reconnect()[k]) == Stage(k + 1)
  {
    var ready := map[1 := Target(10, Ready)];
    assert ready[1 := Target(10, Waiting(0))] == map[1 := Target(10, Waiting(0))];
  }

  lemma TakesFirstLock(k: nat)
    requires k == 4
    ensures Step(Stage(k), Reconnect()[k]) == Stage(k + 1)
  {
    assert map[1 := Target(10, Waiting(0))][1 := Target(10, InFlight(0))] == map[1 := Target(10, InFlight(0))];
  }

  lemma ClientReconnects(k: nat)
    requires k == 7 || k == 8
    ensures Step(Stage(k), Reconnect()[k]) == Stage(k + 1)
  {
  }

  lemma FindsSecondLock(k: nat)
    requires k == 9
    ensures Step(Stage(k), Reconnect()[k]) == Stage(k + 1)
  {
    var ready := map[1 := Target(10, Ready)];
    assert ready[1 := Target(10, Waiting(1))] == map[1 := Target(10, Waiting(1))];
  }

  lemma TakesSecondLock(k: nat)
    requires k == 10
    ensures Step(Stage(k), Reconnect()[k]) == Stage(k + 1)
  {
    assert map[1 := Target(10, Waiting(1))][1 := Target(10, InFlight(1))] == map[1 := Target(10, InFlight(1))];
  }

  /** A client id connected again lets two sends run on the old connection at once. */
  lemma ReuseOverlaps()
    ensures !FreshIds({}, Reconnect())
    ensures SendingOn(Run(INITIAL, Reconnect()), 100, 1, 10) && SendingOn(Run(INITIAL, Reconnect()), 200, 1, 10)
  {
    hide Step, Run, FreshIds;
    var states := seq(12, k requires 0 <= k < 12 => Stage(k));
    forall k | 0 <= k < 11 ensures Step(states[k], Reconnect()[k]) == states[k + 1] {
      match k {
        case 2 => Snapshots(k);
        case 6 => Snapshots(k);
        case 3 => FindsFirstLock(k);
        case 4 => TakesFirstLock(k);
        case 7 => ClientReconnects(k);
        case 8 => ClientReconnects(k);
        case 9 => FindsSecondLock(k);
        case 10 => TakesSecondLock(k);
        case _ => Starts(k);
      }
    }
    RunOn(INITIAL, Reconnect(), 0, states);
    assert Reconnect()[0..] == Reconnect();
    NotFresh();
  }

  lemma {:induction false} RunOn(m: Manager, actions: seq<Action>, i: nat, states: seq<Manager>)
    requires i <= |actions| && |states| == |actions| + 1 && states[i] == m
    requires forall k :: 0 <= k < |actions| ==> Step(states[k], actions[k]) == states[k + 1]
    ensures Run(m, actions[i..]) == states[|actions|]
    decreases |actions| - i
  {
    if i < |actions| {
      assert actions[i..][1..] == actions[i + 1..];
      RunOn(states[i + 1], actions, i + 1, states);
    }
  }

  lemma {:induction false} FreshOnce(used: set<nat>, actions: seq<Action>, client: nat, i: nat)
    requires client in used && i < |actions| && actions[i].Connect? && actions[i].client == client
    ensures !FreshIds(used, actions)
    decreases |actions|
  {
    if i > 0 {
      FreshOnce(if actions[0].Connect? then used + {actions[0].client} else used, actions[1..], client, i - 1);
    }
  }

  lemma NotFresh()
    ensures !FreshIds({}, Reconnect())
  {
    FreshOnce({} + {1}, Reconnect()[1..], 1, 7);
  }
}

/**
 From persisted ring states to executed plans: one manager that writes, one that watches with the same virtual node
 count and does not write, and a rebalancer behind it, in every interleaving with each other and with the rest of etcd.

 History variables: `trace` and `wrote`, the state written at each revision of a ring write; `bootedAt`, the length of
 the log when the watcher last bootstrapped; `processed` and `applied`, the events the watcher has looked at and the
 states it installed; `executed`, the events turned into plans.
 */
module WatchPipeline {
  import opened Prelude
  import opened RingOrder
  import opened Assignments
  import opened Etcdsim
  import E = EtcdRuns
  import opened RingManager
  import opened Rebalance

  const EVENT_CAPACITY := 8

  datatype Setup = Setup(hash: string -> Hash, vnodes: nat, prefix: string, codec: Codec)

  /** Etcd and the manager that writes. */
  datatype Cluster = Cluster(etcd: E.World, writer: RingState, trace: seq<E.Action>, wrote: map<int, RingState>)

  /** The manager that watches: `todo` is left of the response at hand, `pending` the event it is about to emit. */
  datatype Watcher = Watcher(
    state: RingState,
    sub: Option<nat>,
    todo: seq<WatchEvent>,
    pending: seq<RingEvent>,
    on: bool,
    bootedAt: nat,
    processed: seq<WatchEvent>,
    applied: seq<RingState>)

  /** The rebalancer and the channel in front of it. */
  datatype Rebalancer = Rebalancer(events: seq<RingEvent>, plans: seq<Plan>, on: bool, executed: seq<RingEvent>)

  datatype World = World(cluster: Cluster, watcher: Watcher, rebalancer: Rebalancer)

  datatype Action =
    | Upsert(node: NodeDescriptor)
    | Remove(id: string)
    | BootWatcher
    | Subscribe
    | Elsewhere(a: E.Action)
    | Take
    | Process
    | Send
    | StopWatcher
    | Execute(ok: bool)
    | StopRebalancer

  const START := World(
    Cluster(E.START, EMPTY_STATE, [], map[]),
    Watcher(EMPTY_STATE, None, [], [], true, 0, [], []),
    Rebalancer([], [], true, []))

  predicate OpOn(op: Op, key: string) {
    match op case OpPut(k, _) => k == key case OpDelete(k) => k == key case OpUnknown => false
  }

  predicate WritesKey(txn: Txn, key: string) {
    (exists i :: 0 <= i < |txn.onSuccess| && OpOn(txn.onSuccess[i], key)) ||
    (exists i :: 0 <= i < |txn.onFailure| && OpOn(txn.onFailure[i], key))
  }

  /** What everyone but the writer and the watcher may do to etcd. */
  predicate Allowed(u: Setup, sub: Option<nat>, e: E.Action) {
    && (e.Commit? ==> !WritesKey(e.txn, RingKey(u.prefix)))
    && (e.Receive? ==> sub != Some(e.id))
  }

  function EtcdStep(c: Cluster, a: E.Action): Cluster {
    c.(etcd := E.Step(c.etcd, a), trace := c.trace + [a])
  }

  function Write(u: Setup, c: Cluster, s: RingState): Cluster {
    var c' := EtcdStep(c, E.Commit(PutTxn(RingKey(u.prefix), u.codec.encode(s))));
    c'.(writer := s, wrote := c.wrote[c'.etcd.client.revision := s])
  }

  function ToEvent(s: RingState): RingEvent { RingEvent(s.version, s.tokens) }

  /** The body of the watch loop: other keys, deletions and undecodable values are skipped. */
  ghost function StepProcess(u: Setup, m: Watcher): Watcher
    requires m.todo != []
  {
    var evt := m.todo[0];
    var m' := m.(todo := m.todo[1..], processed := m.processed + [evt]);
    if evt.key != RingKey(u.prefix) || evt.typ == DeleteEvent then m'
    else
      match u.codec.decode(evt.value)
      case None => m'
      case Some(s) => Install(u, m', s)
  }

  ghost function Install(u: Setup, m: Watcher, s: RingState): Watcher {
    m.(state := Rebuilt(u.hash, u.vnodes, s), pending := [ToEvent(s)], applied := m.applied + [s])
  }

  predicate CanTake(etcd: E.World, m: Watcher) {
    m.sub.Some? && m.on && m.todo == [] && m.pending == [] &&
    m.sub.value in etcd.subs && m.sub.value in etcd.client.chans && etcd.client.chans[m.sub.value].queue != []
  }

  /** The next response is at hand. */
  function Taken(etcd: E.World, m: Watcher): Watcher
    requires CanTake(etcd, m)
  {
    m.(todo := etcd.client.chans[m.sub.value].queue[0].events)
  }

  ghost function Step(u: Setup, w: World, a: Action): World {
    var c, m, b := w.cluster, w.watcher, w.rebalancer;
    match a
    case Upsert(node) =>
      if node.id == "" || !E.Free(c.etcd) then w
      else w.(cluster := Write(u, c, Upserted(u.hash, u.vnodes, c.writer, node)))
    case Remove(id) =>
      if id == "" || id !in c.writer.nodes || !E.Free(c.etcd) then w
      else w.(cluster := Write(u, c, Removed(u.hash, u.vnodes, c.writer, id)))
    case BootWatcher =>
      var boot := Booted(u.hash, u.vnodes, u.codec, Stored(c.etcd.client, RingKey(u.prefix)));
      if m.sub.Some? || boot.None? then w
      else w.(watcher := m.(state := boot.value.0, bootedAt := |c.etcd.log|))
    case Subscribe =>
      if m.sub.Some? || !E.Free(c.etcd) then w
      else w.(cluster := EtcdStep(c, E.Watch(u.prefix)), watcher := m.(sub := Some(c.etcd.client.nextID + 1)))
    case Elsewhere(e) => if Allowed(u, m.sub, e) then w.(cluster := EtcdStep(c, e)) else w
    case Take =>
      if !CanTake(c.etcd, m) then w
      else w.(cluster := EtcdStep(c, E.Receive(m.sub.value)), watcher := Taken(c.etcd, m))
    case Process => if m.on && m.todo != [] && m.pending == [] then w.(watcher := StepProcess(u, m)) else w
    case Send =>
      if m.on && m.pending != [] && |b.events| < EVENT_CAPACITY then Sent(w) else w
    case StopWatcher => w.(watcher := m.(on := false))
    case Execute(ok) => if b.on && b.events != [] then w.(rebalancer := StepExecute(b, ok)) else w
    case StopRebalancer => w.(rebalancer := b.(on := false))
  }

  /** The pending event is on its way to the rebalancer. */
  function Sent(w: World): World
    requires w.watcher.pending != []
  {
    var m, b := w.watcher, w.rebalancer;
    w.(watcher := m.(pending := m.pending[1..]), rebalancer := b.(events := b.events + [m.pending[0]]))
  }

  function StepExecute(b: Rebalancer, ok: bool): Rebalancer
    requires b.events != []
  {
    var evt := b.events[0];
    b.(events := b.events[1..], plans := b.plans + [PlanFor(evt)], executed := b.executed + [evt], on := ok)
  }

  ghost function Exec(u: Setup, actions: seq<Action>): World {
    if actions == [] then START else Step(u, Exec(u, actions[..|actions| - 1]), actions[|actions| - 1])
  }

  // ---------- The revisions at which the ring key was written ----------

  function RingRevs(events: seq<WatchEvent>, key: string): seq<int> {
    if events == [] then []
    else
      var last := events[|events| - 1];
      RingRevs(events[..|events| - 1], key) + if last.key == key then [last.modRevision] else []
  }

  lemma RingRevsAppend(events: seq<WatchEvent>, e: WatchEvent, key: string)
    ensures RingRevs(events + [e], key) == RingRevs(events, key) + if e.key == key then [e.modRevision] else []
  {
    assert (events + [e])[..|events|] == events;
  }

  lemma {:induction false} RingRevsConcat(a: seq<WatchEvent>, b: seq<WatchEvent>, key: string)
    ensures RingRevs(a + b, key) == RingRevs(a, key) + RingRevs(b, key)
  {
    if b == [] {
      assert a + b == a;
    } else {
      assert (a + b)[..|a + b| - 1] == a + b[..|b| - 1];
      RingRevsConcat(a, b[..|b| - 1], key);
    }
  }

  lemma {:induction false} RingRevsFrom(events: seq<WatchEvent>, key: string)
    ensures forall r :: r in RingRevs(events, key) ==>
              exists i :: 0 <= i < |events| && events[i].key == key && events[i].modRevision == r
  {
    if events != [] {
      var front, last := events[..|events| - 1], events[|events| - 1];
      RingRevsFrom(front, key);
      forall r | r in RingRevs(events, key)
        ensures exists i :: 0 <= i < |events| && events[i].key == key && events[i].modRevision == r
      {
        if r in RingRevs(front, key) {
          var i :| 0 <= i < |front| && front[i].key == key && front[i].modRevision == r;
          assert events[i] == front[i];
        } else {
          assert events[|events| - 1].modRevision == r;
        }
      }
    }
  }

  lemma {:induction false} RingRevsRise(events: seq<WatchEvent>, key: string)
    requires forall i, j :: 0 <= i < j < |events| ==> events[i].modRevision < events[j].modRevision
    ensures forall i, j :: 0 <= i < j < |RingRevs(events, key)| ==> RingRevs(events, key)[i] < RingRevs(events, key)[j]
  {
    if events != [] {
      var front := events[..|events| - 1];
      RingRevsRise(front, key);
      RingRevsFrom(front, key);
      forall i | 0 <= i < |RingRevs(front, key)| ensures RingRevs(front, key)[i] < events[|events| - 1].modRevision {
        assert RingRevs(front, key)[i] in RingRevs(front, key);
      }
    }
  }

  lemma {:induction false} RingRevsFiltered(events: seq<WatchEvent>, prefix: string, key: string)
    requires prefix <= key
    ensures RingRevs(E.Filtered(events, prefix), key) == RingRevs(events, key)
  {
    if events != [] {
      var front, last := events[..|events| - 1], events[|events| - 1];
      RingRevsFiltered(front, prefix, key);
      RingRevsAppend(E.Filtered(front, prefix), last, key);
      assert E.Filtered(front, prefix) + [] == E.Filtered(front, prefix);
    }
  }

  lemma {:induction false} NoRingRevs(events: seq<WatchEvent>, key: string)
    requires forall i :: 0 <= i < |events| ==> events[i].key != key
    ensures RingRevs(events, key) == []
  {
    if events != [] {
      NoRingRevs(events[..|events| - 1], key);
    }
  }

  // ---------- Invariants ----------

  ghost predicate Traced(c: Cluster) { c.etcd == E.Exec(c.trace) }

  /** The ring key was written at `r` with the state on record, a table of its own nodes. */
  ghost predicate WroteAt(u: Setup, c: Cluster, r: int) {
    && r in c.wrote && 1 <= r <= |c.etcd.log|
    && c.etcd.log[r - 1] == WatchEvent(PutEvent, RingKey(u.prefix), u.codec.encode(c.wrote[r]), r)
    && c.wrote[r].tokens == Table(u.hash, u.vnodes, c.wrote[r].nodes.Keys)
    && 1 <= c.wrote[r].version <= c.writer.version
  }

  /** The ring key is touched by the writer's puts alone, with versions rising. */
  ghost predicate WriterInv(u: Setup, c: Cluster) {
    var log := c.etcd.log;
    && (forall r :: r in c.wrote ==> WroteAt(u, c, r))
    && (forall r :: 1 <= r <= |log| && log[r - 1].key == RingKey(u.prefix) ==> r in c.wrote)
    && (forall r, q :: r in c.wrote && q in c.wrote && r < q ==> c.wrote[r].version < c.wrote[q].version)
  }

  /** The state that the first `n` entries of the log leave under the ring key. */
  ghost function StateAt(u: Setup, c: Cluster, n: nat): RingState
    requires n <= |c.etcd.log|
  {
    var revs := RingRevs(c.etcd.log[..n], RingKey(u.prefix));
    if revs != [] && revs[|revs| - 1] in c.wrote then c.wrote[revs[|revs| - 1]] else EMPTY_STATE
  }

  ghost predicate WriterCurrent(u: Setup, c: Cluster) {
    && c.writer == StateAt(u, c, |c.etcd.log|)
    && c.writer.version >= 0 && c.writer.tokens == Table(u.hash, u.vnodes, c.writer.nodes.Keys)
  }

  ghost predicate ClusterInv(u: Setup, c: Cluster) {
    Traced(c) && WriterInv(u, c) && WriterCurrent(u, c)
  }

  ghost predicate SubInv(u: Setup, etcd: E.World, m: Watcher) {
    m.bootedAt <= |etcd.log| &&
    match m.sub
    case None => m.processed == [] && m.todo == [] && m.applied == []
    case Some(id) =>
      && id in etcd.subs && etcd.subs[id].prefix == u.prefix && m.bootedAt <= etcd.subs[id].since
      && E.Events(etcd.subs[id].received) == m.processed + m.todo
  }

  /** What the watcher installed is what was written at the revisions it has looked at, each emitted once. */
  ghost predicate Applied(u: Setup, wrote: map<int, RingState>, m: Watcher, emitted: seq<RingEvent>) {
    var revs := RingRevs(m.processed, RingKey(u.prefix));
    && |m.applied| == |revs| == |emitted|
    && forall i :: 0 <= i < |revs| ==>
         revs[i] in wrote && m.applied[i] == wrote[revs[i]] && emitted[i] == ToEvent(m.applied[i])
  }

  /** The watcher shows the last state it installed, or the one it started from. */
  ghost predicate Shows(u: Setup, c: Cluster, m: Watcher)
    requires m.bootedAt <= |c.etcd.log|
  {
    m.state == if m.applied == [] then StateAt(u, c, m.bootedAt) else m.applied[|m.applied| - 1]
  }

  function Emitted(w: World): seq<RingEvent> {
    w.rebalancer.executed + w.rebalancer.events + w.watcher.pending
  }

  ghost predicate Inv(u: Setup, w: World) {
    && ClusterInv(u, w.cluster) && SubInv(u, w.cluster.etcd, w.watcher)
    && Applied(u, w.cluster.wrote, w.watcher, Emitted(w)) && Shows(u, w.cluster, w.watcher)
    && w.rebalancer.plans == PlansFor(w.rebalancer.executed)
  }

  // ---------- The cluster moves ----------

  lemma {:induction false} OpsLeaveKey(p: Progress, ops: seq<Op>, key: string)
    requires forall i :: 0 <= i < |ops| ==> !OpOn(ops[i], key)
    requires forall i :: 0 <= i < |p.events| ==> p.events[i].key != key
    ensures forall i :: 0 <= i < |ApplyOps(p, ops).events| ==> ApplyOps(p, ops).events[i].key != key
    decreases |ops|
  {
    if ops != [] && p.ok {
      OpsLeaveKey(ApplyOp(p, ops[0]), ops[1..], key);
    }
  }

  lemma CommitLeavesKey(s: ClientState, txn: Txn, key: string)
    requires !WritesKey(txn, key)
    ensures forall i :: 0 <= i < |CommitStore(s, txn).events| ==> CommitStore(s, txn).events[i].key != key
  {
    var verdict := CompareAll(s.kv, txn.compares);
    if verdict != Unsupported {
      OpsLeaveKey(Progress(s.revision, s.kv, [], true), ChosenOps(txn, verdict == Passed), key);
    }
  }

  lemma TraceOn(c: Cluster, a: E.Action)
    requires Traced(c)
    ensures Traced(EtcdStep(c, a))
  {
    assert (c.trace + [a])[..|c.trace|] == c.trace;
  }

  /** `c'` has a longer log, and remembers every write that `c` does. */
  ghost predicate Extends(c: Cluster, c': Cluster) {
    c.etcd.log <= c'.etcd.log && forall r :: r in c.wrote ==> r in c'.wrote && c'.wrote[r] == c.wrote[r]
  }

  /** Every ring write in the log is on record. */
  lemma RevsOnRecord(u: Setup, c: Cluster, n: nat)
    requires WriterInv(u, c) && E.Numbered(c.etcd.log) && n <= |c.etcd.log|
    ensures forall r :: r in RingRevs(c.etcd.log[..n], RingKey(u.prefix)) ==> r in c.wrote && r <= n
  {
    RingRevsFrom(c.etcd.log[..n], RingKey(u.prefix));
  }

  lemma StateAtStays(u: Setup, c: Cluster, c': Cluster, n: nat)
    requires WriterInv(u, c) && E.Numbered(c.etcd.log) && Extends(c, c') && n <= |c.etcd.log|
    ensures n <= |c'.etcd.log| && StateAt(u, c', n) == StateAt(u, c, n)
  {
    RevsOnRecord(u, c, n);
    assert c'.etcd.log[..n] == c.etcd.log[..n];
    var revs := RingRevs(c.etcd.log[..n], RingKey(u.prefix));
    if revs != [] {
      var r := revs[|revs| - 1];
      assert r in revs;
      assert r in c.wrote && c'.wrote[r] == c.wrote[r];
    }
  }

  /** The ring key lies still while others append to the log. */
  lemma QuietCluster(u: Setup, c: Cluster, c': Cluster)
    requires WriterInv(u, c) && WriterCurrent(u, c) && E.Numbered(c.etcd.log)
    requires c'.writer == c.writer && c'.wrote == c.wrote && c.etcd.log <= c'.etcd.log
    requires forall i :: |c.etcd.log| <= i < |c'.etcd.log| ==> c'.etcd.log[i].key != RingKey(u.prefix)
    ensures WriterInv(u, c') && WriterCurrent(u, c')
  {
    var log, log', n := c.etcd.log, c'.etcd.log, |c.etcd.log|;
    forall r | r in c.wrote ensures WroteAt(u, c', r) {
      assert WroteAt(u, c, r) && log'[r - 1] == log[r - 1];
    }
    QuietRevs(log, log', RingKey(u.prefix));
    assert log[..n] == log && log'[..|log'|] == log';
  }

  lemma QuietRevs(log: seq<WatchEvent>, log': seq<WatchEvent>, key: string)
    requires log <= log' && forall i :: |log| <= i < |log'| ==> log'[i].key != key
    ensures RingRevs(log', key) == RingRevs(log, key)
  {
    assert log' == log + log'[|log|..];
    NoRingRevs(log'[|log|..], key);
    RingRevsConcat(log, log'[|log|..], key);
  }

  lemma LogGrows(w: E.World, a: E.Action)
    ensures w.log <= E.Step(w, a).log
    ensures !a.Commit? ==> E.Step(w, a).log == w.log
    ensures a.Commit? && E.Free(w) ==> E.Step(w, a).log == w.log + CommitStore(w.client, a.txn).events
    ensures !E.Free(w) ==> E.Step(w, a).log == w.log
  {
  }

  lemma ElsewhereCluster(u: Setup, c: Cluster, e: E.Action)
    requires ClusterInv(u, c) && Allowed(u, None, e)
    ensures ClusterInv(u, EtcdStep(c, e)) && Extends(c, EtcdStep(c, e))
  {
    TraceOn(c, e);
    E.StoreIsReplay(c.trace);
    LogGrows(c.etcd, e);
    if e.Commit? { CommitLeavesKey(c.etcd.client, e.txn, RingKey(u.prefix)); }
    QuietCluster(u, c, EtcdStep(c, e));
  }

  lemma WriteCluster(u: Setup, c: Cluster, s: RingState)
    requires ClusterInv(u, c) && E.Free(c.etcd)
    requires s.tokens == Table(u.hash, u.vnodes, s.nodes.Keys) && s.version == c.writer.version + 1
    ensures ClusterInv(u, Write(u, c, s)) && Extends(c, Write(u, c, s))
  {
    var key, n, log := RingKey(u.prefix), |c.etcd.log| + 1, c.etcd.log;
    TraceOn(c, E.Commit(PutTxn(key, u.codec.encode(s))));
    E.StoreIsReplay(c.trace);
    PutStored(c.etcd.client, key, u.codec.encode(s));
    var c', evt := Write(u, c, s), WatchEvent(PutEvent, key, u.codec.encode(s), n);
    assert c'.etcd.log == log + [evt] && c'.wrote == c.wrote[n := s];
    assert forall r :: r in c.wrote ==> WroteAt(u, c, r);
    NewestWrite(u, c, c', s, evt);
  }

  lemma NewestWrite(u: Setup, c: Cluster, c': Cluster, s: RingState, evt: WatchEvent)
    requires WriterInv(u, c) && c.writer.version >= 0
    requires s.tokens == Table(u.hash, u.vnodes, s.nodes.Keys) && s.version == c.writer.version + 1
    requires evt == WatchEvent(PutEvent, RingKey(u.prefix), u.codec.encode(s), |c.etcd.log| + 1)
    requires c'.etcd.log == c.etcd.log + [evt] && c'.writer == s && c'.wrote == c.wrote[|c.etcd.log| + 1 := s]
    ensures WriterInv(u, c') && WriterCurrent(u, c') && Extends(c, c')
  {
    var log, log', n := c.etcd.log, c'.etcd.log, |c.etcd.log| + 1;
    NewestState(u, c', log, evt);
    forall r | r in c'.wrote ensures WroteAt(u, c', r) { StaysWritten(u, c, c', s, r); }
    forall r | 1 <= r <= n && log'[r - 1].key == RingKey(u.prefix) ensures r in c'.wrote {
      if r < n { assert log'[r - 1] == log[r - 1]; }
    }
    forall r | r in c.wrote ensures r < n && c.wrote[r].version < s.version { assert WroteAt(u, c, r); }
  }

  lemma NewestState(u: Setup, c: Cluster, log: seq<WatchEvent>, evt: WatchEvent)
    requires c.etcd.log == log + [evt] && evt.key == RingKey(u.prefix) && evt.modRevision in c.wrote
    ensures StateAt(u, c, |c.etcd.log|) == c.wrote[evt.modRevision]
  {
    assert c.etcd.log[..|c.etcd.log|] == c.etcd.log;
    RingRevsAppend(log, evt, RingKey(u.prefix));
  }

  lemma StaysWritten(u: Setup, c: Cluster, c': Cluster, s: RingState, r: int)
    requires (forall q :: q in c.wrote ==> WroteAt(u, c, q)) && r in c'.wrote
    requires s.tokens == Table(u.hash, u.vnodes, s.nodes.Keys) && s.version == c.writer.version + 1 >= 1
    requires var n := |c.etcd.log| + 1;
             && c'.etcd.log == c.etcd.log + [WatchEvent(PutEvent, RingKey(u.prefix), u.codec.encode(s), n)]
             && c'.writer == s && c'.wrote == c.wrote[n := s]
    ensures WroteAt(u, c', r)
  {
    if r != |c.etcd.log| + 1 { assert WroteAt(u, c, r) && c'.etcd.log[r - 1] == c.etcd.log[r - 1]; }
  }

  /** Subscriptions keep their prefix and window, and only a receive changes what one has received. */
  lemma SubKept(w: E.World, a: E.Action, id: nat)
    requires id in w.subs && E.Lifecycle(w) && a != E.Receive(id)
    ensures var w' := E.Step(w, a);
            && id in w'.subs && w'.subs[id].prefix == w.subs[id].prefix && w'.subs[id].since == w.subs[id].since
            && w'.subs[id].received == w.subs[id].received
  {
  }

  lemma SubStays(u: Setup, c: Cluster, a: E.Action, m: Watcher)
    requires Traced(c) && SubInv(u, c.etcd, m) && (a.Receive? ==> m.sub != Some(a.id))
    ensures SubInv(u, E.Step(c.etcd, a), m)
  {
    E.RunsKeep(c.trace);
    LogGrows(c.etcd, a);
    if m.sub.Some? { SubKept(c.etcd, a, m.sub.value); }
  }

  /** The watcher and the rebalancer do not notice. */
  lemma ClusterMoves(u: Setup, w: World, c': Cluster)
    requires Inv(u, w) && ClusterInv(u, c') && Extends(w.cluster, c') && SubInv(u, c'.etcd, w.watcher)
    ensures Inv(u, w.(cluster := c'))
  {
    E.StoreIsReplay(w.cluster.trace);
    CarriesOver(u, w.cluster, c', w.watcher, w.watcher, Emitted(w));
    assert Emitted(w.(cluster := c')) == Emitted(w);
  }

  lemma CarriesOver(u: Setup, c: Cluster, c': Cluster, m: Watcher, m': Watcher, emitted: seq<RingEvent>)
    requires WriterInv(u, c) && E.Numbered(c.etcd.log) && Extends(c, c')
    requires m.bootedAt <= |c.etcd.log| && m' == m.(todo := m'.todo)
    requires Applied(u, c.wrote, m, emitted) && Shows(u, c, m)
    ensures Applied(u, c'.wrote, m', emitted) && m'.bootedAt <= |c'.etcd.log| && Shows(u, c', m')
  {
    StateAtStays(u, c, c', m.bootedAt);
    AppliedStays(u, c, c', m, emitted);
  }

  lemma AppliedStays(u: Setup, c: Cluster, c': Cluster, m: Watcher, emitted: seq<RingEvent>)
    requires Applied(u, c.wrote, m, emitted) && Extends(c, c')
    ensures Applied(u, c'.wrote, m, emitted)
  {
    var revs := RingRevs(m.processed, RingKey(u.prefix));
    forall i | 0 <= i < |revs| ensures revs[i] in c'.wrote && m.applied[i] == c'.wrote[revs[i]] {
      var r := revs[i];
      assert r in c.wrote;
    }
  }

  lemma ElsewhereKeeps(u: Setup, w: World, e: E.Action)
    requires Inv(u, w) && Allowed(u, w.watcher.sub, e)
    ensures Inv(u, w.(cluster := EtcdStep(w.cluster, e)))
  {
    ElsewhereCluster(u, w.cluster, e);
    SubStays(u, w.cluster, e, w.watcher);
    ClusterMoves(u, w, EtcdStep(w.cluster, e));
  }

  lemma WriteKeeps(u: Setup, w: World, s: RingState)
    requires Inv(u, w) && E.Free(w.cluster.etcd)
    requires s.tokens == Table(u.hash, u.vnodes, s.nodes.Keys) && s.version == w.cluster.writer.version + 1
    ensures Inv(u, w.(cluster := Write(u, w.cluster, s)))
  {
    WriteCluster(u, w.cluster, s);
    SubStays(u, w.cluster, E.Commit(PutTxn(RingKey(u.prefix), u.codec.encode(s))), w.watcher);
    ClusterMoves(u, w, Write(u, w.cluster, s));
  }

  // ---------- The watcher starts ----------

  lemma {:induction false} ReplayHoldsLast(log: seq<WatchEvent>, key: string)
    requires E.Numbered(log) && forall i :: 0 <= i < |log| && log[i].key == key ==> log[i].typ == PutEvent
    ensures var revs, kv := RingRevs(log, key), E.Replay(log);
            if revs == [] then key !in kv
            else
              var r := revs[|revs| - 1];
              1 <= r <= |log| && key in kv && kv[key] == KvPair(log[r - 1].value, r)
  {
    if log != [] {
      ReplayHoldsLast(log[..|log| - 1], key);
    }
  }

  /** The ring key holds the writer's state, or nothing before the first write. */
  lemma StoredIsWriter(u: Setup, c: Cluster)
    requires ClusterInv(u, c)
    ensures match Stored(c.etcd.client, RingKey(u.prefix))
            case None => c.writer == EMPTY_STATE
            case Some(pair) => pair.value == u.codec.encode(c.writer)
  {
    E.StoreIsReplay(c.trace);
    assert c.etcd.log[..|c.etcd.log|] == c.etcd.log;
    OnlyPuts(u, c);
    ReplayHoldsLast(c.etcd.log, RingKey(u.prefix));
    LastRevWrote(u, c);
  }

  lemma OnlyPuts(u: Setup, c: Cluster)
    requires WriterInv(u, c)
    ensures forall i :: 0 <= i < |c.etcd.log| && c.etcd.log[i].key == RingKey(u.prefix) ==>
              c.etcd.log[i].typ == PutEvent
  {
    forall i | 0 <= i < |c.etcd.log| && c.etcd.log[i].key == RingKey(u.prefix) ensures c.etcd.log[i].typ == PutEvent {
      assert WroteAt(u, c, i + 1);
    }
  }

  lemma LastRevWrote(u: Setup, c: Cluster)
    requires WriterInv(u, c) && E.Numbered(c.etcd.log)
    ensures var revs := RingRevs(c.etcd.log, RingKey(u.prefix));
            revs != [] ==> WroteAt(u, c, revs[|revs| - 1])
  {
    var revs := RingRevs(c.etcd.log, RingKey(u.prefix));
    assert c.etcd.log[..|c.etcd.log|] == c.etcd.log;
    RevsOnRecord(u, c, |c.etcd.log|);
    if revs != [] { assert revs[|revs| - 1] in revs; }
  }

  /** So that is what a bootstrap loads. */
  lemma BootLoadsWriter(u: Setup, c: Cluster)
    requires ClusterInv(u, c) && RoundTrips(u.codec)
    ensures var boot := Booted(u.hash, u.vnodes, u.codec, Stored(c.etcd.client, RingKey(u.prefix)));
            boot.Some? && boot.value.0 == c.writer
  {
    StoredIsWriter(u, c);
    EmptyTable(u.hash, u.vnodes);
    assert u.codec.decode(u.codec.encode(c.writer)) == Some(c.writer);
  }

  lemma BootKeeps(u: Setup, w: World)
    requires Inv(u, w) && RoundTrips(u.codec)
    ensures Inv(u, Step(u, w, BootWatcher))
  {
    BootLoadsWriter(u, w.cluster);
    if w.watcher.sub.None? { Booting(u, w); }
  }

  lemma Booting(u: Setup, w: World)
    requires Inv(u, w) && w.watcher.sub.None?
    ensures Inv(u, w.(watcher := w.watcher.(state := w.cluster.writer, bootedAt := |w.cluster.etcd.log|)))
  {
    var w' := w.(watcher := w.watcher.(state := w.cluster.writer, bootedAt := |w.cluster.etcd.log|));
    assert Emitted(w') == Emitted(w);
  }

  lemma SubscribeKeeps(u: Setup, w: World)
    requires Inv(u, w) && w.watcher.sub.None? && E.Free(w.cluster.etcd)
    ensures Inv(u, w.(cluster := EtcdStep(w.cluster, E.Watch(u.prefix)),
                      watcher := w.watcher.(sub := Some(w.cluster.etcd.client.nextID + 1))))
  {
    NewSubscription(w.cluster.etcd, u.prefix);
    ElsewhereKeeps(u, w, E.Watch(u.prefix));
    Subscribed(u, w.(cluster := EtcdStep(w.cluster, E.Watch(u.prefix))), w.cluster.etcd.client.nextID + 1);
  }

  lemma NewSubscription(w: E.World, prefix: string)
    requires E.Free(w)
    ensures var w', id := E.Step(w, E.Watch(prefix)), w.client.nextID + 1;
            && w'.log == w.log && id in w'.subs && w'.subs[id].prefix == prefix && w'.subs[id].since == |w.log|
            && w'.subs[id].received == []
  {
  }

  lemma Subscribed(u: Setup, w: World, id: nat)
    requires Inv(u, w) && w.watcher.sub.None? && id in w.cluster.etcd.subs
    requires var sub := w.cluster.etcd.subs[id];
             sub.prefix == u.prefix && sub.since == |w.cluster.etcd.log| && sub.received == []
    ensures Inv(u, w.(watcher := w.watcher.(sub := Some(id))))
  {
    assert Emitted(w.(watcher := w.watcher.(sub := Some(id)))) == Emitted(w);
  }

  // ---------- The watcher works ----------

  lemma TakeKeeps(u: Setup, w: World)
    requires Inv(u, w) && CanTake(w.cluster.etcd, w.watcher)
    ensures Inv(u, w.(cluster := EtcdStep(w.cluster, E.Receive(w.watcher.sub.value)),
                      watcher := Taken(w.cluster.etcd, w.watcher)))
  {
    var c, m := w.cluster, w.watcher;
    var c', m' := EtcdStep(c, E.Receive(m.sub.value)), Taken(c.etcd, m);
    ElsewhereCluster(u, c, E.Receive(m.sub.value));
    TakenSub(u, c.etcd, m);
    E.StoreIsReplay(c.trace);
    CarriesOver(u, c, c', m, m', Emitted(w));
    assert Emitted(w.(cluster := c', watcher := m')) == Emitted(w);
  }

  lemma TakenSub(u: Setup, etcd: E.World, m: Watcher)
    requires SubInv(u, etcd, m) && CanTake(etcd, m)
    ensures SubInv(u, E.Step(etcd, E.Receive(m.sub.value)), Taken(etcd, m))
  {
    var id := m.sub.value;
    var queue, received := etcd.client.chans[id].queue, etcd.subs[id].received;
    assert (received + [queue[0]])[..|received|] == received;
    assert m.processed + m.todo == m.processed;
  }

  lemma {:induction false} EventsConcat(a: seq<WatchResponse>, b: seq<WatchResponse>)
    ensures E.Events(a + b) == E.Events(a) + E.Events(b)
  {
    if b == [] {
      assert a + b == a;
    } else {
      assert (a + b)[..|a + b| - 1] == a + b[..|b| - 1];
      EventsConcat(a, b[..|b| - 1]);
    }
  }

  /** Entries of the log past `since`, each once, in its order. */
  ghost predicate FromLog(taken: seq<WatchEvent>, log: seq<WatchEvent>, since: nat) {
    && (forall i, j :: 0 <= i < j < |taken| ==> taken[i].modRevision < taken[j].modRevision)
    && (forall i :: 0 <= i < |taken| ==>
          since < taken[i].modRevision <= |log| && log[taken[i].modRevision - 1] == taken[i])
  }

  lemma PicksFront(taken: seq<WatchEvent>, rest: seq<WatchEvent>, log: seq<WatchEvent>, prefix: string, since: nat,
                   upTo: nat)
    requires E.Picks(taken + rest, log, prefix, since, upTo)
    ensures FromLog(taken, log, since)
  {
    assert forall i :: 0 <= i < |taken| ==> taken[i] == (taken + rest)[i];
  }

  lemma ReceivedFromLog(w: E.World, id: nat)
    requires E.ReportsAt(w, id) && E.Numbered(w.log)
    ensures FromLog(E.Events(w.subs[id].received), w.log, w.subs[id].since)
  {
    var sub, chan := w.subs[id], w.client.chans[id];
    E.ReportFacts(sub, chan, w.log);
    EventsConcat(sub.received, chan.queue);
    PicksFront(E.Events(sub.received), E.Events(chan.queue), w.log, sub.prefix, sub.since, sub.upTo);
  }

  lemma TakenFromLog(u: Setup, c: Cluster, m: Watcher)
    requires Traced(c) && SubInv(u, c.etcd, m) && m.sub.Some?
    ensures m.sub.value in c.etcd.subs && FromLog(m.processed + m.todo, c.etcd.log, c.etcd.subs[m.sub.value].since)
  {
    E.RunsKeep(c.trace);
    E.StoreIsReplay(c.trace);
    assert E.ReportsAt(c.etcd, m.sub.value);
    ReceivedFromLog(c.etcd, m.sub.value);
  }

  /** An event on the ring key is a put of the writer's, and it decodes to the state on record. */
  lemma EventIsWritten(u: Setup, c: Cluster, evt: WatchEvent)
    requires WriterInv(u, c) && RoundTrips(u.codec) && evt.key == RingKey(u.prefix)
    requires 1 <= evt.modRevision <= |c.etcd.log| && c.etcd.log[evt.modRevision - 1] == evt
    ensures var r := evt.modRevision;
            && r in c.wrote && evt.typ == PutEvent && u.codec.decode(evt.value) == Some(c.wrote[r])
            && Rebuilt(u.hash, u.vnodes, c.wrote[r]) == c.wrote[r]
  {
    var r := evt.modRevision;
    assert r in c.wrote && WroteAt(u, c, r);
    assert u.codec.decode(u.codec.encode(c.wrote[r])) == Some(c.wrote[r]);
  }

  lemma ProcessSub(u: Setup, etcd: E.World, m: Watcher)
    requires SubInv(u, etcd, m) && m.todo != []
    ensures SubInv(u, etcd, StepProcess(u, m))
  {
    var evt := m.todo[0];
    assert m.processed + [evt] + m.todo[1..] == m.processed + m.todo;
  }

  lemma ProcessKeeps(u: Setup, w: World)
    requires Inv(u, w) && RoundTrips(u.codec) && w.watcher.todo != [] && w.watcher.pending == []
    ensures Inv(u, w.(watcher := StepProcess(u, w.watcher)))
  {
    var m, evt := w.watcher, w.watcher.todo[0];
    TakenFromLog(u, w.cluster, m);
    assert (m.processed + m.todo)[|m.processed|] == evt;
    ProcessSub(u, w.cluster.etcd, m);
    if evt.key == RingKey(u.prefix) {
      EventIsWritten(u, w.cluster, evt);
      InstallKeeps(u, w, evt);
    } else {
      SkipKeeps(u, w, evt);
    }
  }

  lemma SkipKeeps(u: Setup, w: World, evt: WatchEvent)
    requires w.watcher.todo != [] && evt == w.watcher.todo[0] && evt.key != RingKey(u.prefix)
    requires Applied(u, w.cluster.wrote, w.watcher, Emitted(w))
    ensures var m' := w.watcher.(todo := w.watcher.todo[1..], processed := w.watcher.processed + [evt]);
            StepProcess(u, w.watcher) == m' && Applied(u, w.cluster.wrote, m', Emitted(w.(watcher := m')))
  {
    RingRevsAppend(w.watcher.processed, evt, RingKey(u.prefix));
    assert Emitted(w.(watcher := StepProcess(u, w.watcher))) == Emitted(w);
  }

  lemma InstallKeeps(u: Setup, w: World, evt: WatchEvent)
    requires var m, r := w.watcher, evt.modRevision;
             && Applied(u, w.cluster.wrote, m, Emitted(w)) && m.pending == [] && m.todo != [] && evt == m.todo[0]
             && r in w.cluster.wrote && Rebuilt(u.hash, u.vnodes, w.cluster.wrote[r]) == w.cluster.wrote[r]
             && evt.key == RingKey(u.prefix)
    ensures var m := w.watcher.(todo := w.watcher.todo[1..], processed := w.watcher.processed + [evt]);
            var m' := Install(u, m, w.cluster.wrote[evt.modRevision]);
            Applied(u, w.cluster.wrote, m', Emitted(w.(watcher := m'))) && m'.state == m'.applied[|m'.applied| - 1]
  {
    var s := w.cluster.wrote[evt.modRevision];
    var handed := w.rebalancer.executed + w.rebalancer.events;
    RingRevsAppend(w.watcher.processed, evt, RingKey(u.prefix));
    assert Emitted(w) == handed && handed + [ToEvent(s)] == Emitted(w) + [ToEvent(s)];
  }

  // ---------- Events are handed on ----------

  /** Handing events on keeps their total order. */
  lemma HandedOn(u: Setup, w: World, w': World)
    requires Inv(u, w) && w'.cluster == w.cluster && Emitted(w') == Emitted(w)
    requires w'.watcher == w.watcher.(pending := w'.watcher.pending, on := w'.watcher.on)
    requires w'.rebalancer.plans == PlansFor(w'.rebalancer.executed)
    ensures Inv(u, w')
  {
  }

  lemma SendKeeps(u: Setup, w: World)
    requires Inv(u, w) && w.watcher.pending != []
    ensures Inv(u, Sent(w))
  {
    MovePending(w.watcher.pending, w.rebalancer.executed, w.rebalancer.events);
    HandedOn(u, w, Sent(w));
  }

  lemma ExecuteKeeps(u: Setup, w: World, ok: bool)
    requires Inv(u, w) && w.rebalancer.events != []
    ensures Inv(u, w.(rebalancer := StepExecute(w.rebalancer, ok)))
  {
    ExecuteOne(w.rebalancer, ok);
    HandedOn(u, w, w.(rebalancer := StepExecute(w.rebalancer, ok)));
  }

  lemma {:induction false} StopKeeps(u: Setup, w: World)
    requires Inv(u, w)
    ensures Inv(u, w.(watcher := w.watcher.(on := false))) && Inv(u, w.(rebalancer := w.rebalancer.(on := false)))
  {
    HandedOn(u, w, w.(watcher := w.watcher.(on := false)));
    HandedOn(u, w, w.(rebalancer := w.rebalancer.(on := false)));
  }

  lemma {:induction false} MovePending(pending: seq<RingEvent>, executed: seq<RingEvent>, events: seq<RingEvent>)
    requires pending != []
    ensures executed + (events + [pending[0]]) + pending[1..] == executed + events + pending
  {
    assert pending == [pending[0]] + pending[1..];
  }

  lemma {:induction false} ExecuteOne(b: Rebalancer, ok: bool)
    requires b.events != [] && b.plans == PlansFor(b.executed)
    ensures var b' := StepExecute(b, ok);
            b'.executed + b'.events == b.executed + b.events && b'.plans == PlansFor(b'.executed)
  {
  }

  lemma {:induction false} ClusterStepKeeps(u: Setup, w: World, a: Action)
    requires Inv(u, w) && (a.Upsert? || a.Remove? || a.Elsewhere?)
    ensures Inv(u, Step(u, w, a))
  {
    match a
    case Upsert(node) =>
      if node.id != "" && E.Free(w.cluster.etcd) {
        WriteKeeps(u, w, Upserted(u.hash, u.vnodes, w.cluster.writer, node));
      }
    case Remove(id) =>
      if id in w.cluster.writer.nodes && E.Free(w.cluster.etcd) {
        WriteKeeps(u, w, Removed(u.hash, u.vnodes, w.cluster.writer, id));
      }
    case Elsewhere(e) => if Allowed(u, w.watcher.sub, e) { ElsewhereKeeps(u, w, e); }
  }

  /** What the steps of the watcher and of the rebalancer come to. */
  lemma {:induction false} SmallSteps(u: Setup, w: World, a: Action)
    requires !a.Upsert? && !a.Remove? && !a.Elsewhere? && !a.BootWatcher?
    ensures var c, m, b, w' := w.cluster, w.watcher, w.rebalancer, Step(u, w, a);
            w' == w || match a
              case Subscribe =>
                && m.sub.None? && E.Free(c.etcd)
                && w' == w.(cluster := EtcdStep(c, E.Watch(u.prefix)),
                            watcher := m.(sub := Some(c.etcd.client.nextID + 1)))
              case Take =>
                && CanTake(c.etcd, m)
                && w' == w.(cluster := EtcdStep(c, E.Receive(m.sub.value)), watcher := Taken(c.etcd, m))
              case Process => m.todo != [] && m.pending == [] && w' == w.(watcher := StepProcess(u, m))
              case Send => m.pending != [] && w' == Sent(w)
              case Execute(ok) => b.events != [] && w' == w.(rebalancer := StepExecute(b, ok))
              case StopWatcher => w' == w.(watcher := m.(on := false))
              case StopRebalancer => w' == w.(rebalancer := b.(on := false))
              case _ => false
  {
  }

  lemma {:induction false} SmallStepKeeps(u: Setup, w: World, a: Action)
    requires Inv(u, w) && RoundTrips(u.codec)
    requires !a.Upsert? && !a.Remove? && !a.Elsewhere? && !a.BootWatcher?
    ensures Inv(u, Step(u, w, a))
  {
    SmallSteps(u, w, a);
    if Step(u, w, a) != w {
      match a
      case Subscribe => SubscribeKeeps(u, w);
      case Take => TakeKeeps(u, w);
      case Process => ProcessKeeps(u, w);
      case Send => SendKeeps(u, w);
      case Execute(ok) => ExecuteKeeps(u, w, ok);
      case StopWatcher => StopKeeps(u, w);
      case StopRebalancer => StopKeeps(u, w);
    }
  }

  lemma {:induction false} StepKeeps(u: Setup, w: World, a: Action)
    requires Inv(u, w) && RoundTrips(u.codec)
    ensures Inv(u, Step(u, w, a))
  {
    if a.Upsert? || a.Remove? || a.Elsewhere? {
      ClusterStepKeeps(u, w, a);
    } else if a.BootWatcher? {
      BootKeeps(u, w);
    } else {
      SmallStepKeeps(u, w, a);
    }
  }

  lemma {:induction false} PipelineInv(u: Setup, actions: seq<Action>)
    requires RoundTrips(u.codec)
    ensures Inv(u, Exec(u, actions))
  {
    if actions == [] {
      EmptyTable(u.hash, u.vnodes);
    } else {
      PipelineInv(u, actions[..|actions| - 1]);
      StepKeeps(u, Exec(u, actions[..|actions| - 1]), actions[|actions| - 1]);
    }
  }

  // ---------- The pipeline's promise ----------

  /** `r` is the etcd revision at which the writer persisted the state that plan `p` carries. */
  ghost predicate PlanOf(u: Setup, c: Cluster, p: Plan, r: int) {
    WroteAt(u, c, r) && p.ringVersion == c.wrote[r].version && p.assignments == VirtualNodes(c.wrote[r].tokens)
  }

  ghost predicate FromWriter(u: Setup, c: Cluster, p: Plan) {
    exists r :: PlanOf(u, c, p, r)
  }

  lemma {:induction false} PlanFromWriter(u: Setup, w: World, i: nat)
    requires Inv(u, w) && i < |w.rebalancer.plans|
    ensures var p := w.rebalancer.plans[i];
            FromWriter(u, w.cluster, p) && i < |w.watcher.applied| && p == PlanFor(ToEvent(w.watcher.applied[i]))
  {
    var p, r := w.rebalancer.plans[i], RingRevs(w.watcher.processed, RingKey(u.prefix))[i];
    assert Emitted(w)[i] == w.rebalancer.executed[i];
    assert p == PlanFor(w.rebalancer.executed[i]);
    assert PlanOf(u, w.cluster, p, r);
  }

  lemma {:induction false} AppliedRise(u: Setup, w: World, i: nat, j: nat)
    requires Inv(u, w) && i < j < |w.watcher.applied|
    ensures w.watcher.applied[i].version < w.watcher.applied[j].version
  {
    var m := w.watcher;
    TakenFromLog(u, w.cluster, m);
    assert forall k :: 0 <= k < |m.processed| ==> m.processed[k] == (m.processed + m.todo)[k];
    RingRevsRise(m.processed, RingKey(u.prefix));
  }

  lemma {:induction false} EmittedVersions(u: Setup, w: World, i: nat)
    requires Inv(u, w) && i < |Emitted(w)|
    ensures Emitted(w)[i].version <= w.watcher.state.version
  {
    assert Emitted(w)[i] == ToEvent(w.watcher.applied[i]);
    if i < |w.watcher.applied| - 1 { AppliedRise(u, w, i, |w.watcher.applied| - 1); }
  }

  /** The watcher always shows a state the writer has had, with the table of its nodes. */
  lemma {:induction false} WatcherShowsTable(u: Setup, w: World)
    requires Inv(u, w)
    ensures w.watcher.state.tokens == Table(u.hash, u.vnodes, w.watcher.state.nodes.Keys)
  {
    var m, c := w.watcher, w.cluster;
    if m.applied != [] {
      var revs := RingRevs(m.processed, RingKey(u.prefix));
      assert WroteAt(u, c, revs[|revs| - 1]);
    } else {
      StateAtShowsTable(u, c, m.bootedAt);
    }
  }

  lemma {:induction false} StateAtShowsTable(u: Setup, c: Cluster, n: nat)
    requires WriterInv(u, c) && n <= |c.etcd.log|
    ensures var s := StateAt(u, c, n); s.tokens == Table(u.hash, u.vnodes, s.nodes.Keys)
  {
    EmptyTable(u.hash, u.vnodes);
    var revs := RingRevs(c.etcd.log[..n], RingKey(u.prefix));
    if revs != [] && revs[|revs| - 1] in c.wrote { assert WroteAt(u, c, revs[|revs| - 1]); }
  }

  /** An entry of a plan: one of the owner's virtual nodes, by label, owner and the hash of its rank. */
  ghost predicate EntryOf(u: Setup, nodes: map<string, NodeDescriptor>, v: VirtualNode) {
    && v.ownerNodeId in nodes
    && exists rank: nat :: IsEntry(u.hash, u.vnodes, Assignment(v.id, v.token, v.ownerNodeId), v.ownerNodeId, rank)
  }

  ghost predicate HasEntry(u: Setup, p: Plan, node: string, rank: nat) {
    exists k ::
      && 0 <= k < |p.assignments|
      && var v := p.assignments[k]; IsEntry(u.hash, u.vnodes, Assignment(v.id, v.token, v.ownerNodeId), node, rank)
  }

  /**
   The plan spells out a state the writer persisted: its version, one entry for every virtual node of every member, and
   no entry besides.
   */
  ghost predicate CarriesState(u: Setup, c: Cluster, p: Plan, r: int) {
    && r in c.wrote && p.ringVersion == c.wrote[r].version
    && (forall k :: 0 <= k < |p.assignments| ==> EntryOf(u, c.wrote[r].nodes, p.assignments[k]))
    && (forall node, rank: nat :: node in c.wrote[r].nodes && rank < u.vnodes ==> HasEntry(u, p, node, rank))
  }

  ghost predicate Carries(u: Setup, c: Cluster, p: Plan) {
    exists r :: CarriesState(u, c, p, r)
  }

  lemma {:induction false} PlanCarries(u: Setup, c: Cluster, p: Plan)
    requires FromWriter(u, c, p)
    ensures Carries(u, c, p)
  {
    var r :| PlanOf(u, c, p, r);
    var s := c.wrote[r];
    TableMeans(u.hash, u.vnodes, s.nodes.Keys);
    forall k | 0 <= k < |p.assignments| ensures EntryOf(u, s.nodes, p.assignments[k]) {
      assert p.assignments[k] == VirtualNode(s.tokens[k].id, s.tokens[k].token, s.tokens[k].nodeId);
      assert Ranks(u.hash, u.vnodes, s.tokens[k]);
    }
    forall node, rank: nat | node in s.nodes && rank < u.vnodes ensures HasEntry(u, p, node, rank) {
      assert Listed(u.hash, u.vnodes, s.tokens, node, rank);
      var k :| 0 <= k < |s.tokens| && IsEntry(u.hash, u.vnodes, s.tokens[k], node, rank);
      assert p.assignments[k] == VirtualNode(s.tokens[k].id, s.tokens[k].token, s.tokens[k].nodeId);
    }
    assert CarriesState(u, c, p, r);
  }

  /**
   Executed plans have strictly rising ring versions; each carries the assignment the writer persisted at that version,
   which is also what the watcher recomputes; and the watcher's version is at least that of every event emitted.
   */
  lemma {:induction false} PlansFollowTheWriter(u: Setup, actions: seq<Action>)
    requires RoundTrips(u.codec)
    ensures var w := Exec(u, actions);
            var plans, state := w.rebalancer.plans, w.watcher.state;
            && (forall i, j :: 0 <= i < j < |plans| ==> plans[i].ringVersion < plans[j].ringVersion)
            && (forall i :: 0 <= i < |plans| ==> FromWriter(u, w.cluster, plans[i]))
            && (forall i :: 0 <= i < |plans| ==> Carries(u, w.cluster, plans[i]))
            && (forall i :: 0 <= i < |Emitted(w)| ==> Emitted(w)[i].version <= state.version)
            && state.tokens == Table(u.hash, u.vnodes, state.nodes.Keys)
  {
    PipelineInv(u, actions);
    var w := Exec(u, actions);
    var plans := w.rebalancer.plans;
    forall i, j | 0 <= i < j < |plans| ensures plans[i].ringVersion < plans[j].ringVersion {
      PlanFromWriter(u, w, i);
      PlanFromWriter(u, w, j);
      AppliedRise(u, w, i, j);
    }
    forall i | 0 <= i < |plans| ensures FromWriter(u, w.cluster, plans[i]) && Carries(u, w.cluster, plans[i]) {
      PlanFromWriter(u, w, i);
      PlanCarries(u, w.cluster, plans[i]);
    }
    forall i | 0 <= i < |Emitted(w)| ensures Emitted(w)[i].version <= w.watcher.state.version {
      EmittedVersions(u, w, i);
    }
    WatcherShowsTable(u, w);
  }

  /** The channel before the rebalancer holds up to eight events, and the watcher waits while it is full. */
  lemma {:induction false} EventsFit(u: Setup, actions: seq<Action>)
    ensures var w := Exec(u, actions);
            && |w.rebalancer.events| <= 8
            && (Step(u, w, Send) != w <==> w.watcher.on && w.watcher.pending != [] && |w.rebalancer.events| < 8)
  {
    if actions != [] {
      EventsFit(u, actions[..|actions| - 1]);
    }
    var w := Exec(u, actions);
    if w.watcher.pending != [] { assert |Sent(w).watcher.pending| < |w.watcher.pending|; }
  }

  // ---------- What the writer knows of its nodes ----------

  /** The report of a node, or its removal. */
  predicate About(a: Action, id: string) {
    (a.Upsert? && a.node.id == id) || (a.Remove? && a.id == id)
  }

  /** It is carried out: the lock is free, the ID is not empty, and a removed node is registered. */
  predicate Lands(w: World, a: Action) {
    && E.Free(w.cluster.etcd)
    && ((a.Upsert? && a.node.id != "") || (a.Remove? && a.id != "" && a.id in w.cluster.writer.nodes))
  }

  /** Of the first `n` actions, the last one about the node to be carried out is at `i`. */
  ghost predicate LastReport(u: Setup, actions: seq<Action>, n: nat, id: string, i: int) {
    && 0 <= i < n <= |actions| && About(actions[i], id) && Lands(Exec(u, actions[..i]), actions[i])
    && forall j :: i < j < n && About(actions[j], id) ==> !Lands(Exec(u, actions[..j]), actions[j])
  }

  lemma {:induction false} StepNodes(u: Setup, w: World, a: Action, id: string)
    ensures var nodes, nodes' := w.cluster.writer.nodes, Step(u, w, a).cluster.writer.nodes;
            if About(a, id) && Lands(w, a) then
              if a.Upsert? then id in nodes' && nodes'[id] == a.node else id !in nodes'
            else (id in nodes' <==> id in nodes) && (id in nodes ==> nodes'[id] == nodes[id])
  {
  }

  lemma {:induction false} ReportMore(u: Setup, actions: seq<Action>, n: nat, id: string, i: int)
    requires n < |actions|
    ensures LastReport(u, actions, n + 1, id, i) <==>
            if About(actions[n], id) && Lands(Exec(u, actions[..n]), actions[n]) then i == n
            else LastReport(u, actions, n, id, i)
  {
  }

  lemma {:induction false} NodesAt(u: Setup, actions: seq<Action>, n: nat, id: string)
    requires n <= |actions|
    ensures var nodes := Exec(u, actions[..n]).cluster.writer.nodes;
            if id in nodes then exists i :: LastReport(u, actions, n, id, i) && actions[i] == Upsert(nodes[id])
            else forall i :: LastReport(u, actions, n, id, i) ==> actions[i].Remove?
  {
    if n > 0 {
      var m, w, a := n - 1, Exec(u, actions[..n - 1]), actions[n - 1];
      NodesAt(u, actions, m, id);
      assert actions[..n][..m] == actions[..m];
      StepNodes(u, w, a, id);
      forall i
        ensures LastReport(u, actions, n, id, i) <==>
                if About(a, id) && Lands(w, a) then i == m else LastReport(u, actions, m, id, i)
      {
        ReportMore(u, actions, m, id, i);
      }
      if About(a, id) && Lands(w, a) { assert LastReport(u, actions, n, id, m); }
    }
  }

  /**
   After any run the writer's descriptor of a node is that of the node's last report to be carried out, and the node is
   unknown iff there is none or its removal was carried out since.
   */
  lemma {:induction false} WriterHoldsLastReport(u: Setup, actions: seq<Action>, id: string)
    ensures var nodes, n := Exec(u, actions).cluster.writer.nodes, |actions|;
            && (forall i :: LastReport(u, actions, n, id, i) && actions[i].Upsert? ==>
                  id in nodes && nodes[id] == actions[i].node)
            && (forall i :: LastReport(u, actions, n, id, i) && actions[i].Remove? ==> id !in nodes)
            && (id in nodes ==> exists i :: LastReport(u, actions, n, id, i) && actions[i] == Upsert(nodes[id]))
  {
    assert actions[..|actions|] == actions;
    NodesAt(u, actions, |actions|, id);
    forall i, j | LastReport(u, actions, |actions|, id, i) && LastReport(u, actions, |actions|, id, j) ensures i == j {}
  }
}

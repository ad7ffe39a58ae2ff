/**
 When the watching manager of the pipeline shows the writer's state: at any point of any run, and once it has looked at
 all it was sent; and the two ways in which it stays behind.
 */
module WatcherCurrency {
  import opened Prelude
  import opened Etcdsim
  import E = EtcdRuns
  import opened RingManager
  import opened Rebalance
  import opened WatchPipeline

  // ---------- When the watcher is current ----------

  /** The watcher shows the writer's state. */
  predicate Current(w: World) { w.watcher.state == w.cluster.writer }

  /** The revisions of the ring writes between two points of the log. */
  function Writes(u: Setup, c: Cluster, from: nat, to: nat): seq<int>
    requires from <= to <= |c.etcd.log|
  {
    RingRevs(c.etcd.log[from..to], RingKey(u.prefix))
  }

  lemma WritesSplit(u: Setup, c: Cluster, a: nat, b: nat, d: nat)
    requires a <= b <= d <= |c.etcd.log|
    ensures Writes(u, c, a, d) == Writes(u, c, a, b) + Writes(u, c, b, d)
  {
    assert c.etcd.log[a..d] == c.etcd.log[a..b] + c.etcd.log[b..d];
    RingRevsConcat(c.etcd.log[a..b], c.etcd.log[b..d], RingKey(u.prefix));
  }

  /** The state at a point of the log changes exactly with a ring write, and never comes back. */
  lemma StateMovesIff(u: Setup, c: Cluster, a: nat, b: nat)
    requires WriterInv(u, c) && E.Numbered(c.etcd.log) && a <= b <= |c.etcd.log|
    ensures StateAt(u, c, a) == StateAt(u, c, b) <==> Writes(u, c, a, b) == []
    ensures Writes(u, c, a, b) != [] ==>
              var revs := Writes(u, c, a, b);
              revs[|revs| - 1] in c.wrote && StateAt(u, c, b) == c.wrote[revs[|revs| - 1]]
  {
    var between := Writes(u, c, a, b);
    if between == [] {
      StateStays(u, c, a, b);
    } else {
      LastWrite(u, c, a, b);
      StateMoves(u, c, a, b);
      OlderState(u, c, a, between[|between| - 1]);
    }
  }

  lemma WritesUpTo(u: Setup, c: Cluster, a: nat, b: nat)
    requires a <= b <= |c.etcd.log|
    ensures RingRevs(c.etcd.log[..b], RingKey(u.prefix)) ==
            RingRevs(c.etcd.log[..a], RingKey(u.prefix)) + Writes(u, c, a, b)
  {
    WritesSplit(u, c, 0, a, b);
    assert c.etcd.log[0..a] == c.etcd.log[..a] && c.etcd.log[0..b] == c.etcd.log[..b];
  }

  lemma StateStays(u: Setup, c: Cluster, a: nat, b: nat)
    requires a <= b <= |c.etcd.log| && Writes(u, c, a, b) == []
    ensures StateAt(u, c, a) == StateAt(u, c, b)
  {
    WritesUpTo(u, c, a, b);
  }

  lemma StateMoves(u: Setup, c: Cluster, a: nat, b: nat)
    requires a <= b <= |c.etcd.log| && Writes(u, c, a, b) != []
    requires Writes(u, c, a, b)[|Writes(u, c, a, b)| - 1] in c.wrote
    ensures StateAt(u, c, b) == c.wrote[Writes(u, c, a, b)[|Writes(u, c, a, b)| - 1]]
  {
    WritesUpTo(u, c, a, b);
  }

  lemma LastWrite(u: Setup, c: Cluster, a: nat, b: nat)
    requires WriterInv(u, c) && E.Numbered(c.etcd.log) && a <= b <= |c.etcd.log| && Writes(u, c, a, b) != []
    ensures var revs := Writes(u, c, a, b);
            a < revs[|revs| - 1] && WroteAt(u, c, revs[|revs| - 1])
  {
    var revs := Writes(u, c, a, b);
    var r := revs[|revs| - 1];
    assert r in revs;
    RingRevsFrom(c.etcd.log[a..b], RingKey(u.prefix));
    var i :| 0 <= i < b - a && c.etcd.log[a..b][i].key == RingKey(u.prefix) && c.etcd.log[a..b][i].modRevision == r;
    assert c.etcd.log[a + i] == c.etcd.log[a..b][i] && r == a + i + 1;
  }

  lemma OlderState(u: Setup, c: Cluster, a: nat, r: int)
    requires WriterInv(u, c) && E.Numbered(c.etcd.log) && a <= |c.etcd.log| && a < r && WroteAt(u, c, r)
    ensures StateAt(u, c, a).version < c.wrote[r].version
  {
    RevsOnRecord(u, c, a);
    var revs := RingRevs(c.etcd.log[..a], RingKey(u.prefix));
    if revs != [] {
      var q := revs[|revs| - 1];
      assert q in revs;
      assert q in c.wrote && r in c.wrote && q < r;
    }
  }

  lemma {:induction false} RingRevsHas(events: seq<WatchEvent>, key: string, i: nat)
    requires i < |events| && events[i].key == key
    ensures events[i].modRevision in RingRevs(events, key)
    decreases |events|
  {
    if i < |events| - 1 {
      RingRevsHas(events[..|events| - 1], key, i);
    }
  }

  /** The ring writes between two points are those at the revisions in between, in order. */
  lemma WritesAre(u: Setup, c: Cluster, a: nat, b: nat)
    requires WriterInv(u, c) && E.Numbered(c.etcd.log) && a <= b <= |c.etcd.log|
    ensures var revs := Writes(u, c, a, b);
            && (forall r :: r in revs <==> a < r <= b && c.etcd.log[r - 1].key == RingKey(u.prefix))
            && (forall i, j :: 0 <= i < j < |revs| ==> revs[i] < revs[j])
  {
    var log, window, key := c.etcd.log, c.etcd.log[a..b], RingKey(u.prefix);
    assert forall i :: 0 <= i < |window| ==> window[i] == log[a + i] && window[i].modRevision == a + i + 1;
    RingRevsFrom(window, key);
    RingRevsRise(window, key);
    forall r | a < r <= b && log[r - 1].key == key ensures r in Writes(u, c, a, b) {
      assert window[r - 1 - a] == log[r - 1];
      RingRevsHas(window, key, r - 1 - a);
    }
  }

  /** The ring writes the watcher has processed: in order, on record, and after its bootstrap. */
  lemma ProcessedWrites(u: Setup, w: World)
    requires Inv(u, w)
    ensures var revs, c, now := RingRevs(w.watcher.processed, RingKey(u.prefix)), w.cluster, |w.cluster.etcd.log|;
            && (forall r :: r in revs ==> r in Writes(u, c, w.watcher.bootedAt, now))
            && (forall i, j :: 0 <= i < j < |revs| ==> revs[i] < revs[j])
  {
    var m, c := w.watcher, w.cluster;
    E.StoreIsReplay(c.trace);
    WritesAre(u, c, m.bootedAt, |c.etcd.log|);
    if m.sub.Some? {
      TakenFromLog(u, c, m);
      assert forall k :: 0 <= k < |m.processed| ==> m.processed[k] == (m.processed + m.todo)[k];
    }
    RingRevsRise(m.processed, RingKey(u.prefix));
    RingRevsFrom(m.processed, RingKey(u.prefix));
  }

  /**
   At any point of any run the watcher shows the writer's state iff the ring was not written since the watcher's
   bootstrap, or the watcher has processed the newest write.
   */
  lemma {:induction false} WatcherCurrentIff(u: Setup, actions: seq<Action>)
    requires RoundTrips(u.codec)
    ensures var w := Exec(u, actions);
            var c, m, now := w.cluster, w.watcher, |w.cluster.etcd.log|;
            && m.bootedAt <= now
            && var all := Writes(u, c, m.bootedAt, now);
               Current(w) <==> all == [] || all[|all| - 1] in RingRevs(m.processed, RingKey(u.prefix))
  {
    PipelineInv(u, actions);
    CurrentIff(u, Exec(u, actions));
  }

  lemma CurrentIff(u: Setup, w: World)
    requires Inv(u, w)
    ensures var c, m, now := w.cluster, w.watcher, |w.cluster.etcd.log|;
            var all := Writes(u, c, m.bootedAt, now);
            Current(w) <==> all == [] || all[|all| - 1] in RingRevs(m.processed, RingKey(u.prefix))
  {
    ProcessedWithin(u, w);
    Newest(u, w);
    CurrentByNewest(RingRevs(w.watcher.processed, RingKey(u.prefix)),
                    Writes(u, w.cluster, w.watcher.bootedAt, |w.cluster.etcd.log|), Current(w));
  }

  ghost predicate Rising(revs: seq<int>) {
    forall i, j :: 0 <= i < j < |revs| ==> revs[i] < revs[j]
  }

  ghost predicate Within(revs: seq<int>, all: seq<int>) {
    Rising(revs) && Rising(all) && forall r :: r in revs ==> r in all
  }

  lemma ProcessedWithin(u: Setup, w: World)
    requires Inv(u, w)
    ensures Within(RingRevs(w.watcher.processed, RingKey(u.prefix)),
                   Writes(u, w.cluster, w.watcher.bootedAt, |w.cluster.etcd.log|))
  {
    ProcessedWrites(u, w);
    E.StoreIsReplay(w.cluster.trace);
    WritesAre(u, w.cluster, w.watcher.bootedAt, |w.cluster.etcd.log|);
  }

  /** The watcher is current iff its newest processed write is the newest of all, or there is neither. */
  ghost predicate EndAlike(revs: seq<int>, all: seq<int>, current: bool) {
    && (revs == [] ==> (current <==> all == []))
    && (revs != [] && all != [] && revs[|revs| - 1] <= all[|all| - 1] ==>
          (current <==> revs[|revs| - 1] == all[|all| - 1]))
  }

  lemma Newest(u: Setup, w: World)
    requires Inv(u, w)
    ensures EndAlike(RingRevs(w.watcher.processed, RingKey(u.prefix)),
                     Writes(u, w.cluster, w.watcher.bootedAt, |w.cluster.etcd.log|), Current(w))
  {
    var revs := RingRevs(w.watcher.processed, RingKey(u.prefix));
    var all := Writes(u, w.cluster, w.watcher.bootedAt, |w.cluster.etcd.log|);
    if revs == [] {
      NoneProcessed(u, w);
    } else if all != [] && revs[|revs| - 1] <= all[|all| - 1] {
      SomeProcessed(u, w, revs[|revs| - 1], all[|all| - 1]);
    }
  }

  lemma CurrentByNewest(revs: seq<int>, all: seq<int>, current: bool)
    requires EndAlike(revs, all, current) && Within(revs, all)
    ensures current <==> all == [] || all[|all| - 1] in revs
  {
    if revs != [] { NewestIn(revs, all); }
  }

  lemma NoneProcessed(u: Setup, w: World)
    requires Inv(u, w) && RingRevs(w.watcher.processed, RingKey(u.prefix)) == []
    ensures Current(w) <==> Writes(u, w.cluster, w.watcher.bootedAt, |w.cluster.etcd.log|) == []
  {
    E.StoreIsReplay(w.cluster.trace);
    StateMovesIff(u, w.cluster, w.watcher.bootedAt, |w.cluster.etcd.log|);
  }

  lemma SomeProcessed(u: Setup, w: World, q: int, r: int)
    requires Inv(u, w)
    requires var revs, all := RingRevs(w.watcher.processed, RingKey(u.prefix)),
                              Writes(u, w.cluster, w.watcher.bootedAt, |w.cluster.etcd.log|);
             revs != [] && all != [] && q == revs[|revs| - 1] <= all[|all| - 1] == r
    ensures Current(w) <==> q == r
  {
    E.StoreIsReplay(w.cluster.trace);
    StateMovesIff(u, w.cluster, w.watcher.bootedAt, |w.cluster.etcd.log|);
    NewestShown(u, w.cluster, q, r);
  }

  /** Of two rising sequences, one within the other, the inner one holds the outer one's last iff they end alike. */
  lemma NewestIn(revs: seq<int>, all: seq<int>)
    requires revs != [] && Within(revs, all)
    ensures all != [] && revs[|revs| - 1] <= all[|all| - 1]
    ensures all[|all| - 1] in revs <==> revs[|revs| - 1] == all[|all| - 1]
  {
    var q := revs[|revs| - 1];
    assert q in revs;
    LastIsNewest(all, q);
    if all[|all| - 1] in revs { LastIsNewest(revs, all[|all| - 1]); }
  }

  lemma LastIsNewest(revs: seq<int>, r: int)
    requires r in revs && Rising(revs)
    ensures r <= revs[|revs| - 1]
  {
    var i :| 0 <= i < |revs| && revs[i] == r;
    if i < |revs| - 1 { assert revs[i] < revs[|revs| - 1]; }
  }

  lemma NewestShown(u: Setup, c: Cluster, q: int, r: int)
    requires WriterInv(u, c) && q in c.wrote && r in c.wrote && q <= r
    ensures c.wrote[q] == c.wrote[r] <==> q == r
  {
  }

  // ---------- A watcher that has caught up ----------

  /** The watcher still listens, and it has looked at all it was sent. */
  predicate CaughtUp(w: World) {
    var m, etcd := w.watcher, w.cluster.etcd;
    && m.sub.Some? && m.sub.value in etcd.subs && m.sub.value in etcd.client.chans && E.Free(etcd)
    && etcd.subs[m.sub.value].goroutine == E.Waiting
    && etcd.client.chans[m.sub.value].queue == [] && m.todo == []
  }

  function Subscription(w: World): E.Sub
    requires CaughtUp(w)
  {
    w.cluster.etcd.subs[w.watcher.sub.value]
  }

  function Since(w: World): nat
    requires CaughtUp(w)
  {
    Subscription(w).since
  }

  /** And no send to it was ever dropped. */
  predicate Drained(w: World) {
    CaughtUp(w) && Subscription(w).missed == {}
  }

  lemma {:induction false} RingRevsKept(events: seq<WatchEvent>, prefix: string, missed: set<nat>, key: string, r: int)
    requires prefix <= key
    ensures r in RingRevs(E.Kept(events, prefix, missed), key) <==> r in RingRevs(events, key) && r !in missed
  {
    if events != [] {
      var front, last := events[..|events| - 1], events[|events| - 1];
      RingRevsKept(front, prefix, missed, key, r);
      RingRevsAppend(E.Kept(front, prefix, missed), last, key);
      assert E.Kept(front, prefix, missed) + [] == E.Kept(front, prefix, missed);
    }
  }

  lemma CaughtUpProcessed(u: Setup, w: World)
    requires Inv(u, w) && CaughtUp(w)
    ensures var sub, now := Subscription(w), |w.cluster.etcd.log|;
            && w.watcher.bootedAt <= sub.since <= now
            && w.watcher.processed == E.Kept(w.cluster.etcd.log[sub.since..now], u.prefix, sub.missed)
  {
    var etcd, m, id := w.cluster.etcd, w.watcher, w.watcher.sub.value;
    E.RunsKeep(w.cluster.trace);
    assert E.ReportsAt(etcd, id);
    var sub, chan := etcd.subs[id], etcd.client.chans[id];
    assert id in etcd.client.watchers;
    assert sub.received + chan.queue == sub.received && m.processed + m.todo == m.processed;
  }

  /** The newest of the writes since the bootstrap came after the subscription and was not dropped. */
  ghost predicate NewestSent(all: seq<int>, sub: E.Sub) {
    all == [] || (sub.since < all[|all| - 1] && all[|all| - 1] !in sub.missed)
  }

  /**
   A watcher that has caught up shows the writer's state iff the ring was not written since its bootstrap, or the newest
   write came after its subscription and was not dropped. So it is behind exactly when the newest write fell between its
   bootstrap and its subscription or met a full buffer.
   */
  lemma {:induction false} CaughtUpWatcher(u: Setup, actions: seq<Action>)
    requires RoundTrips(u.codec) && CaughtUp(Exec(u, actions))
    ensures var w := Exec(u, actions);
            var booted, sub, now := w.watcher.bootedAt, Subscription(w), |w.cluster.etcd.log|;
            && booted <= sub.since <= now
            && (Current(w) <==> NewestSent(Writes(u, w.cluster, booted, now), sub))
  {
    PipelineInv(u, actions);
    CaughtUpCurrent(u, Exec(u, actions));
  }

  lemma CaughtUpCurrent(u: Setup, w: World)
    requires Inv(u, w) && CaughtUp(w)
    ensures w.watcher.bootedAt <= Since(w) <= |w.cluster.etcd.log|
    ensures Current(w) <==>
            NewestSent(Writes(u, w.cluster, w.watcher.bootedAt, |w.cluster.etcd.log|), Subscription(w))
  {
    var all := Writes(u, w.cluster, w.watcher.bootedAt, |w.cluster.etcd.log|);
    CaughtUpProcessed(u, w);
    CurrentIff(u, w);
    if all != [] {
      var r := all[|all| - 1];
      assert r in RingRevs(w.watcher.processed, RingKey(u.prefix)) <==> NewestSent(all, Subscription(w)) by {
        CaughtUpNewest(u, w, r);
      }
    }
  }

  lemma CaughtUpNewest(u: Setup, w: World, r: int)
    requires Inv(u, w) && CaughtUp(w) && r in Writes(u, w.cluster, w.watcher.bootedAt, |w.cluster.etcd.log|)
    ensures w.watcher.bootedAt <= Since(w) <= |w.cluster.etcd.log|
    ensures r in RingRevs(w.watcher.processed, RingKey(u.prefix)) <==> Since(w) < r && r !in Subscription(w).missed
  {
    CaughtUpProcessed(u, w);
    E.StoreIsReplay(w.cluster.trace);
    NewestProcessedIff(u, w.cluster, w.watcher, Subscription(w), r);
  }

  lemma NewestProcessedIff(u: Setup, c: Cluster, m: Watcher, sub: E.Sub, r: int)
    requires WriterInv(u, c) && E.Numbered(c.etcd.log) && m.bootedAt <= sub.since <= |c.etcd.log|
    requires m.processed == E.Kept(c.etcd.log[sub.since..|c.etcd.log|], u.prefix, sub.missed)
    requires r in Writes(u, c, m.bootedAt, |c.etcd.log|)
    ensures r in RingRevs(m.processed, RingKey(u.prefix)) <==> sub.since < r && r !in sub.missed
  {
    var log, now := c.etcd.log, |c.etcd.log|;
    RingRevsKept(log[sub.since..now], u.prefix, sub.missed, RingKey(u.prefix), r);
    assert r in Writes(u, c, sub.since, now) <==> sub.since < r by {
      WritesAre(u, c, m.bootedAt, now);
      WritesAre(u, c, sub.since, now);
    }
  }

  lemma DrainedProcessedAll(u: Setup, w: World)
    requires Inv(u, w) && Drained(w)
    ensures w.watcher.bootedAt <= Since(w) <= |w.cluster.etcd.log|
    ensures RingRevs(w.watcher.processed, RingKey(u.prefix)) == Writes(u, w.cluster, Since(w), |w.cluster.etcd.log|)
  {
    CaughtUpProcessed(u, w);
    RingRevsFiltered(w.cluster.etcd.log[Since(w)..|w.cluster.etcd.log|], u.prefix, RingKey(u.prefix));
  }

  /**
   A watcher that has caught up and lost nothing installed exactly the states written since it subscribed. It shows the
   writer's state iff the ring was written since then, or was not written between its bootstrap and its subscription:
   these are separate steps, and a write that falls between them reaches the watcher only with the next one.
   */
  lemma {:induction false} DrainedWatcher(u: Setup, actions: seq<Action>)
    requires RoundTrips(u.codec) && Drained(Exec(u, actions))
    ensures var w := Exec(u, actions);
            var c, m, since, now := w.cluster, w.watcher, Since(w), |w.cluster.etcd.log|;
            && m.bootedAt <= since <= now
            && |m.applied| == |Writes(u, c, since, now)|
            && (forall i :: 0 <= i < |m.applied| ==>
                  Writes(u, c, since, now)[i] in c.wrote && m.applied[i] == c.wrote[Writes(u, c, since, now)[i]])
            && (Current(w) <==> Writes(u, c, since, now) != [] || Writes(u, c, m.bootedAt, since) == [])
  {
    PipelineInv(u, actions);
    var w := Exec(u, actions);
    DrainedProcessedAll(u, w);
    DrainedState(u, w);
  }

  lemma DrainedState(u: Setup, w: World)
    requires Inv(u, w) && Drained(w) && w.watcher.bootedAt <= Since(w) <= |w.cluster.etcd.log|
    ensures var c, m, since, now := w.cluster, w.watcher, Since(w), |w.cluster.etcd.log|;
            Current(w) <==> Writes(u, c, since, now) != [] || Writes(u, c, m.bootedAt, since) == []
  {
    var c, booted, since, now := w.cluster, w.watcher.bootedAt, Since(w), |w.cluster.etcd.log|;
    CaughtUpCurrent(u, w);
    WritesSplit(u, c, booted, since, now);
    E.StoreIsReplay(c.trace);
    if Writes(u, c, booted, now) != [] { NewestSide(u, c, booted, since, now); }
  }

  lemma NewestSide(u: Setup, c: Cluster, a: nat, b: nat, d: nat)
    requires WriterInv(u, c) && E.Numbered(c.etcd.log) && a <= b <= d <= |c.etcd.log|
    requires Writes(u, c, a, d) != []
    ensures var all := Writes(u, c, a, d); b < all[|all| - 1] <==> Writes(u, c, b, d) != []
  {
    WritesSplit(u, c, a, b, d);
    var early, late := Writes(u, c, a, b), Writes(u, c, b, d);
    if late != [] {
      assert late[|late| - 1] in late;
      WritesAre(u, c, b, d);
    } else {
      assert early[|early| - 1] in early;
      WritesAre(u, c, a, b);
    }
  }

  /** Once the channel is empty too, every state written since the subscription has become one plan. */
  lemma {:induction false} DrainedPlans(u: Setup, actions: seq<Action>)
    requires RoundTrips(u.codec) && Drained(Exec(u, actions))
    requires Exec(u, actions).watcher.pending == [] && Exec(u, actions).rebalancer.events == []
    ensures var w := Exec(u, actions);
            var c, plans, since, now := w.cluster, w.rebalancer.plans, Since(w), |w.cluster.etcd.log|;
            && since <= now && |plans| == |Writes(u, c, since, now)|
            && forall i :: 0 <= i < |plans| ==> PlanOf(u, c, plans[i], Writes(u, c, since, now)[i])
  {
    PipelineInv(u, actions);
    var w := Exec(u, actions);
    DrainedProcessedAll(u, w);
    var c, plans := w.cluster, w.rebalancer.plans;
    var revs := Writes(u, c, Since(w), |c.etcd.log|);
    assert Emitted(w) == w.rebalancer.executed;
    forall i | 0 <= i < |plans| ensures PlanOf(u, c, plans[i], revs[i]) {
      assert plans[i] == PlanFor(w.rebalancer.executed[i]);
      assert WroteAt(u, c, revs[i]);
    }
  }

  /** A write between bootstrap and subscription: the watcher has nothing left to do and is behind the writer. */
  lemma StaleWatcher(u: Setup, node: NodeDescriptor)
    requires node.id != "" && RoundTrips(u.codec)
    ensures var w := Exec(u, [BootWatcher, Upsert(node), Subscribe]);
            Drained(w) && w.watcher.state == EMPTY_STATE && w.cluster.writer.version == 1
  {
    var run := [BootWatcher, Upsert(node), Subscribe];
    assert run[..2] == [BootWatcher, Upsert(node)] && run[..2][..1] == [BootWatcher] && [BootWatcher][..0] == [];
    var w1 := Exec(u, [BootWatcher]);
    assert Exec(u, []) == START;
    assert w1 == Step(u, START, BootWatcher);
    assert w1.watcher.state == EMPTY_STATE && w1.cluster == START.cluster && w1.watcher.sub.None?;
    var w2 := Exec(u, run[..2]);
    assert w2 == Step(u, w1, Upsert(node));
    assert Exec(u, run) == Step(u, w2, Subscribe);
  }

  // ---------- A write that meets a full buffer ----------

  /** The watcher subscribes, then the ring is written k times while nothing is received. */
  function Fill(node: NodeDescriptor, k: nat): seq<Action> {
    if k == 0 then [Subscribe] else Fill(node, k - 1) + [Upsert(node)] + [Elsewhere(E.Send(1))]
  }

  /** Then the watcher takes j responses and works them off. */
  function FillAndDrain(node: NodeDescriptor, k: nat, j: nat): seq<Action> {
    if j == 0 then Fill(node, k) else FillAndDrain(node, k, j - 1) + [Take] + [Process] + [Send]
  }

  lemma ExecMore(u: Setup, actions: seq<Action>, a: Action)
    ensures Exec(u, actions + [a]) == Step(u, Exec(u, actions), a)
  {
    assert (actions + [a])[..|actions|] == actions;
  }

  /** Every response holds one event, none of the ninth write. */
  predicate EarlyOnes(queue: seq<WatchResponse>) {
    forall i :: 0 <= i < |queue| ==> |queue[i].events| == 1 && queue[i].events[0].modRevision <= CHANNEL_CAPACITY
  }

  /** After k writes: the writer is at version k, and the one subscription is the watcher's. */
  ghost predicate Written(u: Setup, c: Cluster, k: nat) {
    var etcd := c.etcd;
    && E.Free(etcd) && |etcd.log| == etcd.client.revision == c.writer.version == k
    && (forall r :: r in c.wrote ==> c.wrote[r].version == r)
    && etcd.client.watchers == map[1 := u.prefix] && 1 in etcd.client.chans && 1 in etcd.subs
    && etcd.subs[1].goroutine == E.Waiting && etcd.subs[1].since == 0
  }

  ghost predicate Filled(u: Setup, w: World, k: nat) {
    && Written(u, w.cluster, k)
    && w.watcher == START.watcher.(sub := Some(1)) && w.rebalancer == START.rebalancer
    && EarlyOnes(w.cluster.etcd.client.chans[1].queue)
    && |w.cluster.etcd.client.chans[1].queue| == if k < CHANNEL_CAPACITY then k else CHANNEL_CAPACITY
  }

  lemma WriteFills(u: Setup, c: Cluster, s: RingState, k: nat)
    requires Written(u, c, k) && s.version == k + 1 && EarlyOnes(c.etcd.client.chans[1].queue)
    requires |c.etcd.client.chans[1].queue| == if k < CHANNEL_CAPACITY then k else CHANNEL_CAPACITY
    ensures var c' := EtcdStep(Write(u, c, s), E.Send(1));
            var queue := c'.etcd.client.chans[1].queue;
            && Written(u, c', k + 1) && EarlyOnes(queue)
            && |queue| == if k + 1 < CHANNEL_CAPACITY then k + 1 else CHANNEL_CAPACITY
  {
    PutStored(c.etcd.client, RingKey(u.prefix), u.codec.encode(s));
    assert c.etcd.client.watchers.Keys == {1};
    assert {1} - {1} == {};
  }

  lemma {:induction false} FillFills(u: Setup, node: NodeDescriptor, k: nat)
    requires node.id != ""
    ensures Filled(u, Exec(u, Fill(node, k)), k)
  {
    if k == 0 {
      FillStart(u);
    } else {
      FillFills(u, node, k - 1);
      ExecMore(u, Fill(node, k - 1), Upsert(node));
      ExecMore(u, Fill(node, k - 1) + [Upsert(node)], Elsewhere(E.Send(1)));
      FillOne(u, Exec(u, Fill(node, k - 1)), node, k - 1);
    }
  }

  lemma FillStart(u: Setup)
    ensures Filled(u, Exec(u, [Subscribe]), 0)
  {
    assert Exec(u, []) == START;
    ExecMore(u, [], Subscribe);
    assert [] + [Subscribe] == [Subscribe];
  }

  lemma FillOne(u: Setup, w: World, node: NodeDescriptor, k: nat)
    requires node.id != "" && Filled(u, w, k)
    ensures Filled(u, Step(u, Step(u, w, Upsert(node)), Elsewhere(E.Send(1))), k + 1)
  {
    var s := Upserted(u.hash, u.vnodes, w.cluster.writer, node);
    assert s.version == k + 1;
    WriteFills(u, w.cluster, s, k);
    assert Step(u, w, Upsert(node)) == w.(cluster := Write(u, w.cluster, s));
  }

  /** Of the buffer j responses are worked off; nothing of the ninth write was among them, and nothing is left of it. */
  ghost predicate Draining(u: Setup, w: World, j: nat) {
    var m := w.watcher;
    && Written(u, w.cluster, CHANNEL_CAPACITY + 1) && EarlyOnes(w.cluster.etcd.client.chans[1].queue)
    && |w.cluster.etcd.client.chans[1].queue| == CHANNEL_CAPACITY - j
    && m.sub == Some(1) && m.on && m.todo == [] && m.pending == [] && m.bootedAt == 0
    && |w.rebalancer.events| <= j
    && forall i :: 0 <= i < |m.processed| ==> m.processed[i].modRevision <= CHANNEL_CAPACITY
  }

  lemma DrainOne(u: Setup, w: World, j: nat)
    requires Draining(u, w, j) && j < CHANNEL_CAPACITY
    ensures Draining(u, Step(u, Step(u, Step(u, w, Take), Process), Send), j + 1)
  {
    var taken := Step(u, w, Take);
    assert taken.watcher.todo == w.cluster.etcd.client.chans[1].queue[0].events;
    assert Written(u, taken.cluster, CHANNEL_CAPACITY + 1);
    var processed := Step(u, taken, Process);
    assert processed.watcher == StepProcess(u, taken.watcher) && |processed.watcher.pending| <= 1;
  }

  lemma {:induction false} DrainDrains(u: Setup, node: NodeDescriptor, j: nat)
    requires node.id != "" && j <= CHANNEL_CAPACITY
    ensures Draining(u, Exec(u, FillAndDrain(node, CHANNEL_CAPACITY + 1, j)), j)
  {
    var k := CHANNEL_CAPACITY + 1;
    if j == 0 {
      FillFills(u, node, k);
    } else {
      var run := FillAndDrain(node, k, j - 1);
      DrainDrains(u, node, j - 1);
      ExecMore(u, run, Take);
      ExecMore(u, run + [Take], Process);
      ExecMore(u, run + [Take] + [Process], Send);
      DrainOne(u, Exec(u, run), j - 1);
    }
  }

  /**
   Nine writes while nothing is received: the ninth meets a full buffer. Nothing was written between bootstrap and
   subscription, the watcher works off all it was sent, and it stays behind the writer.
   */
  lemma LossyWatcher(u: Setup, node: NodeDescriptor)
    requires node.id != "" && RoundTrips(u.codec)
    ensures var w := Exec(u, FillAndDrain(node, 9, 8));
            && CaughtUp(w) && w.watcher.bootedAt == Since(w) == 0
            && w.watcher.state.version <= 8 < w.cluster.writer.version
  {
    var run := FillAndDrain(node, 9, 8);
    var w := Exec(u, run);
    DrainDrains(u, node, CHANNEL_CAPACITY);
    PipelineInv(u, run);
    var m, revs := w.watcher, RingRevs(w.watcher.processed, RingKey(u.prefix));
    if m.applied != [] {
      var r := revs[|revs| - 1];
      assert r in revs;
      RingRevsFrom(m.processed, RingKey(u.prefix));
      assert m.state == w.cluster.wrote[r];
    } else {
      assert w.cluster.etcd.log[..0] == [];
    }
  }
}

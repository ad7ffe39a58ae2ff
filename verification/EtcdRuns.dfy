/**
 Whole runs of the etcd simulator: any interleaving of transactions, of their sends, of subscriptions, cancellations,
 receives and the two steps of each watch goroutine. `log` (every mutation ever made) and the fields of `Sub` other than
 `cancelled` and `goroutine` are history variables.
 */
module EtcdRuns {
  import opened Etcdsim

  /** A watch goroutine waits for its context, unregisters its watcher, then closes the channel. */
  datatype Goroutine = Waiting | Unregistered | Finished

  /**
   One Watch call. The log window [since, upTo) is what it has been offered or refused so far; `missed` holds the
   revisions of those matching entries that were never sent to it.
   */
  datatype Sub = Sub(
    prefix: string,
    since: nat,
    upTo: nat,
    received: seq<WatchResponse>,
    missed: set<nat>,
    cancelled: bool,
    goroutine: Goroutine)

  /** What a commit still has to send under the lock: `events`, the first of them to the watchers in `left`. */
  datatype Outbox = Outbox(events: seq<WatchEvent>, left: set<nat>)

  datatype World = World(
    client: ClientState,
    log: seq<WatchEvent>,
    subs: map<nat, Sub>,
    outbox: Outbox,
    panicked: bool)

  datatype Action =
    | Commit(txn: Txn)
    | Send(id: nat)
    | Watch(prefix: string)
    | Cancel(id: nat)
    | Unregister(id: nat)
    | Close(id: nat)
    | Receive(id: nat)

  const START := World(EMPTY_CLIENT, [], map[], Outbox([], {}), false)

  /** The client's lock is free: no commit is in the middle of its sends. */
  predicate Free(w: World) { w.outbox.events == [] }

  predicate Matches(events: seq<WatchEvent>, prefix: string) {
    exists i :: 0 <= i < |events| && prefix <= events[i].key
  }

  /** The revisions of the matching events. */
  function Matching(events: seq<WatchEvent>, prefix: string): set<nat> {
    set i | 0 <= i < |events| && prefix <= events[i].key && events[i].modRevision >= 0 :: events[i].modRevision as nat
  }

  function OfferMatching(c: Chan, e: WatchEvent, prefix: string, revision: int): Chan {
    if prefix <= e.key then Offer(c, WatchResponse([e], revision)) else c
  }

  predicate FindsFull(c: Chan, e: WatchEvent, prefix: string) {
    prefix <= e.key && |c.queue| >= CHANNEL_CAPACITY
  }

  /** A registered watcher after a failed transaction. */
  function Unsent(sub: Sub, log: seq<WatchEvent>, events: seq<WatchEvent>): Sub {
    sub.(upTo := |log + events|, missed := sub.missed + Matching(events, sub.prefix))
  }

  /** A commit takes the lock; it keeps it as long as there is something to send. A failed one sends nothing. */
  function StepCommit(w: World, txn: Txn): World {
    var c := CommitStore(w.client, txn);
    var log := w.log + c.events;
    if c.outcome.Ok? then
      var outbox := if w.client.watchers.Keys == {} then Outbox([], {}) else Outbox(c.events, w.client.watchers.Keys);
      w.(client := c.state, log := log, outbox := outbox)
    else
      w.(client := c.state, log := log, subs := map id | id in w.subs ::
           if id in w.client.watchers then Unsent(w.subs[id], w.log, c.events) else w.subs[id])
  }

  predicate CanSend(w: World, id: nat) {
    !Free(w) && id in w.outbox.left && id in w.client.watchers && id in w.client.chans && id in w.subs
  }

  /** One turn of the loop over the watchers; a send on a closed channel panics even inside the `select`. */
  function StepSend(w: World, id: nat): World
    requires CanSend(w, id)
  {
    var e, prefix, chan, sub := w.outbox.events[0], w.client.watchers[id], w.client.chans[id], w.subs[id];
    var left := w.outbox.left - {id};
    World(
      w.client.(chans := w.client.chans[id := OfferMatching(chan, e, prefix, w.client.revision)]),
      w.log,
      w.subs[id := Offered(sub, FindsFull(chan, e, prefix))],
      if left == {} then Outbox(w.outbox.events[1..], w.client.watchers.Keys) else Outbox(w.outbox.events, left),
      w.panicked || (prefix <= e.key && chan.closed))
  }

  function Offered(sub: Sub, dropped: bool): Sub {
    sub.(upTo := sub.upTo + 1, missed := sub.missed + if dropped then {sub.upTo + 1} else {})
  }

  function Step(w: World, a: Action): World {
    match a
    case Commit(txn) => if Free(w) then StepCommit(w, txn) else w
    case Send(id) => if CanSend(w, id) then StepSend(w, id) else w
    case Watch(prefix) =>
      if !Free(w) then w
      else
        var client := AddWatcher(w.client, prefix);
        w.(client := client,
           subs := w.subs[client.nextID := Sub(prefix, |w.log|, |w.log|, [], {}, false, Waiting)])
    case Cancel(id) =>
      if id in w.subs then w.(subs := w.subs[id := w.subs[id].(cancelled := true)]) else w
    case Unregister(id) =>
      if Free(w) && id in w.subs && w.subs[id].cancelled && w.subs[id].goroutine == Waiting then
        w.(client := w.client.(watchers := w.client.watchers - {id}),
           subs := w.subs[id := w.subs[id].(goroutine := Unregistered)])
      else w
    case Close(id) =>
      if id in w.subs && id in w.client.chans && w.subs[id].goroutine == Unregistered then
        w.(client := w.client.(chans := w.client.chans[id := w.client.chans[id].(closed := true)]),
           subs := w.subs[id := w.subs[id].(goroutine := Finished)],
           panicked := w.panicked || w.client.chans[id].closed)
      else w
    case Receive(id) =>
      if id in w.subs && id in w.client.chans && w.client.chans[id].queue != [] then
        var queue := w.client.chans[id].queue;
        w.(client := w.client.(chans := w.client.chans[id := w.client.chans[id].(queue := queue[1..])]),
           subs := w.subs[id := w.subs[id].(received := w.subs[id].received + [queue[0]])])
      else w
  }

  function Exec(actions: seq<Action>): World {
    if actions == [] then START else Step(Exec(actions[..|actions| - 1]), actions[|actions| - 1])
  }

  // ---------- The store is the replay of its log ----------

  function Replay(log: seq<WatchEvent>): map<string, KvPair> {
    if log == [] then map[]
    else
      var kv, e := Replay(log[..|log| - 1]), log[|log| - 1];
      if e.typ == PutEvent then kv[e.key := KvPair(e.value, e.modRevision)] else kv - {e.key}
  }

  ghost predicate Numbered(log: seq<WatchEvent>) {
    forall i :: 0 <= i < |log| ==> log[i].modRevision == i + 1
  }

  ghost predicate Faithful(revision: int, kv: map<string, KvPair>, log: seq<WatchEvent>) {
    revision == |log| && Numbered(log) && kv == Replay(log)
  }

  lemma {:induction false} ApplyOpsFaithful(p: Progress, ops: seq<Op>, base: seq<WatchEvent>)
    requires Faithful(p.revision, p.kv, base + p.events)
    ensures var q := ApplyOps(p, ops); Faithful(q.revision, q.kv, base + q.events)
    decreases |ops|
  {
    if ops != [] && p.ok {
      var q := ApplyOp(p, ops[0]);
      if q.events != p.events {
        assert (base + q.events)[..|base + q.events| - 1] == base + p.events;
      }
      ApplyOpsFaithful(q, ops[1..], base);
    }
  }

  lemma CommitFaithful(s: ClientState, txn: Txn, log: seq<WatchEvent>)
    requires Faithful(s.revision, s.kv, log)
    ensures var c := CommitStore(s, txn);
            Faithful(c.state.revision, c.state.kv, log + c.events)
  {
    var verdict := CompareAll(s.kv, txn.compares);
    assert log + [] == log;
    if verdict != Unsupported {
      ApplyOpsFaithful(Progress(s.revision, s.kv, [], true), ChosenOps(txn, verdict == Passed), log);
    }
  }

  /** The revision counts the mutations, the i-th one carries revision i, and the key map is their replay. */
  lemma {:induction false} StoreIsReplay(actions: seq<Action>)
    ensures var w := Exec(actions);
            w.client.revision == |w.log| && Numbered(w.log) && w.client.kv == Replay(w.log)
  {
    if actions != [] {
      StoreIsReplay(actions[..|actions| - 1]);
      var w, a := Exec(actions[..|actions| - 1]), actions[|actions| - 1];
      if a.Commit? { CommitFaithful(w.client, a.txn, w.log); }
    }
  }

  /** Event `r` of the log (counting from 1) wrote `key`, and nothing touched the key since. */
  ghost predicate LastWrittenAt(log: seq<WatchEvent>, key: string, r: int) {
    && 1 <= r <= |log| && log[r - 1].typ == PutEvent && log[r - 1].key == key
    && forall i :: r <= i < |log| ==> log[i].key != key
  }

  lemma {:induction false} ReplayAt(log: seq<WatchEvent>, key: string, r: int)
    requires Numbered(log)
    ensures key in Replay(log) && Replay(log)[key].modRevision == r <==> LastWrittenAt(log, key, r)
    ensures LastWrittenAt(log, key, r) ==> Replay(log)[key].value == log[r - 1].value
    ensures key in Replay(log) ==> LastWrittenAt(log, key, Replay(log)[key].modRevision)
  {
    if log != [] {
      var n, front := |log| - 1, log[..|log| - 1];
      ReplayAt(front, key, r);
      if key in Replay(front) { ReplayAt(front, key, Replay(front)[key].modRevision); }
      var now := if key in Replay(log) then Replay(log)[key].modRevision else 0;
      forall q | q == r || q == now
        ensures LastWrittenAt(log, key, q) <==>
                if log[n].key == key then log[n].typ == PutEvent && q == |log| else LastWrittenAt(front, key, q)
      {
        if log[n].key != key && LastWrittenAt(front, key, q) {
          assert forall i :: q <= i < |log| ==> i == n || log[i] == front[i];
        }
        if LastWrittenAt(log, key, q) && q != |log| {
          assert forall i :: 0 <= i < n ==> front[i] == log[i];
          assert log[n].key != key;
        }
      }
    }
  }

  /**
   A comparison with revision r > 0 passes exactly when the key's value is the one written at r, with no write or
   delete of the key since; a comparison with 0 passes exactly when the key is absent.
   */
  lemma GuardMeansUntouched(actions: seq<Action>, key: string, r: int)
    ensures var w := Exec(actions);
            var passes := Compare(w.client.kv, Cmp(key, ModRevision, "=", r)) == Passed;
            && (r != 0 ==> (passes <==> LastWrittenAt(w.log, key, r)))
            && (r == 0 ==> (passes <==> key !in w.client.kv))
            && (passes && r != 0 ==> w.client.kv[key] == KvPair(w.log[r - 1].value, r))
  {
    StoreIsReplay(actions);
    ReplayAt(Exec(actions).log, key, r);
  }

  lemma LiveRevisionsDistinct(actions: seq<Action>, a: string, b: string)
    ensures var kv := Exec(actions).client.kv;
            a in kv && b in kv && kv[a].modRevision == kv[b].modRevision ==> a == b
  {
    var w := Exec(actions);
    StoreIsReplay(actions);
    ReplayedRevisionsDistinct(w.log, a, b);
  }

  lemma ReplayedRevisionsDistinct(log: seq<WatchEvent>, a: string, b: string)
    requires Numbered(log)
    ensures var kv := Replay(log); a in kv && b in kv && kv[a].modRevision == kv[b].modRevision ==> a == b
  {
    var kv := Replay(log);
    if a in kv && b in kv {
      ReplayAt(log, a, kv[a].modRevision);
      ReplayAt(log, b, kv[b].modRevision);
    }
  }

  // ---------- Watch channels ----------

  function Events(responses: seq<WatchResponse>): seq<WatchEvent> {
    if responses == [] then []
    else Events(responses[..|responses| - 1]) + responses[|responses| - 1].events
  }

  /** The matching events but for those missed, in order. */
  function Kept(events: seq<WatchEvent>, prefix: string, missed: set<nat>): seq<WatchEvent> {
    if events == [] then []
    else
      var last := events[|events| - 1];
      Kept(events[..|events| - 1], prefix, missed) +
      if prefix <= last.key && last.modRevision !in missed then [last] else []
  }

  function Filtered(events: seq<WatchEvent>, prefix: string): seq<WatchEvent> {
    Kept(events, prefix, {})
  }

  /** Everything the receiver has taken or can still take, in order. */
  function Heard(sub: Sub, c: Chan): seq<WatchEvent> {
    Events(sub.received + c.queue)
  }

  /** `heard` picks log entries of the window that match the prefix, each at most once and in log order. */
  ghost predicate Picks(heard: seq<WatchEvent>, log: seq<WatchEvent>, prefix: string, since: nat, upTo: nat) {
    && upTo <= |log|
    && (forall i, j :: 0 <= i < j < |heard| ==> heard[i].modRevision < heard[j].modRevision)
    && (forall i :: 0 <= i < |heard| ==>
          var e := heard[i];
          since < e.modRevision <= upTo && log[e.modRevision - 1] == e && prefix <= e.key)
  }

  /** What was missed are matching entries of the window. */
  ghost predicate MissedHere(sub: Sub, log: seq<WatchEvent>) {
    forall r :: r in sub.missed ==> sub.since < r <= sub.upTo <= |log| && sub.prefix <= log[r - 1].key
  }

  /** The matching entries of the window were heard, in order, but for those missed. */
  ghost predicate ReportsWell(sub: Sub, c: Chan, log: seq<WatchEvent>) {
    && sub.since <= sub.upTo <= |log| && MissedHere(sub, log)
    && Heard(sub, c) == Kept(log[sub.since..sub.upTo], sub.prefix, sub.missed)
  }

  lemma HeardOne(received: seq<WatchResponse>, c: Chan, r: WatchResponse)
    requires |c.queue| < CHANNEL_CAPACITY
    ensures Events(received + Offer(c, r).queue) == Events(received + c.queue) + r.events
  {
    assert (received + Offer(c, r).queue)[..|received + c.queue|] == received + c.queue;
  }

  lemma {:induction false} KeptSame(events: seq<WatchEvent>, prefix: string, a: set<nat>, b: set<nat>)
    requires forall i :: 0 <= i < |events| ==> (events[i].modRevision in a <==> events[i].modRevision in b)
    ensures Kept(events, prefix, a) == Kept(events, prefix, b)
  {
    if events != [] {
      KeptSame(events[..|events| - 1], prefix, a, b);
    }
  }

  lemma {:induction false} KeptConcat(a: seq<WatchEvent>, b: seq<WatchEvent>, prefix: string, missed: set<nat>)
    ensures Kept(a + b, prefix, missed) == Kept(a, prefix, missed) + Kept(b, prefix, missed)
  {
    if b == [] {
      assert a + b == a;
    } else {
      assert (a + b)[..|a + b| - 1] == a + b[..|b| - 1];
      KeptConcat(a, b[..|b| - 1], prefix, missed);
    }
  }

  lemma {:induction false} KeptNothing(events: seq<WatchEvent>, prefix: string, missed: set<nat>)
    requires Matching(events, prefix) <= missed && forall i :: 0 <= i < |events| ==> events[i].modRevision >= 0
    ensures Kept(events, prefix, missed) == []
  {
    if events != [] {
      var front, last := events[..|events| - 1], events[|events| - 1];
      assert Matching(front, prefix) <= Matching(events, prefix);
      assert prefix <= last.key ==> last.modRevision in Matching(events, prefix);
      KeptNothing(front, prefix, missed);
    }
  }

  /** Fewer events are kept exactly when a matching one is missed. */
  lemma {:induction false} KeptFewer(events: seq<WatchEvent>, prefix: string, missed: set<nat>)
    ensures |Kept(events, prefix, missed)| <= |Filtered(events, prefix)|
    ensures Kept(events, prefix, missed) == Filtered(events, prefix) <==>
            forall i :: 0 <= i < |events| && prefix <= events[i].key ==> events[i].modRevision !in missed
    ensures Kept(events, prefix, missed) != Filtered(events, prefix) ==>
              |Kept(events, prefix, missed)| < |Filtered(events, prefix)|
  {
    if events != [] {
      var n, front := |events| - 1, events[..|events| - 1];
      KeptFewer(front, prefix, missed);
      assert forall i :: 0 <= i < n ==> front[i] == events[i];
    }
  }

  lemma {:induction false} KeptPicks(log: seq<WatchEvent>, prefix: string, missed: set<nat>, since: nat, upTo: nat)
    requires Numbered(log) && since <= upTo <= |log|
    ensures Picks(Kept(log[since..upTo], prefix, missed), log, prefix, since, upTo)
    decreases upTo
  {
    if since < upTo {
      assert log[since..upTo][..upTo - 1 - since] == log[since..upTo - 1];
      KeptPicks(log, prefix, missed, since, upTo - 1);
    }
  }

  // ---------- What every step keeps ----------

  /** What registration, goroutine progress and channels have to do with each other. */
  ghost predicate Lifecycle(w: World) {
    && !w.panicked
    && w.subs.Keys == w.client.chans.Keys && w.client.watchers.Keys <= w.subs.Keys
    && (forall id :: id in w.subs ==>
          && id <= w.client.nextID
          && (id in w.client.watchers <==> w.subs[id].goroutine == Waiting)
          && (w.client.chans[id].closed <==> w.subs[id].goroutine == Finished)
          && (id in w.client.watchers ==> w.client.watchers[id] == w.subs[id].prefix))
  }

  /** How many entries of the log still have to be offered to a watcher. */
  function Outstanding(w: World, id: nat): nat {
    if Free(w) then 0 else if id in w.outbox.left then |w.outbox.events| else |w.outbox.events| - 1
  }

  /** The commit under way has the tail of the log to send; each watcher has been offered the rest. */
  ghost predicate Sending(w: World) {
    && |w.outbox.events| <= |w.log| && w.outbox.events == w.log[|w.log| - |w.outbox.events|..]
    && (!Free(w) ==> w.outbox.left != {} && w.outbox.left <= w.client.watchers.Keys)
    && (forall id :: id in w.client.watchers && id in w.subs ==> w.subs[id].upTo == |w.log| - Outstanding(w, id))
  }

  ghost predicate ReportsAt(w: World, id: nat) {
    id in w.subs && id in w.client.chans && ReportsWell(w.subs[id], w.client.chans[id], w.log)
  }

  ghost predicate AllReport(w: World) {
    forall id :: id in w.subs ==> ReportsAt(w, id)
  }

  /** An unregistered subscription, or one whose turn has not come, takes no notice of new entries. */
  lemma IdleReports(sub: Sub, c: Chan, log: seq<WatchEvent>, events: seq<WatchEvent>)
    requires ReportsWell(sub, c, log)
    ensures ReportsWell(sub, c, log + events)
  {
    assert (log + events)[sub.since..sub.upTo] == log[sub.since..sub.upTo];
  }

  lemma UnsentReports(sub: Sub, c: Chan, log: seq<WatchEvent>, events: seq<WatchEvent>)
    requires ReportsWell(sub, c, log) && sub.upTo == |log| && Numbered(log + events)
    ensures ReportsWell(Unsent(sub, log, events), c, log + events)
  {
    UnsentMissed(sub, log, events);
    KeptUnsent(log, events, sub.prefix, sub.missed, sub.since);
  }

  lemma UnsentMissed(sub: Sub, log: seq<WatchEvent>, events: seq<WatchEvent>)
    requires MissedHere(sub, log) && sub.since <= sub.upTo == |log| && Numbered(log + events)
    ensures MissedHere(Unsent(sub, log, events), log + events)
  {
    assert forall i :: 0 <= i < |events| ==> events[i] == (log + events)[|log| + i];
  }

  lemma KeptUnsent(log: seq<WatchEvent>, events: seq<WatchEvent>, prefix: string, missed: set<nat>, since: nat)
    requires Numbered(log + events) && since <= |log|
    ensures Kept((log + events)[since..|log + events|], prefix, missed + Matching(events, prefix)) ==
            Kept(log[since..|log|], prefix, missed)
  {
    var log', window, missed' := log + events, log[since..|log|], missed + Matching(events, prefix);
    assert log'[since..|log'|] == window + events;
    forall i | 0 <= i < |window| ensures window[i].modRevision in missed <==> window[i].modRevision in missed' {
      assert window[i] == log'[since + i];
      assert forall j :: 0 <= j < |events| ==> events[j] == log'[|log| + j];
    }
    KeptSame(window, prefix, missed, missed');
    KeptConcat(window, events, prefix, missed');
    assert forall j :: 0 <= j < |events| ==> events[j] == log'[|log| + j];
    KeptNothing(events, prefix, missed');
  }

  /** One send: the next entry of the log is heard if it matches and there is room, and else missed if it matches. */
  lemma OfferReports(sub: Sub, c: Chan, log: seq<WatchEvent>, revision: int)
    requires ReportsWell(sub, c, log) && Numbered(log) && sub.upTo < |log|
    ensures var e := log[sub.upTo];
            ReportsWell(Offered(sub, FindsFull(c, e, sub.prefix)), OfferMatching(c, e, sub.prefix, revision), log)
  {
    var e := log[sub.upTo];
    KeptOneMore(log, sub.prefix, sub.missed, sub.since, sub.upTo, FindsFull(c, e, sub.prefix));
    OfferMissed(sub, log, FindsFull(c, e, sub.prefix));
    OfferHeard(sub, c, e, revision);
  }

  lemma OfferMissed(sub: Sub, log: seq<WatchEvent>, dropped: bool)
    requires MissedHere(sub, log) && sub.since <= sub.upTo < |log| && (dropped ==> sub.prefix <= log[sub.upTo].key)
    ensures MissedHere(Offered(sub, dropped), log)
  {
  }

  lemma OfferHeard(sub: Sub, c: Chan, e: WatchEvent, revision: int)
    ensures var dropped := FindsFull(c, e, sub.prefix);
            Heard(Offered(sub, dropped), OfferMatching(c, e, sub.prefix, revision)) ==
            Heard(sub, c) + if sub.prefix <= e.key && !dropped then [e] else []
  {
    if sub.prefix <= e.key && |c.queue| < CHANNEL_CAPACITY {
      HeardOne(sub.received, c, WatchResponse([e], revision));
    }
  }

  lemma KeptOneMore(log: seq<WatchEvent>, prefix: string, missed: set<nat>, since: nat, upTo: nat, dropped: bool)
    requires Numbered(log) && since <= upTo < |log| && forall r :: r in missed ==> r <= upTo
    ensures Kept(log[since..upTo + 1], prefix, missed + if dropped then {upTo + 1} else {}) ==
            Kept(log[since..upTo], prefix, missed) + if prefix <= log[upTo].key && !dropped then [log[upTo]] else []
  {
    var window, missed' := log[since..upTo], missed + if dropped then {upTo + 1} else {};
    assert log[since..upTo + 1][..upTo - since] == window;
    assert log[upTo].modRevision == upTo + 1;
    assert forall i :: 0 <= i < |window| ==> window[i].modRevision == since + i + 1;
    KeptSame(window, prefix, missed, missed');
  }

  lemma CommitKeepsChannels(s: ClientState, txn: Txn)
    ensures var c := CommitStore(s, txn);
            c.state == s.(revision := c.state.revision, kv := c.state.kv)
  {
  }

  lemma CommitReports(w: World, txn: Txn, id: nat)
    requires Free(w) && Lifecycle(w) && Sending(w) && ReportsAt(w, id)
    requires Faithful(w.client.revision, w.client.kv, w.log)
    ensures ReportsAt(StepCommit(w, txn), id)
  {
    var c, sub, chan := CommitStore(w.client, txn), w.subs[id], w.client.chans[id];
    CommitFaithful(w.client, txn, w.log);
    CommitKeepsChannels(w.client, txn);
    if id in w.client.watchers && c.outcome.Err? {
      UnsentReports(sub, chan, w.log, c.events);
    } else {
      IdleReports(sub, chan, w.log, c.events);
    }
  }

  lemma {:induction false} CommitKeeps(w: World, txn: Txn)
    requires Free(w) && Lifecycle(w) && Sending(w) && AllReport(w)
    requires Faithful(w.client.revision, w.client.kv, w.log)
    ensures var w' := StepCommit(w, txn); Lifecycle(w') && Sending(w') && AllReport(w')
  {
    var w' := StepCommit(w, txn);
    CommitLifecycle(w, txn);
    CommitSending(w, txn);
    forall id | id in w'.subs ensures ReportsAt(w', id) {
      assert ReportsAt(w, id);
      CommitReports(w, txn, id);
    }
  }

  lemma CommitLifecycle(w: World, txn: Txn)
    requires Lifecycle(w)
    ensures Lifecycle(StepCommit(w, txn)) && StepCommit(w, txn).subs.Keys == w.subs.Keys
  {
    CommitKeepsChannels(w.client, txn);
  }

  lemma CommitSending(w: World, txn: Txn)
    requires Free(w) && Lifecycle(w) && Sending(w)
    ensures Sending(StepCommit(w, txn))
  {
    var c := CommitStore(w.client, txn);
    CommitKeepsChannels(w.client, txn);
    assert (w.log + c.events)[|w.log|..] == c.events;
  }

  lemma SendSending(w: World, id: nat)
    requires Lifecycle(w) && Sending(w) && CanSend(w, id)
    ensures Sending(StepSend(w, id))
  {
    var events, n := w.outbox.events, |w.log|;
    var w' := StepSend(w, id);
    assert w.log[n - |events|..][1..] == w.log[n - |events| + 1..];
    forall x | x in w'.client.watchers && x in w'.subs ensures w'.subs[x].upTo == n - Outstanding(w', x) {
      assert w.subs[x].upTo == n - Outstanding(w, x);
    }
  }

  lemma {:induction false} SendKeeps(w: World, id: nat)
    requires Lifecycle(w) && Sending(w) && AllReport(w) && CanSend(w, id) && Numbered(w.log)
    ensures var w' := StepSend(w, id); Lifecycle(w') && Sending(w') && AllReport(w')
  {
    var w' := StepSend(w, id);
    SendSending(w, id);
    SendLifecycle(w, id);
    forall x | x in w'.subs ensures ReportsAt(w', x) {
      assert ReportsAt(w, x);
      if x == id { SendReports(w, id); }
    }
  }

  lemma SendLifecycle(w: World, id: nat)
    requires Lifecycle(w) && CanSend(w, id)
    ensures Lifecycle(StepSend(w, id))
  {
  }

  lemma SendReports(w: World, id: nat)
    requires Lifecycle(w) && Sending(w) && ReportsAt(w, id) && CanSend(w, id) && Numbered(w.log)
    ensures ReportsAt(StepSend(w, id), id)
  {
    var sub, n := w.subs[id], |w.outbox.events|;
    assert w.outbox.events[0] == w.log[|w.log| - n] && sub.upTo == |w.log| - n;
    OfferReports(sub, w.client.chans[id], w.log, w.client.revision);
  }

  lemma WatchKeeps(w: World, prefix: string)
    requires Free(w) && Lifecycle(w) && Sending(w) && AllReport(w)
    ensures var w' := Step(w, Watch(prefix)); Lifecycle(w') && Sending(w') && AllReport(w')
  {
    var w' := Step(w, Watch(prefix));
    WatchLifecycle(w, prefix);
    forall id | id in w'.subs ensures ReportsAt(w', id) {
      WatchReports(w, prefix, id);
    }
  }

  lemma WatchLifecycle(w: World, prefix: string)
    requires Free(w) && Lifecycle(w) && Sending(w)
    ensures Lifecycle(Step(w, Watch(prefix))) && Sending(Step(w, Watch(prefix)))
  {
    assert forall id :: id in w.subs ==> id != w.client.nextID + 1;
  }

  lemma WatchReports(w: World, prefix: string, id: nat)
    requires Free(w) && Lifecycle(w) && AllReport(w) && id in Step(w, Watch(prefix)).subs
    ensures ReportsAt(Step(w, Watch(prefix)), id)
  {
    if id == w.client.nextID + 1 {
      assert w.log[|w.log|..|w.log|] == [];
    } else {
      assert ReportsAt(w, id);
    }
  }

  predicate Quiet(a: Action) { !a.Commit? && !a.Send? && !a.Watch? }

  lemma QuietLifecycle(w: World, a: Action)
    requires Lifecycle(w) && Quiet(a)
    ensures Lifecycle(Step(w, a))
  {
  }

  lemma QuietSending(w: World, a: Action)
    requires Lifecycle(w) && Sending(w) && Quiet(a)
    ensures Sending(Step(w, a))
  {
  }

  /** Receiving moves a response from the queue to the receiver; the goroutine's steps leave both alone. */
  lemma QuietHeard(w: World, a: Action, id: nat)
    requires Lifecycle(w) && Quiet(a) && id in w.subs
    ensures var w' := Step(w, a);
            && w'.subs.Keys == w'.client.chans.Keys == w.subs.Keys && w'.log == w.log
            && w'.subs[id].prefix == w.subs[id].prefix && w'.subs[id].since == w.subs[id].since
            && w'.subs[id].upTo == w.subs[id].upTo && w'.subs[id].missed == w.subs[id].missed
            && Heard(w'.subs[id], w'.client.chans[id]) == Heard(w.subs[id], w.client.chans[id])
  {
    if a == Receive(id) && w.client.chans[id].queue != [] {
      var queue, received := w.client.chans[id].queue, w.subs[id].received;
      assert (received + [queue[0]]) + queue[1..] == received + queue;
    }
  }

  lemma QuietReports(w: World, a: Action, id: nat)
    requires Lifecycle(w) && Quiet(a) && ReportsAt(w, id)
    ensures ReportsAt(Step(w, a), id)
  {
    QuietHeard(w, a, id);
  }

  lemma QuietKeys(w: World, a: Action)
    requires Quiet(a)
    ensures Step(w, a).subs.Keys == w.subs.Keys
  {
  }

  lemma {:induction false} QuietKeeps(w: World, a: Action)
    requires Lifecycle(w) && Sending(w) && AllReport(w) && Quiet(a)
    ensures Lifecycle(Step(w, a)) && Sending(Step(w, a)) && AllReport(Step(w, a))
  {
    var w' := Step(w, a);
    QuietLifecycle(w, a);
    QuietSending(w, a);
    QuietKeys(w, a);
    forall id | id in w'.subs ensures ReportsAt(w', id) {
      assert id in w.subs && ReportsAt(w, id);
      QuietReports(w, a, id);
    }
  }

  lemma {:induction false} StepKeeps(w: World, a: Action)
    requires Lifecycle(w) && Sending(w) && AllReport(w) && Faithful(w.client.revision, w.client.kv, w.log)
    ensures Lifecycle(Step(w, a)) && Sending(Step(w, a)) && AllReport(Step(w, a))
  {
    match a
    case Commit(txn) => if Free(w) { CommitKeeps(w, txn); }
    case Send(id) => if CanSend(w, id) { SendKeeps(w, id); }
    case Watch(prefix) => if Free(w) { WatchKeeps(w, prefix); }
    case _ => QuietKeeps(w, a);
  }

  lemma {:induction false} RunsKeep(actions: seq<Action>)
    ensures Lifecycle(Exec(actions)) && Sending(Exec(actions)) && AllReport(Exec(actions))
  {
    if actions != [] {
      RunsKeep(actions[..|actions| - 1]);
      StoreIsReplay(actions[..|actions| - 1]);
      StepKeeps(Exec(actions[..|actions| - 1]), actions[|actions| - 1]);
    }
  }

  /**
   In every run, with receives falling anywhere between the sends of a commit: no send meets a closed channel and no
   channel is closed twice; what a watcher has heard are the matching log entries of its window in order, but for those
   it missed, so all of them iff it missed none; and a registered watcher's window reaches up to what the commit under
   way has still to offer it.
   */
  lemma {:induction false} WatchersReportTheLog(actions: seq<Action>)
    ensures var w := Exec(actions);
            && !w.panicked
            && w.subs.Keys == w.client.chans.Keys
            && forall id :: id in w.subs ==>
                 var sub, heard := w.subs[id], Heard(w.subs[id], w.client.chans[id]);
                 && sub.since <= sub.upTo <= |w.log| && MissedHere(sub, w.log)
                 && heard == Kept(w.log[sub.since..sub.upTo], sub.prefix, sub.missed)
                 && Picks(heard, w.log, sub.prefix, sub.since, sub.upTo)
                 && (heard == Filtered(w.log[sub.since..sub.upTo], sub.prefix) <==> sub.missed == {})
                 && (sub.goroutine == Waiting ==> sub.upTo == |w.log| - Outstanding(w, id))
  {
    RunsKeep(actions);
    StoreIsReplay(actions);
    var w := Exec(actions);
    forall id | id in w.subs
      ensures var sub, heard := w.subs[id], Heard(w.subs[id], w.client.chans[id]);
              && ReportsWell(sub, w.client.chans[id], w.log)
              && Picks(heard, w.log, sub.prefix, sub.since, sub.upTo)
              && (heard == Filtered(w.log[sub.since..sub.upTo], sub.prefix) <==> sub.missed == {})
    {
      assert ReportsAt(w, id);
      ReportFacts(w.subs[id], w.client.chans[id], w.log);
    }
  }

  lemma ReportFacts(sub: Sub, c: Chan, log: seq<WatchEvent>)
    requires ReportsWell(sub, c, log) && Numbered(log)
    ensures Picks(Heard(sub, c), log, sub.prefix, sub.since, sub.upTo)
    ensures Heard(sub, c) == Filtered(log[sub.since..sub.upTo], sub.prefix) <==> sub.missed == {}
  {
    var window := log[sub.since..sub.upTo];
    KeptPicks(log, sub.prefix, sub.missed, sub.since, sub.upTo);
    KeptFewer(window, sub.prefix, sub.missed);
    if r :| r in sub.missed {
      var i := r - 1 - sub.since;
      assert window[i] == log[r - 1] && window[i].modRevision == r;
      assert sub.prefix <= window[i].key && window[i].modRevision in sub.missed;
    } else {
      assert sub.missed == {};
    }
  }

  /** A response holds one event, and a revision of the client no older than the event's and no newer than now. */
  predicate CarriesOne(r: WatchResponse, revision: int) {
    |r.events| == 1 && 1 <= r.events[0].modRevision <= r.revision <= revision
  }

  ghost predicate AllCarryOne(w: World) {
    && (forall id, i :: id in w.client.chans && 0 <= i < |w.client.chans[id].queue| ==>
          CarriesOne(w.client.chans[id].queue[i], w.client.revision))
    && (forall id, i :: id in w.subs && 0 <= i < |w.subs[id].received| ==>
          CarriesOne(w.subs[id].received[i], w.client.revision))
  }

  lemma StepCarriesOne(w: World, a: Action)
    requires AllCarryOne(w) && Sending(w) && Faithful(w.client.revision, w.client.kv, w.log)
    ensures AllCarryOne(Step(w, a))
  {
    match a
    case Commit(txn) => CommitCarriesOne(w, txn);
    case Send(id) => if CanSend(w, id) { SendCarriesOne(w, id); }
    case _ => OtherCarriesOne(w, a);
  }

  lemma CommitCarriesOne(w: World, txn: Txn)
    requires AllCarryOne(w) && Faithful(w.client.revision, w.client.kv, w.log)
    ensures AllCarryOne(StepCommit(w, txn))
  {
    CommitKeepsChannels(w.client, txn);
    CommitFaithful(w.client, txn, w.log);
  }

  lemma SendCarriesOne(w: World, id: nat)
    requires AllCarryOne(w) && Sending(w) && CanSend(w, id) && Faithful(w.client.revision, w.client.kv, w.log)
    ensures AllCarryOne(StepSend(w, id))
  {
    assert w.outbox.events[0] == w.log[|w.log| - |w.outbox.events|];
  }

  lemma OtherCarriesOne(w: World, a: Action)
    requires AllCarryOne(w) && !a.Commit? && !a.Send?
    ensures AllCarryOne(Step(w, a))
  {
  }

  lemma {:induction false} ResponsesCarryOne(actions: seq<Action>)
    ensures AllCarryOne(Exec(actions))
  {
    if actions != [] {
      ResponsesCarryOne(actions[..|actions| - 1]);
      RunsKeep(actions[..|actions| - 1]);
      StoreIsReplay(actions[..|actions| - 1]);
      StepCarriesOne(Exec(actions[..|actions| - 1]), actions[|actions| - 1]);
    }
  }

  /** The watcher has heard, or will hear, every matching event of its window. */
  ghost predicate CompleteReport(sub: Sub, c: Chan, log: seq<WatchEvent>) {
    sub.since <= sub.upTo <= |log| && Heard(sub, c) == Filtered(log[sub.since..sub.upTo], sub.prefix)
  }

  ghost predicate Complete(w: World, id: nat) {
    id in w.subs && id in w.client.chans && CompleteReport(w.subs[id], w.client.chans[id], w.log)
  }

  /**
   A failed transaction reports nothing: a registered watcher keeps a complete report iff it had one and none of the
   operations applied before the failure touched a key of its prefix.
   */
  lemma FailedCommitGoesUnreported(actions: seq<Action>, txn: Txn, id: nat)
    requires var w := Exec(actions);
             Free(w) && id in w.client.watchers && CommitStore(w.client, txn).outcome.Err?
    ensures var w := Exec(actions);
            var w', events := Step(w, Commit(txn)), CommitStore(w.client, txn).events;
            && id in w.subs && w'.client.chans == w.client.chans && w'.log == w.log + events
            && (Complete(w', id) <==> Complete(w, id) && !Matches(events, w.subs[id].prefix))
  {
    RunsKeep(actions);
    StoreIsReplay(actions);
    var w := Exec(actions);
    var sub, chan, events := w.subs[id], w.client.chans[id], CommitStore(w.client, txn).events;
    CommitKeepsChannels(w.client, txn);
    CommitFaithful(w.client, txn, w.log);
    assert ReportsAt(w, id);
    UnsentCompleteIff(sub, chan, w.log, events);
    assert StepCommit(w, txn).subs[id] == Unsent(sub, w.log, events);
  }

  lemma UnsentCompleteIff(sub: Sub, c: Chan, log: seq<WatchEvent>, events: seq<WatchEvent>)
    requires ReportsWell(sub, c, log) && sub.upTo == |log| && Numbered(log) && Numbered(log + events)
    ensures CompleteReport(Unsent(sub, log, events), c, log + events) <==>
            CompleteReport(sub, c, log) && !Matches(events, sub.prefix)
  {
    UnsentReports(sub, c, log, events);
    ReportFacts(sub, c, log);
    ReportFacts(Unsent(sub, log, events), c, log + events);
    assert forall i :: 0 <= i < |events| ==> events[i] == (log + events)[|log| + i];
    MatchingEmptyIff(events, sub.prefix);
  }

  lemma MatchingEmptyIff(events: seq<WatchEvent>, prefix: string)
    requires forall i :: 0 <= i < |events| ==> events[i].modRevision >= 0
    ensures Matching(events, prefix) == {} <==> !Matches(events, prefix)
  {
    if i :| 0 <= i < |events| && prefix <= events[i].key {
      assert events[i].modRevision in Matching(events, prefix);
    }
  }

  // ---------- A cancelled watch ends ----------

  /**
   From any point of any run, once a registered watch is cancelled and the lock is free, its goroutine unregisters it
   and closes its channel; the responses already queued stay receivable.
   */
  lemma {:induction false} CancelledWatchEnds(actions: seq<Action>, id: nat)
    requires var w := Exec(actions); Free(w) && id in w.client.watchers
    ensures var w := Exec(actions);
            var w' := Step(Step(Step(w, Cancel(id)), Unregister(id)), Close(id));
            && id in w.client.chans && id in w'.client.chans && id !in w'.client.watchers && w'.client.chans[id].closed
            && w'.client.chans[id].queue == w.client.chans[id].queue && !w'.panicked
            && w'.client.watchers == w.client.watchers - {id}
  {
    RunsKeep(actions);
    EndsFrom(Exec(actions), id);
  }

  lemma {:induction false} EndsFrom(w: World, id: nat)
    requires Lifecycle(w) && Free(w) && id in w.client.watchers
    ensures var w' := Step(Step(Step(w, Cancel(id)), Unregister(id)), Close(id));
            && id in w.client.chans && id in w'.client.chans && w'.client.chans[id].closed
            && w'.client.chans[id].queue == w.client.chans[id].queue && !w'.panicked
            && w'.client.watchers == w.client.watchers - {id}
  {
    var cancelled := Step(w, Cancel(id));
    assert cancelled.client == w.client && cancelled.subs[id].cancelled && cancelled.subs[id].goroutine == Waiting;
    var unregistered := Step(cancelled, Unregister(id));
    assert unregistered.subs[id].goroutine == Unregistered && unregistered.client.chans == w.client.chans;
  }

  // ---------- Sends that nobody interrupts ----------

  function SendAll(w: World, ids: seq<nat>): World {
    if ids == [] then w else Step(SendAll(w, ids[..|ids| - 1]), Send(ids[|ids| - 1]))
  }

  /** The state in which the sends that remain will leave the client, if nothing else happens. */
  function Ahead(w: World): ClientState {
    if Free(w) then w.client
    else Notify(DeliverTo(w.client, w.outbox.events[0], w.outbox.left), w.outbox.events[1..])
  }

  function DeliverTo(s: ClientState, e: WatchEvent, ids: set<nat>): ClientState {
    s.(chans := map id | id in s.chans ::
         if id in ids && id in s.watchers
         then OfferMatching(s.chans[id], e, s.watchers[id], s.revision) else s.chans[id])
  }

  lemma DeliverToAll(s: ClientState, e: WatchEvent)
    ensures DeliverTo(s, e, s.watchers.Keys) == Deliver(s, e)
  {
  }

  lemma SendLooksAhead(w: World, id: nat)
    requires CanSend(w, id)
    ensures Ahead(StepSend(w, id)) == Ahead(w)
  {
    var e, left, w' := w.outbox.events[0], w.outbox.left - {id}, StepSend(w, id);
    assert DeliverTo(w'.client, e, left) == DeliverTo(w.client, e, w.outbox.left);
    if left == {} {
      assert DeliverTo(w'.client, e, left) == w'.client;
      if w.outbox.events[1..] != [] { DeliverToAll(w'.client, w.outbox.events[1]); }
    }
  }

  lemma {:induction false} SendsLookAhead(w: World, ids: seq<nat>)
    ensures Ahead(SendAll(w, ids)) == Ahead(w)
  {
    if ids != [] {
      var before, id := SendAll(w, ids[..|ids| - 1]), ids[|ids| - 1];
      SendsLookAhead(w, ids[..|ids| - 1]);
      if CanSend(before, id) { SendLooksAhead(before, id); }
    }
  }

  /** Without receives in between, a commit and its sends, the watchers visited in any order, are the one call. */
  lemma CommitThenSends(w: World, txn: Txn, ids: seq<nat>)
    requires Free(w) && Free(SendAll(StepCommit(w, txn), ids))
    ensures SendAll(StepCommit(w, txn), ids).client == CommitTxn(w.client, txn).state
  {
    var w', c := StepCommit(w, txn), CommitStore(w.client, txn);
    SendsLookAhead(w', ids);
    CommitKeepsChannels(w.client, txn);
    if c.outcome.Ok? && c.events != [] && w.client.watchers.Keys != {} { DeliverToAll(c.state, c.events[0]); }
    if c.outcome.Ok? && w.client.watchers.Keys == {} {
      assert |c.state.watchers| == |c.state.watchers.Keys|;
      NobodyToNotify(c.state, c.events);
    }
  }
}

/** The etcd simulator of internal/metadata/etcdsim/etcdsim.go: functions on its state, and the mutable client. */
module Etcdsim {
  import opened Prelude

  const CHANNEL_CAPACITY := 8

  datatype KvPair = KvPair(value: string, modRevision: int)

  datatype KeyValue = KeyValue(key: string, value: string, modRevision: int)

  datatype EventType = PutEvent | DeleteEvent

  datatype WatchEvent = WatchEvent(typ: EventType, key: string, value: string, modRevision: int)

  datatype WatchResponse = WatchResponse(events: seq<WatchEvent>, revision: int)

  datatype CompareTarget = ModRevision | UnknownTarget

  datatype Cmp = Cmp(key: string, target: CompareTarget, op: string, value: int)

  datatype Op = OpPut(key: string, value: string) | OpDelete(key: string) | OpUnknown

  datatype Txn = Txn(compares: seq<Cmp>, onSuccess: seq<Op>, onFailure: seq<Op>)

  datatype TxnResponse = TxnResponse(succeeded: bool, revision: int)

  datatype EtcdError = UnsupportedCompare | UnsupportedOp

  /** A buffered Go channel: what is queued, and whether it was closed. */
  datatype Chan = Chan(queue: seq<WatchResponse>, closed: bool)

  /** `watchers` maps the registered IDs to their prefixes; `chans` keeps every channel handed out. */
  datatype ClientState = ClientState(
    revision: int,
    kv: map<string, KvPair>,
    watchers: map<nat, string>,
    nextID: nat,
    chans: map<nat, Chan>)

  const EMPTY_CLIENT := ClientState(0, map[], map[], 0, map[])

  // ---------- Transactions ----------

  datatype Verdict = Passed | Failed | Unsupported

  function ModRevisionOf(kv: map<string, KvPair>, key: string): int {
    if key in kv then kv[key].modRevision else 0
  }

  function Compare(kv: map<string, KvPair>, c: Cmp): Verdict {
    if c.target != ModRevision || c.op != "=" then Unsupported
    else if ModRevisionOf(kv, c.key) == c.value then Passed
    else Failed
  }

  /** The first comparison that does not pass decides; later ones are not looked at. */
  function CompareAll(kv: map<string, KvPair>, cmps: seq<Cmp>): Verdict {
    if cmps == [] then Passed
    else
      var v := Compare(kv, cmps[0]);
      if v == Passed then CompareAll(kv, cmps[1..]) else v
  }

  /** What the operations have done so far; `ok` turns false at an unsupported one. */
  datatype Progress = Progress(revision: int, kv: map<string, KvPair>, events: seq<WatchEvent>, ok: bool)

  function ApplyOp(p: Progress, op: Op): Progress {
    match op
    case OpPut(k, v) =>
      var r := p.revision + 1;
      Progress(r, p.kv[k := KvPair(v, r)], p.events + [WatchEvent(PutEvent, k, v, r)], true)
    case OpDelete(k) =>
      if k in p.kv then
        var r := p.revision + 1;
        Progress(r, p.kv - {k}, p.events + [WatchEvent(DeleteEvent, k, "", r)], true)
      else p
    case OpUnknown => p.(ok := false)
  }

  function ApplyOps(p: Progress, ops: seq<Op>): Progress
    decreases |ops|
  {
    if ops == [] || !p.ok then p else ApplyOps(ApplyOp(p, ops[0]), ops[1..])
  }

  /** A send inside a `select` with a default: a full buffer drops the response. */
  function Offer(c: Chan, r: WatchResponse): Chan {
    if |c.queue| < CHANNEL_CAPACITY then c.(queue := c.queue + [r]) else c
  }

  function Deliver(s: ClientState, evt: WatchEvent): ClientState {
    s.(chans := map id | id in s.chans ::
         if id in s.watchers && s.watchers[id] <= evt.key
         then Offer(s.chans[id], WatchResponse([evt], s.revision))
         else s.chans[id])
  }

  function Notify(s: ClientState, events: seq<WatchEvent>): ClientState
    decreases |events|
  {
    if events == [] then s else Notify(Deliver(s, events[0]), events[1..])
  }

  datatype Committed = Committed(state: ClientState, outcome: Result<TxnResponse, EtcdError>, events: seq<WatchEvent>)

  function ChosenOps(txn: Txn, success: bool): seq<Op> {
    if success then txn.onSuccess else txn.onFailure
  }

  /** Txn.Commit up to the sends; an unsupported operation leaves the ones before it applied. */
  function CommitStore(s: ClientState, txn: Txn): Committed {
    var verdict := CompareAll(s.kv, txn.compares);
    if verdict == Unsupported then Committed(s, Err(UnsupportedCompare), [])
    else
      var p := ApplyOps(Progress(s.revision, s.kv, [], true), ChosenOps(txn, verdict == Passed));
      Committed(s.(revision := p.revision, kv := p.kv),
                if p.ok then Ok(TxnResponse(verdict == Passed, p.revision)) else Err(UnsupportedOp), p.events)
  }

  /** All of Txn.Commit, with nobody receiving meanwhile; a failed transaction tells no watcher. */
  function CommitTxn(s: ClientState, txn: Txn): Committed {
    var c := CommitStore(s, txn);
    if c.outcome.Ok? then c.(state := Notify(c.state, c.events)) else c
  }

  // ---------- What a transaction means ----------

  predicate Supported(c: Cmp) { c.target == ModRevision && c.op == "=" }

  /** The key has that mod-revision; 0 stands for a missing key. */
  predicate Holds(kv: map<string, KvPair>, c: Cmp) {
    Supported(c) && c.value == if c.key in kv then kv[c.key].modRevision else 0
  }

  /** The guards pass iff all hold; they fail to be evaluated iff the first one not to hold is of an unknown kind. */
  lemma {:induction false} GuardsMean(kv: map<string, KvPair>, cmps: seq<Cmp>)
    ensures CompareAll(kv, cmps) == Passed <==> forall i :: 0 <= i < |cmps| ==> Holds(kv, cmps[i])
    ensures CompareAll(kv, cmps) == Unsupported <==> exists i :: FirstUnsupported(kv, cmps, i)
  {
    if cmps != [] {
      GuardsMean(kv, cmps[1..]);
      assert forall i :: 1 <= i < |cmps| ==> cmps[i] == cmps[1..][i - 1];
      if i :| FirstUnsupported(kv, cmps[1..], i) && Holds(kv, cmps[0]) { assert FirstUnsupported(kv, cmps, i + 1); }
      if i :| FirstUnsupported(kv, cmps, i) && i > 0 { assert FirstUnsupported(kv, cmps[1..], i - 1); }
      if !Supported(cmps[0]) { assert FirstUnsupported(kv, cmps, 0); }
    }
  }

  predicate FirstUnsupported(kv: map<string, KvPair>, cmps: seq<Cmp>, i: int) {
    0 <= i < |cmps| && !Supported(cmps[i]) && forall j :: 0 <= j < i ==> Holds(kv, cmps[j])
  }

  predicate On(op: Op, key: string) { !op.OpUnknown? && op.key == key }

  /** Operation `i` is the last one on the key. */
  predicate LastOn(ops: seq<Op>, key: string, i: int) {
    0 <= i < |ops| && On(ops[i], key) && forall j :: i < j < |ops| ==> !On(ops[j], key)
  }

  /** What the operations make of one key: the last one on it decides. */
  ghost predicate Settles(ops: seq<Op>, key: string, before: map<string, KvPair>, after: map<string, KvPair>) {
    && ((forall j :: 0 <= j < |ops| ==> !On(ops[j], key)) ==>
          (key in after <==> key in before) && (key in before ==> after[key] == before[key]))
    && (forall i :: LastOn(ops, key, i) ==>
          if ops[i].OpPut? then key in after && after[key].value == ops[i].value else key !in after)
  }

  lemma {:induction false} OpsSettle(p: Progress, ops: seq<Op>, key: string)
    requires p.ok && ApplyOps(p, ops).ok
    ensures Settles(ops, key, p.kv, ApplyOps(p, ops).kv)
    decreases |ops|
  {
    if ops != [] {
      var p', rest := ApplyOp(p, ops[0]), ops[1..];
      assert !ops[0].OpUnknown? by { ApplyOpsGrows(p, ops); if ops[0].OpUnknown? { assert FirstUnknown(ops, 0); } }
      OpsSettle(p', rest, key);
      assert forall i :: 1 <= i < |ops| ==> ops[i] == rest[i - 1];
      forall i | LastOn(ops, key, i)
        ensures var after := ApplyOps(p, ops).kv;
                if ops[i].OpPut? then key in after && after[key].value == ops[i].value else key !in after
      {
        if i > 0 { assert LastOn(rest, key, i - 1); }
      }
    }
  }

  /**
   A transaction whose guards can be evaluated and whose chosen branch knows all its operations succeeds; it reports
   whether the guards held, runs the first branch iff they did, and leaves every key as the last operation on it says.
   */
  lemma CommitMeans(s: ClientState, txn: Txn)
    ensures var c := CommitStore(s, txn);
            var held := forall i :: 0 <= i < |txn.compares| ==> Holds(s.kv, txn.compares[i]);
            var ops := if held then txn.onSuccess else txn.onFailure;
            && (c.outcome.Ok? <==>
                  && (forall i :: !FirstUnsupported(s.kv, txn.compares, i))
                  && forall j :: 0 <= j < |ops| ==> !ops[j].OpUnknown?)
            && (c.outcome.Ok? ==>
                  && c.outcome.value == TxnResponse(held, c.state.revision)
                  && forall key :: Settles(ops, key, s.kv, c.state.kv))
  {
    GuardsMean(s.kv, txn.compares);
    var verdict := CompareAll(s.kv, txn.compares);
    if verdict != Unsupported {
      var p, ops := Progress(s.revision, s.kv, [], true), ChosenOps(txn, verdict == Passed);
      ApplyOpsGrows(p, ops);
      FirstUnknownExists(ops);
      if ApplyOps(p, ops).ok {
        forall key ensures Settles(ops, key, s.kv, ApplyOps(p, ops).kv) { OpsSettle(p, ops, key); }
      }
    }
  }

  lemma {:induction false} FirstUnknownExists(ops: seq<Op>)
    ensures (exists j: nat :: FirstUnknown(ops, j)) <==> exists j :: 0 <= j < |ops| && ops[j].OpUnknown?
  {
    if ops != [] {
      var n, front := |ops| - 1, ops[..|ops| - 1];
      FirstUnknownExists(front);
      assert forall i :: 0 <= i < n ==> front[i] == ops[i];
      if j: nat :| FirstUnknown(front, j) {
        assert FirstUnknown(ops, j);
      } else if ops[n].OpUnknown? {
        assert FirstUnknown(ops, n);
      }
    }
  }

  /** An operation that would change the key map by itself. */
  predicate Changes(kv: map<string, KvPair>, op: Op) {
    op.OpPut? || (op.OpDelete? && op.key in kv)
  }

  predicate FirstUnknown(ops: seq<Op>, j: nat) {
    j < |ops| && ops[j].OpUnknown? && forall k :: 0 <= k < j ==> !ops[k].OpUnknown?
  }

  /** An operation that changes something comes before the first unsupported one. */
  predicate Torn(kv: map<string, KvPair>, ops: seq<Op>) {
    exists i, j :: 0 <= i < j < |ops| && Changes(kv, ops[i]) && FirstUnknown(ops, j)
  }

  lemma {:induction false} ApplyOpsGrows(p: Progress, ops: seq<Op>)
    requires p.ok
    ensures var q := ApplyOps(p, ops);
            && q.revision >= p.revision
            && (q.revision == p.revision ==> q.kv == p.kv && q.events == p.events)
            && (!q.ok <==> exists j: nat :: FirstUnknown(ops, j))
    decreases |ops|
  {
    if ops != [] && !ops[0].OpUnknown? {
      ApplyOpsGrows(ApplyOp(p, ops[0]), ops[1..]);
      if j: nat :| FirstUnknown(ops[1..], j) {
        assert forall k :: 1 <= k <= j + 1 ==> ops[k] == ops[1..][k - 1];
        assert FirstUnknown(ops, j + 1);
      }
      if j: nat :| FirstUnknown(ops, j) { assert FirstUnknown(ops[1..], j - 1); }
    } else if ops != [] {
      assert FirstUnknown(ops, 0);
    }
  }

  lemma {:induction false} ApplyOpsTorn(p: Progress, ops: seq<Op>)
    requires p.ok
    ensures !ApplyOps(p, ops).ok && ApplyOps(p, ops).revision != p.revision <==> Torn(p.kv, ops)
    decreases |ops|
  {
    if ops != [] && !ops[0].OpUnknown? {
      ApplyOpsGrows(p, ops);
      ApplyOpsGrows(ApplyOp(p, ops[0]), ops[1..]);
      if !Changes(p.kv, ops[0]) {
        ApplyOpsTorn(p, ops[1..]);
        TornTail(p.kv, ops);
      } else if j: nat :| FirstUnknown(ops, j) {
        assert 0 < j && Changes(p.kv, ops[0]);
      }
    }
  }

  lemma TornTail(kv: map<string, KvPair>, ops: seq<Op>)
    requires ops != [] && !ops[0].OpUnknown? && !Changes(kv, ops[0])
    ensures Torn(kv, ops) <==> Torn(kv, ops[1..])
  {
    if i, j :| 0 <= i < j < |ops| && Changes(kv, ops[i]) && FirstUnknown(ops, j) {
      assert ops[1..][i - 1] == ops[i] && FirstUnknown(ops[1..], j - 1);
    }
    if i, j :| 0 <= i < j < |ops[1..]| && Changes(kv, ops[1..][i]) && FirstUnknown(ops[1..], j) {
      assert forall k :: 1 <= k <= j + 1 ==> ops[k] == ops[1..][k - 1];
      assert ops[i + 1] == ops[1..][i] && FirstUnknown(ops, j + 1);
    }
  }

  /** A transaction fails and yet changes the store exactly when its chosen branch is torn; no channel learns of it. */
  lemma FailsWithEffectIff(s: ClientState, txn: Txn)
    ensures var c, verdict := CommitTxn(s, txn), CompareAll(s.kv, txn.compares);
            && (c.outcome.Err? && c.state != s <==>
                verdict != Unsupported && Torn(s.kv, ChosenOps(txn, verdict == Passed)))
            && (c.outcome.Err? ==> c.state == s.(revision := c.state.revision, kv := c.state.kv))
  {
    var verdict := CompareAll(s.kv, txn.compares);
    if verdict != Unsupported {
      var p, ops := Progress(s.revision, s.kv, [], true), ChosenOps(txn, verdict == Passed);
      ApplyOpsGrows(p, ops);
      ApplyOpsTorn(p, ops);
    }
  }

  /** A put followed by an unsupported operation: the transaction fails, the put stays. */
  lemma FailedPutStays(key: string, value: string)
    ensures var c := CommitTxn(EMPTY_CLIENT, Txn([], [OpPut(key, value), OpUnknown], []));
            && c.outcome == Err(UnsupportedOp)
            && c.state == EMPTY_CLIENT.(revision := 1, kv := map[key := KvPair(value, 1)])
  {
    var p, ops := Progress(0, map[], [], true), [OpPut(key, value), OpUnknown];
    assert ops[1..] == [OpUnknown] && ops[1..][1..] == [];
    assert ApplyOps(p, ops) == ApplyOps(ApplyOp(ApplyOp(p, ops[0]), OpUnknown), []);
  }

  function AddWatcher(s: ClientState, prefix: string): ClientState {
    var id := s.nextID + 1;
    s.(nextID := id, watchers := s.watchers[id := prefix], chans := s.chans[id := Chan([], false)])
  }

  function PutTxn(key: string, value: string): Txn { Txn([], [OpPut(key, value)], []) }

  lemma PutStored(s: ClientState, key: string, value: string)
    ensures var r := s.revision + 1;
            CommitStore(s, PutTxn(key, value)) ==
            Committed(s.(revision := r, kv := s.kv[key := KvPair(value, r)]), Ok(TxnResponse(true, r)),
                      [WatchEvent(PutEvent, key, value, r)])
  {
    var op := OpPut(key, value);
    var p := Progress(s.revision, s.kv, [], true);
    assert [op][1..] == [];
    assert ApplyOps(ApplyOp(p, op), []) == ApplyOp(p, op);
    assert ApplyOps(p, [op]) == ApplyOp(p, op);
    assert CompareAll(s.kv, PutTxn(key, value).compares) == Passed;
  }

  lemma PutTxnCommits(s: ClientState, key: string, value: string)
    ensures var c := CommitTxn(s, PutTxn(key, value));
            var r := s.revision + 1;
            && c.state.revision == r && c.state.kv == s.kv[key := KvPair(value, r)]
            && c.outcome == Ok(TxnResponse(true, r))
            && c.events == [WatchEvent(PutEvent, key, value, r)]
  {
    PutStored(s, key, value);
    NotifyKeepsStore(CommitStore(s, PutTxn(key, value)).state, [WatchEvent(PutEvent, key, value, s.revision + 1)]);
  }

  lemma {:induction false} NotifyKeepsStore(s: ClientState, events: seq<WatchEvent>)
    ensures var s' := Notify(s, events);
            s' == s.(chans := s'.chans) && s'.chans.Keys == s.chans.Keys
    decreases |events|
  {
    if events != [] {
      NotifyKeepsStore(Deliver(s, events[0]), events[1..]);
    }
  }

  /** Notify takes a state apart channel by channel: each watcher sees the events as if it were alone. */
  function OfferAll(c: Chan, events: seq<WatchEvent>, prefix: string, revision: int): Chan
    decreases |events|
  {
    if events == [] then c
    else
      var c' := if prefix <= events[0].key then Offer(c, WatchResponse([events[0]], revision)) else c;
      OfferAll(c', events[1..], prefix, revision)
  }

  lemma {:induction false} NotifyOne(s: ClientState, events: seq<WatchEvent>, id: nat)
    requires id in s.chans
    ensures id in Notify(s, events).chans
    ensures Notify(s, events).chans[id] ==
            if id in s.watchers then OfferAll(s.chans[id], events, s.watchers[id], s.revision) else s.chans[id]
    decreases |events|
  {
    if events != [] {
      NotifyOne(Deliver(s, events[0]), events[1..], id);
    }
  }

  // ---------- The client object ----------

  /** The channels when all watchers but those in `todo` have been offered the event. */
  function AnnouncedTo(s: ClientState, evt: WatchEvent, todo: set<nat>): map<nat, Chan> {
    map id | id in s.chans ::
      if id in s.watchers && id !in todo && s.watchers[id] <= evt.key
      then Offer(s.chans[id], WatchResponse([evt], s.revision))
      else s.chans[id]
  }

  lemma AnnounceOne(s: ClientState, evt: WatchEvent, todo: set<nat>, id: nat)
    requires id in todo && id in s.watchers && id in s.chans
    ensures AnnouncedTo(s, evt, todo)[id] == s.chans[id]
    ensures AnnouncedTo(s, evt, todo - {id}) ==
            if s.watchers[id] <= evt.key
            then AnnouncedTo(s, evt, todo)[id := Offer(s.chans[id], WatchResponse([evt], s.revision))]
            else AnnouncedTo(s, evt, todo)
  {
  }

  /** One entry per key of `keys`, as stored, in some order. */
  ghost predicate ListsOnce(kvs: seq<KeyValue>, kv: map<string, KvPair>, keys: set<string>) {
    && (forall i, j :: 0 <= i < j < |kvs| ==> kvs[i].key != kvs[j].key)
    && (forall i :: 0 <= i < |kvs| ==>
          kvs[i].key in keys && kvs[i].key in kv && KvPair(kvs[i].value, kvs[i].modRevision) == kv[kvs[i].key])
    && (forall k :: k in keys ==> exists i :: 0 <= i < |kvs| && kvs[i].key == k)
  }

  lemma ListOneMore(kvs: seq<KeyValue>, kv: map<string, KvPair>, keys: set<string>, k: string)
    requires ListsOnce(kvs, kv, keys) && k in kv && k !in keys
    ensures ListsOnce(kvs + [KeyValue(k, kv[k].value, kv[k].modRevision)], kv, keys + {k})
  {
    var more := kvs + [KeyValue(k, kv[k].value, kv[k].modRevision)];
    forall x | x in keys + {k} ensures exists i :: 0 <= i < |more| && more[i].key == x {
      if x == k {
        assert more[|kvs|].key == x;
      } else {
        var i :| 0 <= i < |kvs| && kvs[i].key == x;
        assert more[i].key == x;
      }
    }
  }

  /** internal/metadata/etcdsim/etcdsim.go:11-17; every method body runs under the client's lock. */
  class Client {
    var revision: int
    var kv: map<string, KvPair>
    var watchers: map<nat, string>
    var nextID: nat
    var chans: map<nat, Chan>

    ghost function State(): ClientState
      reads this
    {
      ClientState(revision, kv, watchers, nextID, chans)
    }

    /** Registered watchers have open channels, so no send ever meets a closed one. */
    ghost predicate Valid()
      reads this
    {
      && watchers.Keys <= chans.Keys
      && (forall id :: id in watchers ==> !chans[id].closed)
      && (forall id :: id in chans ==> id <= nextID)
    }

    constructor ()
      ensures Valid() && State() == EMPTY_CLIENT
    {
      revision, kv, watchers, nextID, chans := 0, map[], map[], 0, map[];
    }

    /** The loop over the comparisons. */
    method Guards(compares: seq<Cmp>) returns (verdict: Verdict)
      ensures verdict == CompareAll(kv, compares)
    {
      var success := true;
      var i := 0;
      while i < |compares|
        invariant 0 <= i <= |compares|
        invariant success ==> CompareAll(kv, compares) == CompareAll(kv, compares[i..])
        invariant !success ==> CompareAll(kv, compares) == Failed
      {
        var cmp := compares[i];
        assert compares[i..][1..] == compares[i + 1..];
        if cmp.target != ModRevision || cmp.op != "=" {
          return Unsupported;
        }
        var current := 0;
        if cmp.key in kv {
          current := kv[cmp.key].modRevision;
        }
        if current != cmp.value {
          success := false;
        }
        if !success {
          break;
        }
        i := i + 1;
      }
      return if success then Passed else Failed;
    }

    method Commit(txn: Txn) returns (r: Result<TxnResponse, EtcdError>)
      requires Valid()
      modifies this
      ensures Valid()
      ensures State() == CommitTxn(old(State()), txn).state
      ensures r == CommitTxn(old(State()), txn).outcome
    {
      var verdict := Guards(txn.compares);
      if verdict == Unsupported {
        return Err(UnsupportedCompare);
      }
      var success := verdict == Passed;
      var ops := if success then txn.onSuccess else txn.onFailure;
      if |ops| == 0 {
        return Ok(TxnResponse(success, revision));
      }
      var events := [];
      ghost var target := ApplyOps(Progress(revision, kv, [], true), ops);
      var j := 0;
      while j < |ops|
        invariant 0 <= j <= |ops| && Valid()
        invariant State() == old(State()).(revision := revision, kv := kv)
        invariant ApplyOps(Progress(revision, kv, events, true), ops[j..]) == target
      {
        assert ops[j..][1..] == ops[j + 1..];
        match ops[j] {
          case OpPut(key, value) =>
            revision := revision + 1;
            kv := kv[key := KvPair(value, revision)];
            events := events + [WatchEvent(PutEvent, key, value, revision)];
          case OpDelete(key) =>
            if key in kv {
              revision := revision + 1;
              kv := kv - {key};
              events := events + [WatchEvent(DeleteEvent, key, "", revision)];
            }
          case OpUnknown =>
            return Err(UnsupportedOp);
        }
        j := j + 1;
      }
      if |events| > 0 {
        NotifyWatchers(events);
      }
      return Ok(TxnResponse(success, revision));
    }

    /** Walks the watchers in an arbitrary order; the result does not depend on it. */
    method Announce(evt: WatchEvent)
      requires Valid()
      modifies this`chans
      ensures Valid()
      ensures State() == Deliver(old(State()), evt)
    {
      var todo: set<nat> := watchers.Keys;
      ghost var start := State();
      assert chans == AnnouncedTo(start, evt, todo);
      while todo != {}
        invariant todo <= watchers.Keys && chans == AnnouncedTo(start, evt, todo)
      {
        var id :| id in todo;
        AnnounceOne(start, evt, todo, id);
        todo := todo - {id};
        if watchers[id] <= evt.key {
          assert !chans[id].closed;
          if |chans[id].queue| < CHANNEL_CAPACITY {
            chans := chans[id := chans[id].(queue := chans[id].queue + [WatchResponse([evt], revision)])];
          }
        }
      }
    }

    method NotifyWatchers(events: seq<WatchEvent>)
      requires Valid()
      modifies this`chans
      ensures Valid()
      ensures State() == Notify(old(State()), events)
    {
      if |watchers| == 0 {
        NobodyToNotify(State(), events);
        return;
      }
      var i := 0;
      while i < |events|
        invariant 0 <= i <= |events| && Valid()
        invariant Notify(State(), events[i..]) == Notify(old(State()), events)
      {
        Announce(events[i]);
        assert events[i..][1..] == events[i + 1..];
        i := i + 1;
      }
    }

    /** The pair under the key or, with `prefix`, every pair whose key starts with it, in any order. */
    method Get(key: string, prefix: bool) returns (kvs: seq<KeyValue>, revision: int)
      ensures revision == this.revision
      ensures !prefix ==> kvs == if key in kv then [KeyValue(key, kv[key].value, kv[key].modRevision)] else []
      ensures prefix ==> ListsOnce(kvs, kv, set k | k in kv && key <= k)
    {
      revision := this.revision;
      kvs := [];
      if prefix {
        var todo := kv.Keys;
        ghost var listed := {};
        while todo != {}
          invariant todo <= kv.Keys && ListsOnce(kvs, kv, listed)
          invariant listed == set k | k in kv && k !in todo && key <= k
        {
          var k :| k in todo;
          todo := todo - {k};
          if key <= k {
            ListOneMore(kvs, kv, listed, k);
            kvs := kvs + [KeyValue(k, kv[k].value, kv[k].modRevision)];
            listed := listed + {k};
          }
        }
        assert listed == set k | k in kv && key <= k;
        return;
      }
      if key in kv {
        kvs := [KeyValue(key, kv[key].value, kv[key].modRevision)];
      }
    }

    /** The convenience Put outside a transaction. */
    method Put(key: string, value: string) returns (r: Result<TxnResponse, EtcdError>)
      requires Valid()
      modifies this
      ensures Valid()
      ensures State() == CommitTxn(old(State()), PutTxn(key, value)).state
      ensures r == Ok(TxnResponse(true, old(revision) + 1))
      ensures revision == old(revision) + 1 && kv == old(kv)[key := KvPair(value, old(revision) + 1)]
    {
      PutTxnCommits(State(), key, value);
      r := Commit(PutTxn(key, value));
    }

    method Watch(prefix: string) returns (id: nat)
      requires Valid()
      modifies this
      ensures Valid()
      ensures State() == AddWatcher(old(State()), prefix) && id == nextID
      ensures id == old(nextID) + 1 && watchers == old(watchers)[id := prefix]
      ensures chans == old(chans)[id := Chan([], false)]
    {
      nextID := nextID + 1;
      id := nextID;
      chans := chans[id := Chan([], false)];
      watchers := watchers[id := prefix];
    }

    method RemoveWatcher(id: nat)
      requires Valid()
      modifies this`watchers
      ensures Valid()
      ensures watchers == old(watchers) - {id}
    {
      if id in watchers {
        watchers := watchers - {id};
      }
    }

    /** The last act of a watch goroutine; closing twice would panic, so it is excluded. */
    method CloseChannel(id: nat)
      requires Valid() && id in chans && id !in watchers && !chans[id].closed
      modifies this`chans
      ensures Valid()
      ensures chans == old(chans)[id := old(chans)[id].(closed := true)]
    {
      chans := chans[id := chans[id].(closed := true)];
    }
  }

  lemma {:induction false} NobodyToNotify(s: ClientState, events: seq<WatchEvent>)
    requires |s.watchers| == 0
    ensures Notify(s, events) == s
    decreases |events|
  {
    if events != [] {
      assert Deliver(s, events[0]) == s;
      NobodyToNotify(s, events[1..]);
    }
  }
}

/**
 The concurrent protocol of internal/metadata/service.go: any number of PutMetadata, DeleteMetadata and GetMetadata
 calls, each advancing one locked step at a time, in any order.

 A run is a sequence of actions, each either invoking a call or letting one call take its next step. `history` lists
 the calls in the order in which they took effect. It is a history variable, and so are `Call.born`, the length of the
 history at the invocation, `Call.readAt`, at the current attempt's tx.Get, and `Call.failed`, the windows of the
 attempts that failed to commit.
 */
module MetadataProtocol {
  import opened Prelude
  import opened Pgxsim
  import opened Etcdsim

  datatype Config = Config(maxRetries: nat, keyPrefix: string, encode: Record -> string)

  function EtcdKey(cfg: Config, key: string): string { cfg.keyPrefix + key }

  datatype Request =
    | PutReq(key: string, value: string, attributes: map<string, string>, expectedVersion: int, expectedRevision: int)
    | DeleteReq(key: string, expectedVersion: int, expectedRevision: int)
    | GetReq(key: string)

  /** What a call did to the store; the last two come from argument checking and from an exhausted retry budget. */
  datatype Outcome =
    | Stored(rec: Record)
    | Deleted
    | Found(rec: Record)
    | Missing
    | Mismatch
    | Rejected
    | Exhausted

  datatype Mirror = NotTried | Mirrored(revision: int) | Conflict

  datatype Phase =
    | Begin(attempt: nat)
    | Deciding(attempt: nat, tx: TxState, existing: Option<Record>)
    | Committing(attempt: nat, tx: TxState, outcome: Outcome)
    | Mirroring(outcome: Outcome)
    | Done(outcome: Outcome, mirror: Mirror)

  /** The part of the history between an attempt's tx.Get and its Commit. */
  datatype Window = Window(from: nat, to: nat)

  datatype Call = Call(req: Request, phase: Phase, born: nat, readAt: nat, failed: seq<Window>)

  datatype Effect = Effect(id: nat, req: Request, outcome: Outcome)

  datatype World = World(entries: Entries, etcd: ClientState, calls: map<nat, Call>, history: seq<Effect>)

  datatype Action = Invoke(id: nat, req: Request) | Advance(id: nat)

  const START := World(map[], EMPTY_CLIENT, map[], [])

  predicate Mutates(outcome: Outcome) { outcome.Stored? || outcome.Deleted? }

  // ---------- The code's steps ----------

  function Mode(req: Request): AccessMode {
    if req.GetReq? then ReadOnly else ReadWrite
  }

  /** The branches between tx.Get and the buffered write; None means the call goes on to write. */
  function Decide(req: Request, existing: Option<Record>): Option<Outcome> {
    match req
    case PutReq(_, _, _, expectedVersion, _) =>
      if expectedVersion > 0 then
        if existing.None? then Some(Missing)
        else if existing.value.version != expectedVersion then Some(Mismatch)
        else None
      else None
    case DeleteReq(_, expectedVersion, _) =>
      if existing.None? then Some(Missing)
      else if expectedVersion > 0 && existing.value.version != expectedVersion then Some(Mismatch)
      else None
    case GetReq(_) =>
      if existing.None? then Some(Missing) else Some(Found(existing.value))
  }

  function NewRecord(req: Request, existing: Option<Record>): Record
    requires req.PutReq?
  {
    Record(req.key, req.value, req.attributes, if existing.Some? then existing.value.version + 1 else 1)
  }

  function Buffer(req: Request, attempt: nat, tx: TxState, existing: Option<Record>): Phase {
    match req
    case PutReq(_, _, _, _, _) =>
      var rec := NewRecord(req, existing);
      (match TxPut(tx, rec)
       case Ok(tx') => Committing(attempt, tx', Stored(rec))
       case Err(_) => Done(Rejected, NotTried))
    case DeleteReq(key, _, _) =>
      (match TxDelete(tx, key)
       case Ok(tx') => Committing(attempt, tx', Deleted)
       case Err(_) => Done(Rejected, NotTried))
    case GetReq(_) => Done(Rejected, NotTried)
  }

  /** The etcd transaction that mirrors a stored record or a deletion. */
  function MirrorTxn(cfg: Config, req: Request, outcome: Outcome): Txn
    requires !req.GetReq? && Mutates(outcome)
  {
    var ekey := EtcdKey(cfg, req.key);
    Txn(if req.expectedRevision >= 0 then [Cmp(ekey, ModRevision, "=", req.expectedRevision)] else [],
        [if outcome.Stored? then OpPut(ekey, cfg.encode(outcome.rec)) else OpDelete(ekey)],
        [])
  }

  function SetPhase(w: World, id: nat, phase: Phase): World
    requires id in w.calls
  {
    w.(calls := w.calls[id := w.calls[id].(phase := phase)])
  }

  function StepGet(w: World, id: nat, attempt: nat): World
    requires id in w.calls
  {
    var req := w.calls[id].req;
    var (tx, existing) := TxGet(FreshTx(Mode(req)), w.entries, req.key);
    var w' := w.(calls := w.calls[id := w.calls[id].(phase := Deciding(attempt, tx, existing), readAt := |w.history|)]);
    match Decide(req, existing)
    case Some(outcome) => w'.(history := w.history + [Effect(id, req, outcome)])
    case None => w'
  }

  function StepCommit(cfg: Config, w: World, id: nat, attempt: nat, tx: TxState, outcome: Outcome): World
    requires id in w.calls
  {
    var call := w.calls[id];
    var (_, entries, err) := TxCommit(tx, w.entries);
    if err == None then
      SetPhase(w, id, Mirroring(outcome)).(entries := entries,
        history := w.history + [Effect(id, w.calls[id].req, outcome)])
    else if err == Some(ErrSerialization) then
      var phase := if attempt + 1 < cfg.maxRetries then Begin(attempt + 1) else Done(Exhausted, NotTried);
      var failed := call.failed + [Window(call.readAt, |w.history|)];
      w.(calls := w.calls[id := call.(phase := phase, failed := failed)])
    else SetPhase(w, id, Done(Rejected, NotTried))
  }

  function StepMirror(cfg: Config, w: World, id: nat, outcome: Outcome): World
    requires id in w.calls
  {
    if w.calls[id].req.GetReq? || !Mutates(outcome) then w
    else
      var c := CommitTxn(w.etcd, MirrorTxn(cfg, w.calls[id].req, outcome));
      var mirror := if c.outcome.Ok? && c.outcome.value.succeeded then Mirrored(c.outcome.value.revision) else Conflict;
      SetPhase(w, id, Done(outcome, mirror)).(etcd := c.state)
  }

  function Step(cfg: Config, w: World, a: Action): World {
    match a
    case Invoke(id, req) =>
      if id in w.calls then w
      else
        var phase := if req.key == "" then Done(Rejected, NotTried) else Begin(0);
        w.(calls := w.calls[id := Call(req, phase, |w.history|, |w.history|, [])])
    case Advance(id) =>
      if id !in w.calls then w
      else
        var req := w.calls[id].req;
        match w.calls[id].phase
        case Begin(attempt) => StepGet(w, id, attempt)
        case Deciding(attempt, tx, existing) =>
          (match Decide(req, existing)
           case Some(outcome) => SetPhase(w, id, Done(outcome, NotTried))
           case None => SetPhase(w, id, Buffer(req, attempt, tx, existing)))
        case Committing(attempt, tx, outcome) => StepCommit(cfg, w, id, attempt, tx, outcome)
        case Mirroring(outcome) => StepMirror(cfg, w, id, outcome)
        case Done(_, _) => w
  }

  function Exec(cfg: Config, actions: seq<Action>): World {
    if actions == [] then START
    else Step(cfg, Exec(cfg, actions[..|actions| - 1]), actions[|actions| - 1])
  }

  // ---------- The atomic versioned map ----------

  /** The whole of a call as one indivisible operation on the map. */
  function Atomic(entries: Entries, req: Request): (Entries, Outcome) {
    var old_ := Find(entries, req.key);
    match req
    case GetReq(_) => (entries, if old_.Some? then Found(old_.value) else Missing)
    case PutReq(key, value, attributes, expected, _) =>
      if expected > 0 && old_.None? then (entries, Missing)
      else if expected > 0 && old_.value.version != expected then (entries, Mismatch)
      else
        var rec := Record(key, value, attributes, VersionOf(old_) + 1);
        (entries[key := rec], Stored(rec))
    case DeleteReq(key, expected, _) =>
      if old_.None? then (entries, Missing)
      else if expected > 0 && old_.value.version != expected then (entries, Mismatch)
      else (entries - {key}, Deleted)
  }

  /** What an outcome says happened, told by the request and the map before and after alone. */
  ghost predicate Means(before: Entries, req: Request, after: Entries, outcome: Outcome) {
    var key := req.key;
    match outcome
    case Stored(rec) =>
      && req.PutReq? && (req.expectedVersion > 0 ==> key in before && before[key].version == req.expectedVersion)
      && rec.key == key && rec.value == req.value && rec.attributes == req.attributes
      && rec.version == (if key in before then before[key].version + 1 else 1)
      && after == before[key := rec]
    case Deleted =>
      && req.DeleteReq? && key in before && (req.expectedVersion > 0 ==> before[key].version == req.expectedVersion)
      && after == before - {key}
    case Found(rec) => req.GetReq? && key in before && rec == before[key] && after == before
    case Missing => key !in before && (req.PutReq? ==> req.expectedVersion > 0) && after == before
    case Mismatch =>
      && !req.GetReq? && key in before && req.expectedVersion > 0 && before[key].version != req.expectedVersion
      && after == before
    case _ => false
  }

  /** The atomic operation does what its outcome means, and nothing else fits. */
  lemma {:induction false} AtomicMeans(entries: Entries, req: Request, left: Entries, outcome: Outcome)
    requires Keyed(entries)
    ensures Means(entries, req, left, outcome) <==> Atomic(entries, req) == (left, outcome)
  {
  }

  /** Runs a history on the atomic map; None if some call reports an outcome the map does not give. */
  function ReplayAtomic(history: seq<Effect>): Option<Entries> {
    if history == [] then Some(map[])
    else
      var e := history[|history| - 1];
      match ReplayAtomic(history[..|history| - 1])
      case None => None
      case Some(entries) =>
        var (entries', outcome) := Atomic(entries, e.req);
        if outcome == e.outcome then Some(entries') else None
  }

  // ---------- Invariants ----------

  /** The buffered transaction writes what the atomic operation would, as long as the key still has version `v`. */
  predicate Prepared(req: Request, tx: TxState, outcome: Outcome) {
    && req.key in tx.readset
    && var v := tx.readset[req.key];
    && v >= 0 && tx.mode == ReadWrite && !tx.committed && !tx.rolled && tx.readset == map[req.key := v]
    && match req
       case PutReq(key, value, attributes, expected, _) =>
         var rec := Record(key, value, attributes, v + 1);
         (expected > 0 ==> v == expected) && tx.writes == map[key := rec] && tx.deletes == {} && outcome == Stored(rec)
       case DeleteReq(key, expected, _) =>
         v >= 1 && (expected > 0 ==> v == expected) && tx.writes == map[] && tx.deletes == {key} && outcome == Deleted
       case GetReq(_) => false
  }

  predicate CallInv(call: Call) {
    match call.phase
    case Begin(_) => true
    case Deciding(_, tx, existing) =>
      && tx == FreshTx(Mode(call.req)).(readset := map[call.req.key := VersionOf(existing)])
      && (existing.Some? ==> existing.value.version >= 1 && existing.value.key == call.req.key)
    case Committing(_, tx, outcome) => Prepared(call.req, tx, outcome)
    case Mirroring(outcome) => !call.req.GetReq? && Mutates(outcome)
    case Done(_, _) => true
  }

  /** The outcome a call has already taken effect with, if any. */
  function Effective(call: Call): Option<Outcome> {
    match call.phase
    case Begin(_) => None
    case Deciding(_, _, existing) => Decide(call.req, existing)
    case Committing(_, _, _) => None
    case Mirroring(outcome) => Some(outcome)
    case Done(outcome, _) => if outcome.Rejected? || outcome.Exhausted? then None else Some(outcome)
  }

  ghost predicate InHistory(history: seq<Effect>, id: nat) {
    exists i :: 0 <= i < |history| && history[i].id == id
  }

  /** A call is in the history once, with its request and outcome, iff it has taken effect. */
  ghost predicate HistoryOf(history: seq<Effect>, id: nat, call: Call) {
    match Effective(call)
    case None => !InHistory(history, id)
    case Some(outcome) =>
      exists i ::
        && 0 <= i < |history| && history[i] == Effect(id, call.req, outcome)
        && forall j :: 0 <= j < |history| && history[j].id == id ==> j == i
  }

  ghost predicate Inv(w: World) {
    && WellFormed(w.entries)
    && ReplayAtomic(w.history) == Some(w.entries)
    && (forall id :: id in w.calls ==> CallInv(w.calls[id]))
  }

  ghost predicate HistoryInv(w: World) {
    && (forall i :: 0 <= i < |w.history| ==> w.history[i].id in w.calls)
    && (forall id :: id in w.calls ==> HistoryOf(w.history, id, w.calls[id]))
  }

  // ---------- Linearizability ----------

  lemma AppendReplay(history: seq<Effect>, e: Effect, entries: Entries)
    requires ReplayAtomic(history) == Some(entries)
    ensures var (entries', outcome) := Atomic(entries, e.req);
            ReplayAtomic(history + [e]) == if outcome == e.outcome then Some(entries') else None
  {
    assert (history + [e])[..|history|] == history;
  }

  /** A successful commit is the atomic operation, even if the key was rewritten in between at the same version. */
  lemma CommitIsAtomic(entries: Entries, req: Request, tx: TxState, outcome: Outcome)
    requires WellFormed(entries) && Prepared(req, tx, outcome) && Validates(tx, entries)
    ensures TxCommit(tx, entries).2 == None
    ensures Atomic(entries, req) == (TxCommit(tx, entries).1, outcome)
    ensures WellFormed(TxCommit(tx, entries).1)
  {
    assert VersionOf(Find(entries, req.key)) == tx.readset[req.key];
    assert Apply(tx, entries) == Atomic(entries, req).0;
  }

  lemma GetInv(w: World, id: nat, attempt: nat)
    requires Inv(w) && id in w.calls
    ensures Inv(StepGet(w, id, attempt))
  {
    var req, w' := w.calls[id].req, StepGet(w, id, attempt);
    var d := Decide(req, Find(w.entries, req.key));
    if d.Some? { AppendReplay(w.history, Effect(id, req, d.value), w.entries); }
    ReadInv(w.calls[id], w.entries, attempt, |w.history|);
    forall x | x in w'.calls ensures CallInv(w'.calls[x]) {
      if x != id { assert CallInv(w.calls[x]); }
    }
  }

  lemma ReadInv(call: Call, entries: Entries, attempt: nat, readAt: nat)
    requires WellFormed(entries)
    ensures var (tx, existing) := TxGet(FreshTx(Mode(call.req)), entries, call.req.key);
            CallInv(call.(phase := Deciding(attempt, tx, existing), readAt := readAt))
  {
  }

  lemma CommitInv(cfg: Config, w: World, id: nat, attempt: nat, tx: TxState, outcome: Outcome)
    requires Inv(w) && id in w.calls && Prepared(w.calls[id].req, tx, outcome)
    ensures Inv(StepCommit(cfg, w, id, attempt, tx, outcome))
  {
    if Validates(tx, w.entries) {
      CommitIsAtomic(w.entries, w.calls[id].req, tx, outcome);
      AppendReplay(w.history, Effect(id, w.calls[id].req, outcome), w.entries);
    }
  }

  lemma BufferInv(call: Call, attempt: nat, tx: TxState, existing: Option<Record>)
    requires CallInv(call.(phase := Deciding(attempt, tx, existing))) && Decide(call.req, existing).None?
    ensures CallInv(call.(phase := Buffer(call.req, attempt, tx, existing)))
    ensures Buffer(call.req, attempt, tx, existing).Committing?
  {
  }

  lemma StepInv(cfg: Config, w: World, a: Action)
    requires Inv(w)
    ensures Inv(Step(cfg, w, a))
  {
    if a.Advance? && a.id in w.calls {
      var call := w.calls[a.id];
      assert CallInv(call);
      match call.phase
      case Begin(attempt) => GetInv(w, a.id, attempt);
      case Deciding(attempt, tx, existing) =>
        if Decide(call.req, existing).None? { BufferInv(call, attempt, tx, existing); }
      case Committing(attempt, tx, outcome) => CommitInv(cfg, w, a.id, attempt, tx, outcome);
      case _ =>
    }
  }

  /** A step concerns one call, and extends the history exactly when that call takes effect. */
  ghost predicate Concerns(w: World, w': World, id: nat) {
    && id in w'.calls && w'.calls == w.calls[id := w'.calls[id]]
    && (id in w.calls ==> w'.calls[id].req == w.calls[id].req)
    && if w'.history == w.history then
         id in w.calls ==> Effective(w'.calls[id]) == Effective(w.calls[id])
       else
         && id in w.calls && Effective(w.calls[id]) == None && Effective(w'.calls[id]).Some?
         && w'.history == w.history + [Effect(id, w.calls[id].req, Effective(w'.calls[id]).value)]
  }

  lemma StepConcerns(cfg: Config, w: World, a: Action)
    requires Inv(w) && (a.Advance? ==> a.id in w.calls)
    ensures Step(cfg, w, a) == w || Concerns(w, Step(cfg, w, a), a.id)
    ensures a.id !in w.calls ==> Effective(Step(cfg, w, a).calls[a.id]) == None
  {
    if a.Advance? {
      var call := w.calls[a.id];
      assert CallInv(call);
      if call.phase.Deciding? && Decide(call.req, call.phase.existing).None? {
        BufferInv(call, call.phase.attempt, call.phase.tx, call.phase.existing);
      }
    }
  }

  lemma SameHistory(history: seq<Effect>, e: Effect, id: nat, call: Call)
    requires HistoryOf(history, id, call) && e.id != id
    ensures HistoryOf(history + [e], id, call)
  {
    if Effective(call).Some? {
      var i :| 0 <= i < |history| && history[i] == Effect(id, call.req, Effective(call).value) &&
               forall j :: 0 <= j < |history| && history[j].id == id ==> j == i;
      assert (history + [e])[i] == history[i];
    }
  }

  lemma NewHistory(history: seq<Effect>, e: Effect, call: Call)
    requires !InHistory(history, e.id) && e.req == call.req && Effective(call) == Some(e.outcome)
    ensures HistoryOf(history + [e], e.id, call)
  {
    var i := |history|;
    assert (history + [e])[i] == e;
    assert forall j :: 0 <= j < |history| ==> (history + [e])[j] == history[j] && history[j].id != e.id;
  }

  lemma ConcernsHistory(w: World, w': World, id: nat)
    requires HistoryInv(w) && Concerns(w, w', id)
    requires id !in w.calls ==> Effective(w'.calls[id]) == None
    ensures HistoryInv(w')
  {
    forall x | x in w'.calls ensures HistoryOf(w'.history, x, w'.calls[x]) {
      if x in w.calls {
        assert HistoryOf(w.history, x, w.calls[x]);
        if w'.history != w.history {
          var e := Effect(id, w.calls[id].req, Effective(w'.calls[id]).value);
          if x == id { NewHistory(w.history, e, w'.calls[x]); } else { SameHistory(w.history, e, x, w.calls[x]); }
        }
      }
    }
  }

  lemma StepHistory(cfg: Config, w: World, a: Action)
    requires Inv(w) && HistoryInv(w)
    ensures HistoryInv(Step(cfg, w, a))
  {
    if a.Invoke? || a.id in w.calls {
      StepConcerns(cfg, w, a);
      if Step(cfg, w, a) != w { ConcernsHistory(w, Step(cfg, w, a), a.id); }
    }
  }

  lemma {:induction false} Invariant(cfg: Config, actions: seq<Action>)
    ensures Inv(Exec(cfg, actions)) && HistoryInv(Exec(cfg, actions))
  {
    if actions != [] {
      var w := Exec(cfg, actions[..|actions| - 1]);
      Invariant(cfg, actions[..|actions| - 1]);
      StepInv(cfg, w, actions[|actions| - 1]);
      StepHistory(cfg, w, actions[|actions| - 1]);
    }
  }
}

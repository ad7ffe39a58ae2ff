/** How etcd follows the store: the second half of PutMetadata and DeleteMetadata. */
module MetadataMirror {
  import opened Pgxsim
  import opened Etcdsim
  import opened MetadataProtocol

  /** What the mirroring transaction does to the etcd keys. */
  lemma MirrorEffect(cfg: Config, s: ClientState, req: Request, outcome: Outcome)
    requires !req.GetReq? && Mutates(outcome)
    ensures var ekey, c := cfg.keyPrefix + req.key, CommitTxn(s, MirrorTxn(cfg, req, outcome));
            var passes := req.expectedRevision < 0 || ModRevisionOf(s.kv, ekey) == req.expectedRevision;
            && c.outcome.Ok? && c.outcome.value.succeeded == passes
            && (!passes ==> c.state == s)
            && (passes ==> c.outcome.value.revision ==
                           if outcome.Deleted? && ekey !in s.kv then s.revision else s.revision + 1)
            && c.state.kv == (if !passes then s.kv
                              else if outcome.Stored? then s.kv[ekey := KvPair(cfg.encode(outcome.rec), s.revision + 1)]
                              else s.kv - {ekey})
  {
    var txn := MirrorTxn(cfg, req, outcome);
    if req.expectedRevision >= 0 {
      assert txn.compares[1..] == [];
      assert CompareAll(s.kv, []) == Passed;
    }
    var verdict := CompareAll(s.kv, txn.compares);
    var p := Progress(s.revision, s.kv, [], true);
    assert txn.onSuccess[1..] == [];
    assert ApplyOps(ApplyOp(p, txn.onSuccess[0]), []) == ApplyOp(p, txn.onSuccess[0]);
    assert ApplyOps(p, txn.onSuccess) == ApplyOp(p, txn.onSuccess[0]);
    assert ApplyOps(p, txn.onFailure) == p;
    var q := ApplyOps(p, ChosenOps(txn, verdict == Passed));
    NotifyKeepsStore(s.(revision := q.revision, kv := q.kv), q.events);
  }

  // ---------- Under any concurrency, etcd holds only records the store once held ----------

  ghost predicate CommittedEarlier(cfg: Config, history: seq<Effect>, ekey: string, value: string) {
    exists i ::
      && 0 <= i < |history| && history[i].outcome.Stored?
      && cfg.keyPrefix + history[i].req.key == ekey && cfg.encode(history[i].outcome.rec) == value
  }

  ghost predicate Backed(cfg: Config, w: World) {
    forall ekey :: ekey in w.etcd.kv ==> CommittedEarlier(cfg, w.history, ekey, w.etcd.kv[ekey].value)
  }

  lemma LongerHistory(cfg: Config, h: seq<Effect>, h': seq<Effect>, ekey: string, value: string)
    requires h <= h' && CommittedEarlier(cfg, h, ekey, value)
    ensures CommittedEarlier(cfg, h', ekey, value)
  {
    var i :| 0 <= i < |h| && h[i].outcome.Stored? && EtcdKey(cfg, h[i].req.key) == ekey &&
             cfg.encode(h[i].outcome.rec) == value;
    assert h'[i] == h[i];
  }

  lemma StepTouchesEtcd(cfg: Config, w: World, a: Action)
    requires Inv(w)
    ensures var w' := Step(cfg, w, a);
            w.history <= w'.history &&
            (w'.etcd != w.etcd ==>
               && a.Advance? && a.id in w.calls && w.calls[a.id].phase.Mirroring? && w'.history == w.history
               && w' == StepMirror(cfg, w, a.id, w.calls[a.id].phase.outcome))
  {
  }

  lemma {:induction false} EtcdHoldsCommittedRecords(cfg: Config, actions: seq<Action>)
    ensures Backed(cfg, Exec(cfg, actions))
  {
    if actions != [] {
      var w, a := Exec(cfg, actions[..|actions| - 1]), actions[|actions| - 1];
      EtcdHoldsCommittedRecords(cfg, actions[..|actions| - 1]);
      Invariant(cfg, actions[..|actions| - 1]);
      StepTouchesEtcd(cfg, w, a);
      var w' := Step(cfg, w, a);
      if w'.etcd != w.etcd {
        MirrorBacked(cfg, w, a.id);
      }
      forall ekey | ekey in w'.etcd.kv ensures CommittedEarlier(cfg, w'.history, ekey, w'.etcd.kv[ekey].value) {
        if w'.etcd == w.etcd { LongerHistory(cfg, w.history, w'.history, ekey, w.etcd.kv[ekey].value); }
      }
    }
  }

  lemma MirrorBacked(cfg: Config, w: World, id: nat)
    requires Inv(w) && HistoryInv(w) && Backed(cfg, w) && id in w.calls && w.calls[id].phase.Mirroring?
    ensures Backed(cfg, StepMirror(cfg, w, id, w.calls[id].phase.outcome))
  {
    var call := w.calls[id];
    assert CallInv(call) && HistoryOf(w.history, id, call);
    var outcome := call.phase.outcome;
    MirrorEffect(cfg, w.etcd, call.req, outcome);
    if outcome.Stored? {
      assert CommittedEarlier(cfg, w.history, EtcdKey(cfg, call.req.key), cfg.encode(outcome.rec));
    }
  }

  // ---------- Writers of a key that do not overlap keep etcd equal to the store ----------

  predicate Writing(call: Call) { !call.req.GetReq? && !call.phase.Done? }

  /** A mutating call starts only when no other one on its key is in flight, and passes a negative revision. */
  ghost predicate TurnsAt(w: World, a: Action) {
    a.Invoke? && a.id !in w.calls && !a.req.GetReq? ==>
      && a.req.expectedRevision < 0
      && forall id :: id in w.calls && Writing(w.calls[id]) ==> w.calls[id].req.key != a.req.key
  }

  ghost predicate TakesTurns(cfg: Config, actions: seq<Action>) {
    forall i :: 0 <= i < |actions| ==> TurnsAt(Exec(cfg, actions[..i]), actions[i])
  }

  ghost predicate InSync(cfg: Config, w: World, key: string) {
    var ekey := cfg.keyPrefix + key;
    && (ekey in w.etcd.kv <==> key in w.entries)
    && (key in w.entries ==> w.etcd.kv[ekey].value == cfg.encode(w.entries[key]))
  }

  predicate Mirrors(call: Call, key: string) { call.phase.Mirroring? && call.req.key == key }

  /** The store already shows the outcome that a mirroring call is about to copy. */
  ghost predicate Pending(w: World, call: Call) {
    call.phase.Mirroring? ==>
      match call.phase.outcome
      case Stored(rec) => call.req.key in w.entries && w.entries[call.req.key] == rec
      case Deleted => call.req.key !in w.entries
      case _ => false
  }

  ghost predicate OneWriter(w: World) {
    && (forall id :: id in w.calls && !w.calls[id].req.GetReq? ==> w.calls[id].req.expectedRevision < 0)
    && (forall i, j :: i in w.calls && j in w.calls && i != j && Writing(w.calls[i]) && Writing(w.calls[j]) ==>
          w.calls[i].req.key != w.calls[j].req.key)
  }

  ghost predicate SyncInv(cfg: Config, w: World) {
    && OneWriter(w)
    && (forall id :: id in w.calls ==> Pending(w, w.calls[id]))
    && (forall key :: InSync(cfg, w, key) || exists id :: id in w.calls && Mirrors(w.calls[id], key))
  }

  lemma PrefixInjective(cfg: Config, a: string, b: string)
    requires EtcdKey(cfg, a) == EtcdKey(cfg, b)
    ensures a == b
  {
    assert a == EtcdKey(cfg, a)[|cfg.keyPrefix|..];
    assert b == EtcdKey(cfg, b)[|cfg.keyPrefix|..];
  }

  lemma MirrorKeepsSync(cfg: Config, w: World, id: nat)
    requires Inv(w) && SyncInv(cfg, w) && id in w.calls && w.calls[id].phase.Mirroring?
    ensures SyncInv(cfg, StepMirror(cfg, w, id, w.calls[id].phase.outcome))
  {
    var call, w' := w.calls[id], StepMirror(cfg, w, id, w.calls[id].phase.outcome);
    assert CallInv(call) && Pending(w, call);
    MirrorEffect(cfg, w.etcd, call.req, call.phase.outcome);
    forall key ensures InSync(cfg, w', key) || exists x :: x in w'.calls && Mirrors(w'.calls[x], key) {
      if key != call.req.key {
        if EtcdKey(cfg, key) == EtcdKey(cfg, call.req.key) { PrefixInjective(cfg, key, call.req.key); }
        if !InSync(cfg, w, key) {
          var x :| x in w.calls && Mirrors(w.calls[x], key);
          assert Mirrors(w'.calls[x], key);
        }
      }
    }
    forall x | x in w'.calls ensures Pending(w', w'.calls[x]) { assert Pending(w, w.calls[x]); }
  }

  lemma CommitKeepsPending(cfg: Config, w: World, id: nat, attempt: nat, tx: TxState, outcome: Outcome)
    requires Inv(w) && SyncInv(cfg, w) && id in w.calls && w.calls[id].phase == Committing(attempt, tx, outcome)
    ensures var w' := StepCommit(cfg, w, id, attempt, tx, outcome);
            forall x :: x in w'.calls ==> Pending(w', w'.calls[x])
  {
    var call, w' := w.calls[id], StepCommit(cfg, w, id, attempt, tx, outcome);
    assert CallInv(call);
    if Validates(tx, w.entries) { CommitIsAtomic(w.entries, call.req, tx, outcome); }
    forall x | x in w'.calls ensures Pending(w', w'.calls[x]) {
      assert Pending(w, w.calls[x]);
      if x != id && w.calls[x].phase.Mirroring? {
        assert CallInv(w.calls[x]);
        assert Find(w'.entries, w.calls[x].req.key) == Find(w.entries, w.calls[x].req.key);
      }
    }
  }

  lemma CommitKeepsSync(cfg: Config, w: World, id: nat, attempt: nat, tx: TxState, outcome: Outcome)
    requires Inv(w) && SyncInv(cfg, w) && id in w.calls && w.calls[id].phase == Committing(attempt, tx, outcome)
    ensures SyncInv(cfg, StepCommit(cfg, w, id, attempt, tx, outcome))
  {
    var w' := StepCommit(cfg, w, id, attempt, tx, outcome);
    CommitKeepsPending(cfg, w, id, attempt, tx, outcome);
    forall key ensures InSync(cfg, w', key) || exists x :: x in w'.calls && Mirrors(w'.calls[x], key) {
      CommitKeepsKey(cfg, w, id, attempt, tx, outcome, key);
    }
  }

  lemma CommitKeepsKey(cfg: Config, w: World, id: nat, attempt: nat, tx: TxState, outcome: Outcome, key: string)
    requires Inv(w) && SyncInv(cfg, w) && id in w.calls && w.calls[id].phase == Committing(attempt, tx, outcome)
    ensures var w' := StepCommit(cfg, w, id, attempt, tx, outcome);
            InSync(cfg, w', key) || exists x :: x in w'.calls && Mirrors(w'.calls[x], key)
  {
    var call, w' := w.calls[id], StepCommit(cfg, w, id, attempt, tx, outcome);
    assert CallInv(call);
    if Validates(tx, w.entries) { CommitIsAtomic(w.entries, call.req, tx, outcome); }
    assert key != call.req.key ==> Find(w'.entries, key) == Find(w.entries, key);
    if InSync(cfg, w, key) {
      if key == call.req.key && w'.entries != w.entries { assert Mirrors(w'.calls[id], key); }
    } else {
      var x :| x in w.calls && Mirrors(w.calls[x], key);
      assert Mirrors(w'.calls[x], key);
    }
  }

  lemma QuietKeepsSync(cfg: Config, w: World, a: Action)
    requires Inv(w) && SyncInv(cfg, w) && TurnsAt(w, a)
    requires a.Advance? && a.id in w.calls ==> !w.calls[a.id].phase.Mirroring? && !w.calls[a.id].phase.Committing?
    ensures SyncInv(cfg, Step(cfg, w, a))
  {
    var w' := Step(cfg, w, a);
    QuietStep(cfg, w, a);
    forall x | x in w'.calls ensures Pending(w', w'.calls[x]) {
      if x in w.calls { assert Pending(w, w.calls[x]); }
    }
    forall key ensures InSync(cfg, w', key) || exists x :: x in w'.calls && Mirrors(w'.calls[x], key) {
      if !InSync(cfg, w, key) {
        var x :| x in w.calls && Mirrors(w.calls[x], key);
        assert x in w'.calls && Mirrors(w'.calls[x], key);
      }
    }
  }

  lemma QuietStep(cfg: Config, w: World, a: Action)
    requires Inv(w)
    requires a.Advance? && a.id in w.calls ==> !w.calls[a.id].phase.Mirroring? && !w.calls[a.id].phase.Committing?
    ensures var w' := Step(cfg, w, a);
            && w'.entries == w.entries && w'.etcd == w.etcd && w.calls.Keys <= w'.calls.Keys
            && (forall id :: id in w'.calls && id != a.id ==> id in w.calls && w'.calls[id] == w.calls[id])
            && (a.id in w'.calls && a.id !in w.calls ==>
                  && a.Invoke? && w'.calls[a.id].req == a.req && !w'.calls[a.id].phase.Mirroring?)
            && (a.id in w.calls && w'.calls[a.id] != w.calls[a.id] ==>
                  && w'.calls[a.id].req == w.calls[a.id].req && !w'.calls[a.id].phase.Mirroring?
                  && (Writing(w'.calls[a.id]) ==> Writing(w.calls[a.id])))
  {
    if a.Advance? && a.id in w.calls { assert CallInv(w.calls[a.id]); }
  }

  lemma StepKeepsSync(cfg: Config, w: World, a: Action)
    requires Inv(w) && SyncInv(cfg, w) && TurnsAt(w, a)
    ensures SyncInv(cfg, Step(cfg, w, a))
  {
    if a.Advance? && a.id in w.calls && w.calls[a.id].phase.Mirroring? {
      MirrorKeepsSync(cfg, w, a.id);
    } else if a.Advance? && a.id in w.calls && w.calls[a.id].phase.Committing? {
      var phase := w.calls[a.id].phase;
      CommitKeepsSync(cfg, w, a.id, phase.attempt, phase.tx, phase.outcome);
    } else {
      QuietKeepsSync(cfg, w, a);
    }
  }

  lemma {:induction false} SyncHolds(cfg: Config, actions: seq<Action>)
    requires TakesTurns(cfg, actions)
    ensures SyncInv(cfg, Exec(cfg, actions))
  {
    if actions != [] {
      var n, front := |actions| - 1, actions[..|actions| - 1];
      forall i | 0 <= i < n ensures TurnsAt(Exec(cfg, front[..i]), front[i]) {
        assert front[..i] == actions[..i];
        assert TurnsAt(Exec(cfg, actions[..i]), actions[i]);
      }
      SyncHolds(cfg, front);
      Invariant(cfg, front);
      assert TurnsAt(Exec(cfg, actions[..n]), actions[n]);
      StepKeepsSync(cfg, Exec(cfg, front), actions[n]);
    }
  }

  /**
   When mutating calls on a key take turns and ask for no etcd revision, then for every key with no mutating call in
   flight etcd holds the encoding of the store's record, and holds none exactly when the store has none.
   */
  lemma {:induction false} EtcdFollowsStore(cfg: Config, actions: seq<Action>, key: string)
    requires TakesTurns(cfg, actions)
    requires var w := Exec(cfg, actions);
             forall id :: id in w.calls && Writing(w.calls[id]) ==> w.calls[id].req.key != key
    ensures InSync(cfg, Exec(cfg, actions), key)
  {
    var w := Exec(cfg, actions);
    SyncHolds(cfg, actions);
    Invariant(cfg, actions);
    if !InSync(cfg, w, key) {
      var id :| id in w.calls && Mirrors(w.calls[id], key);
      assert CallInv(w.calls[id]) && Writing(w.calls[id]);
    }
  }
}

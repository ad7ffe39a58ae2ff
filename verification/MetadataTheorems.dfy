/** What every run of the metadata protocol guarantees. */
module MetadataTheorems {
  import opened Prelude
  import opened Pgxsim
  import opened MetadataProtocol

  // ---------- What the calls in a history answer ----------

  /** The last put or delete of the key to take effect before position `i` sits at `p`. */
  ghost predicate LastTouch(h: seq<Effect>, i: nat, key: string, p: int) {
    && 0 <= p < i <= |h| && h[p].req.key == key && (h[p].outcome.Stored? || h[p].outcome.Deleted?)
    && forall q :: p < q < i && h[q].req.key == key ==> !h[q].outcome.Stored? && !h[q].outcome.Deleted?
  }

  /** It was a put, and stored `rec`. */
  ghost predicate HeldBefore(h: seq<Effect>, i: nat, key: string, rec: Record) {
    exists p :: LastTouch(h, i, key, p) && h[p].outcome == Stored(rec)
  }

  /** There was none, or it was a delete. */
  ghost predicate NoneBefore(h: seq<Effect>, i: nat, key: string) {
    forall p :: LastTouch(h, i, key, p) ==> h[p].outcome.Deleted?
  }

  ghost predicate VersionBefore(h: seq<Effect>, i: nat, key: string, version: int) {
    exists rec :: HeldBefore(h, i, key, rec) && rec.version == version
  }

  ghost predicate OtherVersionBefore(h: seq<Effect>, i: nat, key: string, version: int) {
    exists rec :: HeldBefore(h, i, key, rec) && rec.version != version
  }

  /** The call at position `i` answers as the last put or delete of its key before it requires. */
  ghost predicate Answers(h: seq<Effect>, i: nat)
    requires i < |h|
  {
    var outcome := h[i].outcome;
    match h[i].req
    case GetReq(key) =>
      && (outcome.Found? || outcome.Missing?)
      && (outcome.Missing? <==> NoneBefore(h, i, key))
      && forall rec :: outcome == Found(rec) <==> HeldBefore(h, i, key, rec)
    case PutReq(key, value, attributes, expected, _) =>
      && (outcome.Stored? || outcome.Missing? || outcome.Mismatch?)
      && (outcome.Missing? <==> expected > 0 && NoneBefore(h, i, key))
      && (outcome.Mismatch? <==> expected > 0 && OtherVersionBefore(h, i, key, expected))
      && (outcome.Stored? ==>
            && outcome.rec.key == key && outcome.rec.value == value && outcome.rec.attributes == attributes
            && (NoneBefore(h, i, key) ==> outcome.rec.version == 1)
            && forall rec :: HeldBefore(h, i, key, rec) ==> outcome.rec.version == rec.version + 1)
    case DeleteReq(key, expected, _) =>
      && (outcome.Deleted? || outcome.Missing? || outcome.Mismatch?)
      && (outcome.Missing? <==> NoneBefore(h, i, key))
      && (outcome.Mismatch? <==> expected > 0 && OtherVersionBefore(h, i, key, expected))
      && (outcome.Deleted? && expected > 0 ==> VersionBefore(h, i, key, expected))
  }

  lemma TouchMore(h: seq<Effect>, i: nat, key: string, p: int)
    requires i < |h|
    ensures LastTouch(h, i + 1, key, p) <==>
            if h[i].req.key == key && (h[i].outcome.Stored? || h[i].outcome.Deleted?) then p == i
            else LastTouch(h, i, key, p)
  {
  }

  /** The last put or delete of a key decides what the atomic map holds under it. */
  lemma {:induction false} LastTouchDecides(h: seq<Effect>, i: nat, key: string)
    requires i <= |h| && ReplayAtomic(h[..i]).Some?
    ensures Keyed(ReplayAtomic(h[..i]).value)
    ensures match Find(ReplayAtomic(h[..i]).value, key)
            case None => NoneBefore(h, i, key)
            case Some(rec) => HeldBefore(h, i, key, rec)
    decreases i
  {
    if i > 0 {
      assert h[..i][..i - 1] == h[..i - 1];
      LastTouchDecides(h, i - 1, key);
      var before, e := ReplayAtomic(h[..i - 1]).value, h[i - 1];
      AtomicMeans(before, e.req, ReplayAtomic(h[..i]).value, e.outcome);
      forall p
        ensures LastTouch(h, i, key, p) <==>
                if e.req.key == key && (e.outcome.Stored? || e.outcome.Deleted?) then p == i - 1
                else LastTouch(h, i - 1, key, p)
      {
        TouchMore(h, i - 1, key, p);
      }
      if e.req.key == key && (e.outcome.Stored? || e.outcome.Deleted?) { assert LastTouch(h, i, key, i - 1); }
    }
  }

  lemma OneTouch(h: seq<Effect>, i: nat, key: string, p: int, q: int)
    requires LastTouch(h, i, key, p) && LastTouch(h, i, key, q)
    ensures p == q
  {
  }

  /** So exactly one of the two descriptions applies. */
  lemma HeldIff(h: seq<Effect>, i: nat, key: string)
    requires i <= |h| && ReplayAtomic(h[..i]).Some?
    ensures NoneBefore(h, i, key) <==> Find(ReplayAtomic(h[..i]).value, key) == None
    ensures forall rec :: HeldBefore(h, i, key, rec) <==> Find(ReplayAtomic(h[..i]).value, key) == Some(rec)
  {
    LastTouchDecides(h, i, key);
    forall p, q | LastTouch(h, i, key, p) && LastTouch(h, i, key, q) ensures p == q { OneTouch(h, i, key, p, q); }
  }

  lemma ReplayAnswers(h: seq<Effect>, i: nat)
    requires ReplayAtomic(h).Some? && i < |h|
    ensures Answers(h, i)
  {
    ReplayPrefix(h, i);
    ReplayPrefix(h, i + 1);
    assert h[..i + 1][..i] == h[..i];
    LastTouchDecides(h, i, h[i].req.key);
    HeldIff(h, i, h[i].req.key);
    AtomicMeans(ReplayAtomic(h[..i]).value, h[i].req, ReplayAtomic(h[..i + 1]).value, h[i].outcome);
  }

  // ---------- Linearizability ----------

  /**
   The store is the atomic map after the history; a finished call sits in the history exactly once, with the outcome
   it reports, and a call that was rejected or ran out of retries does not sit there at all; and every call in the
   history answers as the last put or delete of its key before it requires.
   */
  lemma Linearizable(cfg: Config, actions: seq<Action>)
    ensures var w := Exec(cfg, actions);
            && ReplayAtomic(w.history) == Some(w.entries)
            && (forall id :: id in w.calls && w.calls[id].phase.Done? ==>
                  var req, outcome := w.calls[id].req, w.calls[id].phase.outcome;
                  if outcome.Rejected? || outcome.Exhausted? then !InHistory(w.history, id)
                  else exists i ::
                    && 0 <= i < |w.history| && w.history[i] == Effect(id, req, outcome)
                    && forall j :: 0 <= j < |w.history| && w.history[j].id == id ==> j == i)
            && forall i :: 0 <= i < |w.history| ==> Answers(w.history, i)
  {
    Invariant(cfg, actions);
    var w := Exec(cfg, actions);
    forall id | id in w.calls && w.calls[id].phase.Done? ensures HistoryOf(w.history, id, w.calls[id]) {}
    forall i | 0 <= i < |w.history| ensures Answers(w.history, i) { ReplayAnswers(w.history, i); }
  }

  /** And the store holds under each key what the last put or delete of it left. */
  lemma StoreHoldsLastTouch(cfg: Config, actions: seq<Action>, key: string)
    ensures var w := Exec(cfg, actions);
            && (key !in w.entries <==> NoneBefore(w.history, |w.history|, key))
            && (key in w.entries ==> HeldBefore(w.history, |w.history|, key, w.entries[key]))
  {
    Invariant(cfg, actions);
    var h := Exec(cfg, actions).history;
    assert h[..|h|] == h;
    HeldIff(h, |h|, key);
  }

  lemma StepGrows(cfg: Config, w: World, a: Action)
    ensures w.history <= Step(cfg, w, a).history && w.calls.Keys <= Step(cfg, w, a).calls.Keys
  {
  }

  lemma {:induction false} HistoryGrows(cfg: Config, actions: seq<Action>, n: nat)
    requires n <= |actions|
    ensures Exec(cfg, actions[..n]).history <= Exec(cfg, actions).history
    ensures Exec(cfg, actions[..n]).calls.Keys <= Exec(cfg, actions).calls.Keys
    decreases |actions|
  {
    if n == |actions| {
      assert actions[..n] == actions;
    } else {
      var front := actions[..|actions| - 1];
      assert front[..n] == actions[..n];
      HistoryGrows(cfg, front, n);
      StepGrows(cfg, Exec(cfg, front), actions[|actions| - 1]);
    }
  }

  /** A call that had finished before another was invoked takes effect before it. */
  lemma {:induction false} RealTimeOrder(cfg: Config, actions: seq<Action>, n: nat, a: nat, b: nat, i: nat, j: nat)
    requires n <= |actions|
    requires a in Exec(cfg, actions[..n]).calls && Exec(cfg, actions[..n]).calls[a].phase.Done?
    requires b !in Exec(cfg, actions[..n]).calls
    requires i < |Exec(cfg, actions).history| && Exec(cfg, actions).history[i].id == a
    requires j < |Exec(cfg, actions).history| && Exec(cfg, actions).history[j].id == b
    ensures i < j
  {
    var early, late := Exec(cfg, actions[..n]), Exec(cfg, actions);
    Invariant(cfg, actions[..n]);
    Invariant(cfg, actions);
    HistoryGrows(cfg, actions, n);
    DoneStaysDone(cfg, actions, n, a);
    assert HistoryOf(early.history, a, early.calls[a]) && HistoryOf(late.history, a, late.calls[a]);
    assert InHistory(late.history, a);
    assert forall k :: 0 <= k < |early.history| ==> early.history[k] == late.history[k];
    assert j >= |early.history|;
    assert i < |early.history|;
  }

  lemma StepKeepsDone(cfg: Config, w: World, a: Action, id: nat)
    requires id in w.calls && w.calls[id].phase.Done?
    ensures id in Step(cfg, w, a).calls && Step(cfg, w, a).calls[id] == w.calls[id]
  {
  }

  lemma {:induction false} DoneStaysDone(cfg: Config, actions: seq<Action>, n: nat, id: nat)
    requires n <= |actions|
    requires id in Exec(cfg, actions[..n]).calls && Exec(cfg, actions[..n]).calls[id].phase.Done?
    ensures id in Exec(cfg, actions).calls && Exec(cfg, actions).calls[id] == Exec(cfg, actions[..n]).calls[id]
    decreases |actions|
  {
    if n == |actions| {
      assert actions[..n] == actions;
    } else {
      var front := actions[..|actions| - 1];
      assert front[..n] == actions[..n];
      DoneStaysDone(cfg, front, n, id);
      StepKeepsDone(cfg, Exec(cfg, front), actions[|actions| - 1], id);
    }
  }

  // ---------- Versions count puts ----------

  /** Successful puts of a key since its last successful delete. */
  function PutsSinceDelete(history: seq<Effect>, key: string): nat {
    if history == [] then 0
    else
      var e, before := history[|history| - 1], PutsSinceDelete(history[..|history| - 1], key);
      if e.req.key != key then before
      else if e.outcome.Stored? then before + 1
      else if e.outcome.Deleted? then 0
      else before
  }

  lemma {:induction false} ReplayCountsPuts(history: seq<Effect>, key: string)
    requires ReplayAtomic(history).Some?
    ensures VersionOf(Find(ReplayAtomic(history).value, key)) == PutsSinceDelete(history, key)
    ensures key in ReplayAtomic(history).value <==> PutsSinceDelete(history, key) > 0
  {
    if history != [] {
      ReplayCountsPuts(history[..|history| - 1], key);
    }
  }

  lemma VersionsCountPuts(cfg: Config, actions: seq<Action>, key: string)
    ensures var w := Exec(cfg, actions);
            && (key in w.entries <==> PutsSinceDelete(w.history, key) > 0)
            && (key in w.entries ==> w.entries[key].version == PutsSinceDelete(w.history, key))
  {
    Invariant(cfg, actions);
    ReplayCountsPuts(Exec(cfg, actions).history, key);
  }

  lemma {:induction false} ReplayPrefix(history: seq<Effect>, n: nat)
    requires n <= |history| && ReplayAtomic(history).Some?
    ensures ReplayAtomic(history[..n]).Some?
    decreases |history|
  {
    if n == |history| {
      assert history[..n] == history;
    } else {
      assert history[..|history| - 1][..n] == history[..n];
      ReplayPrefix(history[..|history| - 1], n);
    }
  }

  lemma StoredVersion(history: seq<Effect>, i: nat)
    requires ReplayAtomic(history).Some? && i < |history| && history[i].outcome.Stored?
    ensures history[i].outcome.rec.version == PutsSinceDelete(history[..i + 1], history[i].req.key)
    ensures history[i].outcome.rec.key == history[i].req.key
  {
    ReplayPrefix(history, i + 1);
    assert history[..i + 1][..i] == history[..i];
    ReplayCountsPuts(history[..i], history[i].req.key);
  }

  lemma {:induction false} PutsOnlyGrow(history: seq<Effect>, m: nat, n: nat, key: string)
    requires m <= n <= |history|
    requires forall k :: m <= k < n && history[k].req.key == key ==> !history[k].outcome.Deleted?
    ensures PutsSinceDelete(history[..m], key) <= PutsSinceDelete(history[..n], key)
    decreases n
  {
    if m < n {
      assert history[..n][..n - 1] == history[..n - 1];
      PutsOnlyGrow(history, m, n - 1, key);
    }
  }

  lemma CountAfterPut(h: seq<Effect>, j: nat)
    requires j < |h| && h[j].outcome.Stored?
    ensures PutsSinceDelete(h[..j + 1], h[j].req.key) == PutsSinceDelete(h[..j], h[j].req.key) + 1
  {
    assert h[..j + 1][..j] == h[..j];
  }

  lemma ReuseNeedsDelete(h: seq<Effect>, i: nat, j: nat)
    requires ReplayAtomic(h).Some? && i < j < |h|
    requires h[i].outcome.Stored? && h[j].outcome.Stored? && h[i].req.key == h[j].req.key
    requires h[i].outcome.rec.version == h[j].outcome.rec.version
    ensures exists k :: i < k < j && h[k].req.key == h[i].req.key && h[k].outcome.Deleted?
  {
    StoredVersion(h, i);
    StoredVersion(h, j);
    CountAfterPut(h, j);
    if forall k :: i + 1 <= k < j && h[k].req.key == h[i].req.key ==> !h[k].outcome.Deleted? {
      PutsOnlyGrow(h, i + 1, j, h[i].req.key);
    }
  }

  /** Two puts of one key return the same version only if a delete of the key took effect between them. */
  lemma VersionReusedOnlyAfterDelete(cfg: Config, actions: seq<Action>, i: nat, j: nat)
    requires i < j < |Exec(cfg, actions).history|
    requires var h := Exec(cfg, actions).history;
             h[i].outcome.Stored? && h[j].outcome.Stored? && h[i].req.key == h[j].req.key &&
             h[i].outcome.rec.version == h[j].outcome.rec.version
    ensures var h := Exec(cfg, actions).history;
            exists k :: i < k < j && h[k].req.key == h[i].req.key && h[k].outcome.Deleted?
  {
    Invariant(cfg, actions);
    ReuseNeedsDelete(Exec(cfg, actions).history, i, j);
  }

  // ---------- Retries are paid for by other commits ----------

  /** A commit to `key` by a call other than `id`. */
  predicate IsForeign(e: Effect, id: nat, key: string) {
    e.id != id && e.req.key == key && Mutates(e.outcome)
  }

  /** How many of them the history holds from position `from` on. */
  function Foreign(history: seq<Effect>, from: nat, id: nat, key: string): nat {
    if |history| <= from then 0
    else
      Foreign(history[..|history| - 1], from, id, key) +
      if IsForeign(history[|history| - 1], id, key) then 1 else 0
  }

  ghost predicate Charged(history: seq<Effect>, id: nat, key: string, win: Window) {
    win.to <= |history| && exists p :: win.from <= p < win.to && IsForeign(history[p], id, key)
  }

  /** One window after the other, none before `from`, each with a foreign commit of its own. */
  ghost predicate AllCharged(history: seq<Effect>, from: nat, id: nat, key: string, windows: seq<Window>) {
    && (forall i :: 0 <= i < |windows| ==> from <= windows[i].from && Charged(history, id, key, windows[i]))
    && (forall i, j :: 0 <= i < j < |windows| ==> windows[i].to <= windows[j].from)
  }

  lemma {:induction false} ForeignSplit(history: seq<Effect>, from: nat, id: nat, key: string, m: nat)
    requires from <= m <= |history|
    requires exists p :: m <= p < |history| && IsForeign(history[p], id, key)
    ensures Foreign(history, from, id, key) >= Foreign(history[..m], from, id, key) + 1
    decreases |history|
  {
    var n, front := |history| - 1, history[..|history| - 1];
    assert front[..m] == history[..m];
    if IsForeign(history[n], id, key) {
      ForeignGrows(front, from, id, key, m);
    } else {
      var p :| m <= p < |history| && IsForeign(history[p], id, key);
      assert front[p] == history[p];
      ForeignSplit(front, from, id, key, m);
    }
  }

  lemma {:induction false} ForeignGrows(history: seq<Effect>, from: nat, id: nat, key: string, m: nat)
    requires from <= m <= |history|
    ensures Foreign(history, from, id, key) >= Foreign(history[..m], from, id, key)
    decreases |history|
  {
    if m == |history| {
      assert history[..m] == history;
    } else {
      assert history[..|history| - 1][..m] == history[..m];
      ForeignGrows(history[..|history| - 1], from, id, key, m);
    }
  }

  /** Disjoint windows with a foreign commit each: there are at least as many foreign commits as windows. */
  lemma {:induction false} ChargesAdd(history: seq<Effect>, from: nat, id: nat, key: string, windows: seq<Window>)
    requires from <= |history| && AllCharged(history, from, id, key, windows)
    ensures Foreign(history, from, id, key) >= |windows|
    decreases |windows|
  {
    if windows != [] {
      var n, win := |windows| - 1, windows[|windows| - 1];
      assert Charged(history, id, key, win);
      var before := history[..win.from];
      forall i | 0 <= i < n ensures Charged(before, id, key, windows[i]) {
        assert Charged(history, id, key, windows[i]) && windows[i].to <= win.from;
        var p :| windows[i].from <= p < windows[i].to && IsForeign(history[p], id, key);
        assert before[p] == history[p];
      }
      ChargesAdd(before, from, id, key, windows[..n]);
      ForeignSplit(history, from, id, key, win.from);
    }
  }

  function VersionAfter(history: seq<Effect>, key: string): int {
    if ReplayAtomic(history).Some? then VersionOf(Find(ReplayAtomic(history).value, key)) else 0
  }

  /** A key's version moves only by an effect on that key. */
  lemma {:induction false} MovedByAnEffect(history: seq<Effect>, m: nat, key: string)
    requires m <= |history| && ReplayAtomic(history).Some?
    requires VersionAfter(history, key) != VersionAfter(history[..m], key)
    ensures exists p :: m <= p < |history| && history[p].req.key == key && Mutates(history[p].outcome)
    decreases |history|
  {
    assert history[..|history|] == history;
    var n, front := |history| - 1, history[..|history| - 1];
    assert front[..m] == history[..m];
    if VersionAfter(front, key) != VersionAfter(front[..m], key) {
      MovedByAnEffect(front, m, key);
      var p :| m <= p < |front| && front[p].req.key == key && Mutates(front[p].outcome);
      assert history[p] == front[p];
    } else {
      assert history[n].req.key == key && Mutates(history[n].outcome);
    }
  }

  /** The attempt under way: its tx.Get saw the version of its key that the history had at `readAt`. */
  ghost predicate UnderWay(cfg: Config, w: World, call: Call, attempt: nat, tx: TxState) {
    && |call.failed| == attempt < cfg.maxRetries
    && call.born <= call.readAt <= |w.history|
    && (forall i :: 0 <= i < attempt ==> call.failed[i].to <= call.readAt)
    && call.req.key in tx.readset
    && VersionAfter(w.history[..call.readAt], call.req.key) == tx.readset[call.req.key]
  }

  /** As many failed attempts as the loop has counted, each charged to a foreign commit of its own. */
  ghost predicate Paid(cfg: Config, w: World, id: nat)
    requires id in w.calls
  {
    var call := w.calls[id];
    && call.born <= |w.history| && AllCharged(w.history, call.born, id, call.req.key, call.failed)
    && match call.phase
       case Begin(attempt) => |call.failed| == attempt < cfg.maxRetries
       case Deciding(attempt, tx, _) => UnderWay(cfg, w, call, attempt, tx)
       case Committing(attempt, tx, _) => UnderWay(cfg, w, call, attempt, tx)
       case Mirroring(_) => true
       case Done(outcome, _) => outcome.Exhausted? ==> |call.failed| == cfg.maxRetries
  }

  ghost predicate AllPaid(cfg: Config, w: World) {
    forall id :: id in w.calls ==> Paid(cfg, w, id)
  }

  lemma LongerHistoryCharged(h: seq<Effect>, h': seq<Effect>, from: nat, id: nat, key: string, windows: seq<Window>)
    requires h <= h' && AllCharged(h, from, id, key, windows)
    ensures AllCharged(h', from, id, key, windows)
  {
    forall i | 0 <= i < |windows| ensures Charged(h', id, key, windows[i]) {
      assert Charged(h, id, key, windows[i]);
      var p :| windows[i].from <= p < windows[i].to && IsForeign(h[p], id, key);
      assert h'[p] == h[p];
    }
  }

  lemma BystanderPaid(cfg: Config, w: World, w': World, id: nat)
    requires id in w.calls && Paid(cfg, w, id) && id in w'.calls && w'.calls[id] == w.calls[id]
    requires w.history <= w'.history
    ensures Paid(cfg, w', id)
  {
    var call := w.calls[id];
    LongerHistoryCharged(w.history, w'.history, call.born, id, call.req.key, call.failed);
    if call.readAt <= |w.history| { assert w'.history[..call.readAt] == w.history[..call.readAt]; }
  }

  lemma GetPaid(cfg: Config, w: World, id: nat, attempt: nat)
    requires Inv(w) && id in w.calls && w.calls[id].phase == Begin(attempt) && Paid(cfg, w, id)
    ensures Paid(cfg, StepGet(w, id, attempt), id)
  {
    var call, w' := w.calls[id], StepGet(w, id, attempt);
    assert w.history <= w'.history && w'.history[..|w.history|] == w.history;
    LongerHistoryCharged(w.history, w'.history, call.born, id, call.req.key, call.failed);
    assert VersionAfter(w.history, call.req.key) == VersionOf(Find(w.entries, call.req.key));
  }

  /** A commit fails only if another call's commit moved the key since this attempt's tx.Get. */
  lemma FailureCharged(cfg: Config, w: World, id: nat, attempt: nat, tx: TxState, outcome: Outcome)
    requires Inv(w) && HistoryInv(w) && id in w.calls && Paid(cfg, w, id)
    requires w.calls[id].phase == Committing(attempt, tx, outcome) && !Validates(tx, w.entries)
    ensures Charged(w.history, id, w.calls[id].req.key, Window(w.calls[id].readAt, |w.history|))
  {
    var call := w.calls[id];
    assert CallInv(call) && HistoryOf(w.history, id, call) && !InHistory(w.history, id);
    MovedByAnEffect(w.history, call.readAt, call.req.key);
  }

  lemma SuccessPaid(cfg: Config, w: World, id: nat, attempt: nat, tx: TxState, outcome: Outcome)
    requires id in w.calls && Paid(cfg, w, id) && Prepared(w.calls[id].req, tx, outcome) && Validates(tx, w.entries)
    ensures Paid(cfg, StepCommit(cfg, w, id, attempt, tx, outcome), id)
  {
    var call := w.calls[id];
    var more := w.history + [Effect(id, call.req, outcome)];
    LongerHistoryCharged(w.history, more, call.born, id, call.req.key, call.failed);
  }

  lemma CommitPaid(cfg: Config, w: World, id: nat, attempt: nat, tx: TxState, outcome: Outcome)
    requires Inv(w) && HistoryInv(w) && id in w.calls && Paid(cfg, w, id)
    requires w.calls[id].phase == Committing(attempt, tx, outcome)
    ensures Paid(cfg, StepCommit(cfg, w, id, attempt, tx, outcome), id)
  {
    assert CallInv(w.calls[id]);
    if Validates(tx, w.entries) {
      SuccessPaid(cfg, w, id, attempt, tx, outcome);
    } else {
      FailureCharged(cfg, w, id, attempt, tx, outcome);
    }
  }

  lemma StepperPaid(cfg: Config, w: World, id: nat)
    requires Inv(w) && HistoryInv(w) && id in w.calls && Paid(cfg, w, id)
    ensures Paid(cfg, Step(cfg, w, Advance(id)), id)
  {
    var call := w.calls[id];
    assert CallInv(call);
    match call.phase
    case Begin(attempt) => GetPaid(cfg, w, id, attempt);
    case Deciding(attempt, tx, existing) =>
      if Decide(call.req, existing).None? { BufferInv(call, attempt, tx, existing); }
    case Committing(attempt, tx, outcome) => CommitPaid(cfg, w, id, attempt, tx, outcome);
    case _ =>
  }

  lemma StepLeavesOthers(cfg: Config, w: World, a: Action)
    ensures var w' := Step(cfg, w, a);
            w.history <= w'.history && w'.calls.Keys <= w.calls.Keys + {a.id} &&
            forall id :: id in w.calls && id != a.id ==> id in w'.calls && w'.calls[id] == w.calls[id]
  {
  }

  /**
   Every failed attempt of a call is charged to a commit of another call to its key between the attempt's own tx.Get
   and its Commit; no two attempts share one, and a call gives up only after maxRetries of them.
   */
  lemma {:induction false} RetriesPaid(cfg: Config, actions: seq<Action>)
    requires cfg.maxRetries >= 1
    ensures AllPaid(cfg, Exec(cfg, actions))
  {
    if actions != [] {
      var w, a := Exec(cfg, actions[..|actions| - 1]), actions[|actions| - 1];
      RetriesPaid(cfg, actions[..|actions| - 1]);
      Invariant(cfg, actions[..|actions| - 1]);
      var w' := Step(cfg, w, a);
      StepLeavesOthers(cfg, w, a);
      forall id | id in w'.calls ensures Paid(cfg, w', id) {
        if id in w.calls {
          assert Paid(cfg, w, id);
          if id == a.id && a.Advance? { StepperPaid(cfg, w, id); } else { BystanderPaid(cfg, w, w', id); }
        }
      }
    }
  }

  /** A call that has returned after n steps, with fewer than maxRetries foreign commits to its key, did not give up. */
  lemma ExhaustedOnlyUnderContention(cfg: Config, actions: seq<Action>, n: nat, id: nat)
    requires cfg.maxRetries >= 1 && n <= |actions|
    requires id in Exec(cfg, actions[..n]).calls && Exec(cfg, actions[..n]).calls[id].phase.Done?
    requires var w := Exec(cfg, actions[..n]);
             Foreign(w.history, w.calls[id].born, id, w.calls[id].req.key) < cfg.maxRetries
    ensures id in Exec(cfg, actions).calls && Exec(cfg, actions).calls[id].phase.Done?
    ensures !Exec(cfg, actions).calls[id].phase.outcome.Exhausted?
  {
    var w := Exec(cfg, actions[..n]);
    RetriesPaid(cfg, actions[..n]);
    assert Paid(cfg, w, id);
    var call := w.calls[id];
    ChargesAdd(w.history, call.born, id, call.req.key, call.failed);
    DoneStaysDone(cfg, actions, n, id);
  }

  // ---------- Every call comes to an end ----------

  /** How many steps of its own a call may still need. */
  function StepsLeft(cfg: Config, call: Call): int {
    match call.phase
    case Begin(attempt) => 3 * (cfg.maxRetries - attempt) + 2
    case Deciding(attempt, _, _) => 3 * (cfg.maxRetries - attempt) + 1
    case Committing(attempt, _, _) => 3 * (cfg.maxRetries - attempt)
    case Mirroring(_) => 1
    case Done(_, _) => 0
  }

  lemma OwnStepCounts(cfg: Config, w: World, id: nat)
    requires id in w.calls && CallInv(w.calls[id]) && Paid(cfg, w, id)
    ensures var call, call' := w.calls[id], Step(cfg, w, Advance(id)).calls[id];
            && StepsLeft(cfg, call) >= 0 && (call.phase.Done? <==> StepsLeft(cfg, call) == 0)
            && (!call.phase.Done? ==> StepsLeft(cfg, call') < StepsLeft(cfg, call))
            && (call.phase.Done? ==> call' == call)
  {
    var call := w.calls[id];
    if call.phase.Deciding? && Decide(call.req, call.phase.existing).None? {
      BufferInv(call, call.phase.attempt, call.phase.tx, call.phase.existing);
    }
  }

  lemma StepUses(cfg: Config, w: World, a: Action, id: nat)
    requires id in w.calls && Inv(w) && AllPaid(cfg, w)
    ensures id in Step(cfg, w, a).calls
    ensures var call, call' := w.calls[id], Step(cfg, w, a).calls[id];
            || call'.phase.Done?
            || (!call.phase.Done? &&
                StepsLeft(cfg, call') + (if a == Advance(id) then 1 else 0) <= StepsLeft(cfg, call))
  {
    assert Paid(cfg, w, id) && CallInv(w.calls[id]);
    OwnStepCounts(cfg, w, id);
    StepLeavesOthers(cfg, w, a);
  }

  /** How many of the actions from position `n` on advance the call. */
  function OwnSteps(actions: seq<Action>, n: nat, id: nat): nat
    requires n <= |actions|
    decreases |actions|
  {
    if n == |actions| then 0
    else OwnSteps(actions[..|actions| - 1], n, id) + if actions[|actions| - 1] == Advance(id) then 1 else 0
  }

  lemma {:induction false} OwnStepsUsed(cfg: Config, actions: seq<Action>, n: nat, id: nat)
    requires cfg.maxRetries >= 1 && n <= |actions| && id in Exec(cfg, actions[..n]).calls
    ensures id in Exec(cfg, actions).calls
    ensures var before, after := Exec(cfg, actions[..n]).calls[id], Exec(cfg, actions).calls[id];
            after.phase.Done? || StepsLeft(cfg, after) + OwnSteps(actions, n, id) <= StepsLeft(cfg, before)
    decreases |actions|
  {
    if n == |actions| {
      assert actions[..n] == actions;
    } else {
      var front, a := actions[..|actions| - 1], actions[|actions| - 1];
      assert front[..n] == actions[..n];
      OwnStepsUsed(cfg, front, n, id);
      RetriesPaid(cfg, front);
      Invariant(cfg, front);
      StepUses(cfg, Exec(cfg, front), a, id);
    }
  }

  /** A call that has taken 3 * maxRetries + 2 steps of its own has returned, whatever the others did meanwhile. */
  lemma {:induction false} CallsReturn(cfg: Config, actions: seq<Action>, n: nat, id: nat)
    requires cfg.maxRetries >= 1 && n <= |actions| && id in Exec(cfg, actions[..n]).calls
    requires OwnSteps(actions, n, id) >= 3 * cfg.maxRetries + 2
    ensures id in Exec(cfg, actions).calls && Exec(cfg, actions).calls[id].phase.Done?
  {
    OwnStepsUsed(cfg, actions, n, id);
    StepsBounded(cfg, actions[..n], id);
    StepsBounded(cfg, actions, id);
  }

  lemma {:induction false} StepsBounded(cfg: Config, actions: seq<Action>, id: nat)
    requires cfg.maxRetries >= 1 && id in Exec(cfg, actions).calls
    ensures var call := Exec(cfg, actions).calls[id];
            0 <= StepsLeft(cfg, call) <= 3 * cfg.maxRetries + 2 && (StepsLeft(cfg, call) == 0 ==> call.phase.Done?)
  {
    RetriesPaid(cfg, actions);
    Invariant(cfg, actions);
    var w := Exec(cfg, actions);
    assert Paid(cfg, w, id) && CallInv(w.calls[id]);
    OwnStepCounts(cfg, w, id);
  }

  ghost predicate RejectsWell(call: Call) {
    call.phase.Done? && call.phase.outcome.Rejected? <==> call.req.key == ""
  }

  ghost predicate AllRejectWell(w: World) {
    forall id :: id in w.calls ==> RejectsWell(w.calls[id])
  }

  /** A call is rejected iff its key is empty. */
  lemma {:induction false} RejectedIffNoKey(cfg: Config, actions: seq<Action>)
    ensures AllRejectWell(Exec(cfg, actions))
  {
    if actions != [] {
      var w, a := Exec(cfg, actions[..|actions| - 1]), actions[|actions| - 1];
      RejectedIffNoKey(cfg, actions[..|actions| - 1]);
      Invariant(cfg, actions[..|actions| - 1]);
      StepAllRejects(cfg, w, a);
    }
  }

  lemma StepAllRejects(cfg: Config, w: World, a: Action)
    requires Inv(w) && AllRejectWell(w)
    ensures AllRejectWell(Step(cfg, w, a))
  {
    var w' := Step(cfg, w, a);
    StepLeavesOthers(cfg, w, a);
    forall id | id in w'.calls ensures RejectsWell(w'.calls[id]) {
      if id in w.calls && id == a.id && a.Advance? {
        assert CallInv(w.calls[id]) && RejectsWell(w.calls[id]);
        StepRejects(cfg, w, id);
      }
    }
  }

  lemma StepRejects(cfg: Config, w: World, id: nat)
    requires id in w.calls && CallInv(w.calls[id]) && RejectsWell(w.calls[id])
    ensures id in Step(cfg, w, Advance(id)).calls && RejectsWell(Step(cfg, w, Advance(id)).calls[id])
  {
    var call := w.calls[id];
    if call.phase.Deciding? && Decide(call.req, call.phase.existing).None? {
      BufferInv(call, call.phase.attempt, call.phase.tx, call.phase.existing);
    }
  }
}

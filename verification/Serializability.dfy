/**
 Multi-key transactions over one store, interleaved in every possible way.

 A run is a sequence of actions; an action that is not enabled changes nothing, so the runs are all interleavings
 of any number of transactions. `accesses`, `fetches`, `committed`, `installed` and `stale` are history variables:
 no step consults them.
 */
module Serializability {
  import opened Prelude
  import opened Pgxsim

  datatype Access = Read(key: string, result: Option<Record>) | Write(rec: Record) | Remove(key: string)

  /** One answer the store itself gave to a transaction. */
  datatype Fetch = Fetch(key: string, result: Option<Record>)

  datatype Session = Session(tx: TxState, accesses: seq<Access>, fetches: seq<Fetch>)

  datatype World = World(
    entries: Entries,
    sessions: map<nat, Session>,
    committed: seq<Session>,
    installed: set<Record>,
    stale: bool)

  datatype Action =
    | Begin(id: nat, mode: AccessMode)
    | Get(id: nat, key: string)
    | Put(id: nat, rec: Record)
    | Delete(id: nat, key: string)
    | Commit(id: nat)
    | Rollback(id: nat)

  function Start(entries: Entries): World {
    World(entries, map[], [], entries.Values, false)
  }

  function Observe(s: Session, entries: Entries, key: string): Session {
    var (tx, r) := TxGet(s.tx, entries, key);
    Session(tx, s.accesses + [Read(key, r)], if ReadsStore(s.tx, key) then s.fetches + [Fetch(key, r)] else s.fetches)
  }

  function StepCommit(w: World, id: nat, s: Session): World {
    var (tx, entries, err) := TxCommit(s.tx, w.entries);
    var w' := w.(entries := entries, sessions := w.sessions[id := s.(tx := tx)]);
    if err.Some? then w'
    else w'.(committed := w.committed + [s],
             installed := w.installed + s.tx.writes.Values,
             stale := w.stale || !AllCurrent(s.fetches, w.entries))
  }

  function Step(w: World, a: Action): World {
    if a.Begin? then
      if a.id in w.sessions then w
      else w.(sessions := w.sessions[a.id := Session(FreshTx(a.mode), [], [])])
    else if a.id !in w.sessions then w
    else
      var s := w.sessions[a.id];
      match a
      case Get(id, key) => w.(sessions := w.sessions[id := Observe(s, w.entries, key)])
      case Put(id, rec) =>
        (match TxPut(s.tx, rec)
         case Err(_) => w
         case Ok(tx) => w.(sessions := w.sessions[id := Session(tx, s.accesses + [Write(rec)], s.fetches)]))
      case Delete(id, key) =>
        (match TxDelete(s.tx, key)
         case Err(_) => w
         case Ok(tx) => w.(sessions := w.sessions[id := Session(tx, s.accesses + [Remove(key)], s.fetches)]))
      case Commit(id) => StepCommit(w, id, s)
      case Rollback(id) => w.(sessions := w.sessions[id := s.(tx := TxRollback(s.tx))])
      case Begin(_, _) => w
  }

  function Exec(start: Entries, actions: seq<Action>): World {
    if actions == [] then Start(start)
    else Step(Exec(start, actions[..|actions| - 1]), actions[|actions| - 1])
  }

  // ---------- The serial reference ----------

  /** Repeats one access of a transaction running alone; a read must give the recorded answer again. */
  function Repeat(tx: TxState, a: Access, entries: Entries): Option<TxState> {
    match a
    case Read(key, r) => var (tx', r') := TxGet(tx, entries, key); if r' == r then Some(tx') else None
    case Write(rec) => (match TxPut(tx, rec) case Ok(tx') => Some(tx') case Err(_) => None)
    case Remove(key) => (match TxDelete(tx, key) case Ok(tx') => Some(tx') case Err(_) => None)
  }

  function RepeatAll(mode: AccessMode, accesses: seq<Access>, entries: Entries): Option<TxState> {
    if accesses == [] then Some(FreshTx(mode))
    else
      match RepeatAll(mode, accesses[..|accesses| - 1], entries)
      case None => None
      case Some(tx) => Repeat(tx, accesses[|accesses| - 1], entries)
  }

  /** Runs the committed transactions one at a time, in commit order; None when an answer differs or a commit fails. */
  function Serial(start: Entries, committed: seq<Session>): Option<Entries> {
    if committed == [] then Some(start)
    else
      var s := committed[|committed| - 1];
      match Serial(start, committed[..|committed| - 1])
      case None => None
      case Some(entries) =>
        match RepeatAll(s.tx.mode, s.accesses, entries)
        case None => None
        case Some(tx) =>
          var (_, entries', err) := TxCommit(tx, entries);
          if err == None then Some(entries') else None
  }

  // ---------- Exactly when a run is serializable ----------

  /** Every answer the store gave is still what the store holds. */
  predicate AllCurrent(fetches: seq<Fetch>, entries: Entries) {
    forall i :: 0 <= i < |fetches| ==> Find(entries, fetches[i].key) == fetches[i].result
  }

  predicate Open(tx: TxState) { !tx.committed && !tx.rolled }

  /** Alone on any store, a transaction gets the same answers iff that store agrees with all its fetches. */
  ghost predicate RepeatsExactly(s: Session) {
    forall e: Entries ::
      RepeatAll(s.tx.mode, s.accesses, e) == if AllCurrent(s.fetches, e) then Some(s.tx) else None
  }

  lemma ObserveRepeats(s: Session, entries: Entries, key: string)
    requires RepeatsExactly(s)
    ensures RepeatsExactly(Observe(s, entries, key))
  {
    var s' := Observe(s, entries, key);
    var (_, r) := TxGet(s.tx, entries, key);
    assert s'.accesses[..|s'.accesses| - 1] == s.accesses;
    forall e: Entries
      ensures RepeatAll(s'.tx.mode, s'.accesses, e) == if AllCurrent(s'.fetches, e) then Some(s'.tx) else None
    {
      assert RepeatAll(s.tx.mode, s.accesses, e) == if AllCurrent(s.fetches, e) then Some(s.tx) else None;
      if ReadsStore(s.tx, key) {
        assert s'.fetches[|s.fetches|] == Fetch(key, r);
        assert AllCurrent(s'.fetches, e) <==> AllCurrent(s.fetches, e) && Find(e, key) == r by {
          if AllCurrent(s'.fetches, e) {
            forall i | 0 <= i < |s.fetches| ensures Find(e, s.fetches[i].key) == s.fetches[i].result {
              assert s'.fetches[i] == s.fetches[i];
            }
          }
        }
      }
    }
  }

  lemma WriteRepeats(s: Session, a: Access, tx: TxState)
    requires RepeatsExactly(s) && !a.Read? && Repeat(s.tx, a, map[]) == Some(tx)
    ensures RepeatsExactly(Session(tx, s.accesses + [a], s.fetches))
  {
    assert (s.accesses + [a])[..|s.accesses|] == s.accesses;
    forall e: Entries
      ensures RepeatAll(tx.mode, s.accesses + [a], e) == if AllCurrent(s.fetches, e) then Some(tx) else None
    {
      assert RepeatAll(s.tx.mode, s.accesses, e) == if AllCurrent(s.fetches, e) then Some(s.tx) else None;
    }
  }

  ghost predicate OpenRepeat(w: World) {
    forall id :: id in w.sessions && Open(w.sessions[id].tx) ==> RepeatsExactly(w.sessions[id])
  }

  lemma {:induction false} StepRepeats(w: World, a: Action)
    requires OpenRepeat(w)
    ensures OpenRepeat(Step(w, a))
  {
    if a.Begin? || a.id !in w.sessions {
      assert RepeatsExactly(Session(FreshTx(ReadOnly), [], [])) && RepeatsExactly(Session(FreshTx(ReadWrite), [], []));
    } else if Open(w.sessions[a.id].tx) {
      var s := w.sessions[a.id];
      match a
      case Get(_, key) => ObserveRepeats(s, w.entries, key);
      case Put(_, rec) => if s.tx.mode.ReadWrite? { WriteRepeats(s, Write(rec), TxPut(s.tx, rec).value); }
      case Delete(_, key) => if s.tx.mode.ReadWrite? { WriteRepeats(s, Remove(key), TxDelete(s.tx, key).value); }
      case _ =>
    }
  }

  /** A run is serializable in commit order iff no transaction committed after an answer it got went out of date. */
  lemma {:induction false} SerializableIff(start: Entries, actions: seq<Action>)
    ensures OpenRepeat(Exec(start, actions))
    ensures var w := Exec(start, actions);
            Serial(start, w.committed) == if w.stale then None else Some(w.entries)
  {
    if actions != [] {
      var before, a := Exec(start, actions[..|actions| - 1]), actions[|actions| - 1];
      SerializableIff(start, actions[..|actions| - 1]);
      StepRepeats(before, a);
      var after := Step(before, a);
      if after.committed != before.committed {
        var s := before.sessions[a.id];
        assert after.committed == before.committed + [s];
        assert after.committed[..|after.committed| - 1] == before.committed;
        assert RepeatAll(s.tx.mode, s.accesses, before.entries) ==
               if AllCurrent(s.fetches, before.entries) then Some(s.tx) else None;
      }
    }
  }

  // ---------- The same reference without transactions ----------

  /** Carries the accesses out on the store itself, one after another; None if a read would answer differently. */
  function Plainly(accesses: seq<Access>, entries: Entries): Option<Entries> {
    if accesses == [] then Some(entries)
    else
      match Plainly(accesses[..|accesses| - 1], entries)
      case None => None
      case Some(now) =>
        match accesses[|accesses| - 1]
        case Read(key, result) =>
          if result == (if key in now then Some(now[key]) else None) then Some(now) else None
        case Write(rec) => Some(now[rec.key := rec])
        case Remove(key) => Some(now - {key})
  }

  function SerialPlainly(start: Entries, committed: seq<Session>): Option<Entries> {
    if committed == [] then Some(start)
    else
      match SerialPlainly(start, committed[..|committed| - 1])
      case None => None
      case Some(entries) => Plainly(committed[|committed| - 1].accesses, entries)
  }

  /** A read-only transaction has only read. */
  predicate ModeKept(s: Session) {
    s.tx.mode == ReadOnly ==> forall i :: 0 <= i < |s.accesses| ==> s.accesses[i].Read?
  }

  /** The state of a transaction that ran alone on `entries`: it is open, and would commit. */
  ghost predicate RanAlone(tx: TxState, mode: AccessMode, entries: Entries) {
    tx.mode == mode && Open(tx) && Validates(tx, entries) && tx.deletes !! tx.writes.Keys
  }

  /** Buffering writes and committing them at the end, reading one's own, comes to doing all of it at once. */
  lemma {:induction false} RepeatIsPlain(mode: AccessMode, accesses: seq<Access>, entries: Entries)
    requires mode == ReadOnly ==> forall i :: 0 <= i < |accesses| ==> accesses[i].Read?
    ensures match RepeatAll(mode, accesses, entries)
            case None => Plainly(accesses, entries) == None
            case Some(tx) => RanAlone(tx, mode, entries) && Plainly(accesses, entries) == Some(Apply(tx, entries))
  {
    if accesses != [] {
      var front, a := accesses[..|accesses| - 1], accesses[|accesses| - 1];
      RepeatIsPlain(mode, front, entries);
      var before := RepeatAll(mode, front, entries);
      if before.Some? { RepeatOne(before.value, mode, a, entries); }
    } else {
      assert Apply(FreshTx(mode), entries) == entries;
    }
  }

  lemma RepeatOne(tx: TxState, mode: AccessMode, a: Access, entries: Entries)
    requires RanAlone(tx, mode, entries) && (mode == ReadOnly ==> a.Read?)
    ensures var now := Apply(tx, entries);
            match a
            case Read(key, result) =>
              (match Repeat(tx, a, entries)
               case None => result != Find(now, key)
               case Some(tx') =>
                 result == Find(now, key) && RanAlone(tx', mode, entries) && Apply(tx', entries) == now)
            case Write(rec) =>
              Repeat(tx, a, entries).Some? && RanAlone(Repeat(tx, a, entries).value, mode, entries) &&
              Apply(Repeat(tx, a, entries).value, entries) == now[rec.key := rec]
            case Remove(key) =>
              Repeat(tx, a, entries).Some? && RanAlone(Repeat(tx, a, entries).value, mode, entries) &&
              Apply(Repeat(tx, a, entries).value, entries) == now - {key}
  {
  }

  lemma {:induction false} SerialIsPlain(start: Entries, committed: seq<Session>)
    requires forall i :: 0 <= i < |committed| ==> ModeKept(committed[i])
    ensures Serial(start, committed) == SerialPlainly(start, committed)
  {
    if committed != [] {
      var s := committed[|committed| - 1];
      SerialIsPlain(start, committed[..|committed| - 1]);
      var before := Serial(start, committed[..|committed| - 1]);
      if before.Some? { RepeatIsPlain(s.tx.mode, s.accesses, before.value); }
    }
  }

  ghost predicate ModesKept(w: World) {
    && (forall id :: id in w.sessions ==> ModeKept(w.sessions[id]))
    && (forall i :: 0 <= i < |w.committed| ==> ModeKept(w.committed[i]))
  }

  lemma {:induction false} RunKeepsModes(start: Entries, actions: seq<Action>)
    ensures ModesKept(Exec(start, actions))
  {
    if actions != [] {
      RunKeepsModes(start, actions[..|actions| - 1]);
      StepKeepsModes(Exec(start, actions[..|actions| - 1]), actions[|actions| - 1]);
    }
  }

  lemma StepKeepsModes(w: World, a: Action)
    requires ModesKept(w)
    ensures ModesKept(Step(w, a))
  {
  }

  /**
   The committed transactions, carried out one after another directly on the store, access by access and with no
   transaction at all, read what they read and leave the same store, iff none committed after an answer went out of
   date.
   */
  lemma PlainlySerializableIff(start: Entries, actions: seq<Action>)
    ensures var w := Exec(start, actions);
            SerialPlainly(start, w.committed) == if w.stale then None else Some(w.entries)
  {
    SerializableIff(start, actions);
    RunKeepsModes(start, actions);
    SerialIsPlain(start, Exec(start, actions).committed);
  }

  // ---------- When comparing versions is enough ----------

  ghost predicate Positive(installed: set<Record>) {
    forall r :: r in installed ==> r.version >= 1
  }

  /** No (key, version) pair ever names two records. */
  ghost predicate Unique(installed: set<Record>) {
    forall r, q :: r in installed && q in installed && r.key == q.key && r.version == q.version ==> r == q
  }

  ghost predicate VersionsIdentify(installed: set<Record>) {
    Positive(installed) && Unique(installed)
  }

  /** A transaction that fetches a key from the store again finds the version it recorded before. */
  ghost predicate StableFetches(start: Entries, actions: seq<Action>) {
    forall i :: 0 <= i < |actions| ==> StableAt(Exec(start, actions[..i]), actions[i])
  }

  predicate StableAt(w: World, a: Action) {
    a.Get? && a.id in w.sessions && Open(w.sessions[a.id].tx) && ReadsStore(w.sessions[a.id].tx, a.key) &&
    a.key in w.sessions[a.id].tx.readset ==>
      VersionOf(Find(w.entries, a.key)) == w.sessions[a.id].tx.readset[a.key]
  }

  ghost predicate Recorded(s: Session, installed: set<Record>) {
    forall i :: 0 <= i < |s.fetches| ==>
      var f := s.fetches[i];
      && f.key in s.tx.readset && s.tx.readset[f.key] == VersionOf(f.result)
      && (f.result.Some? ==> f.result.value in installed && f.result.value.key == f.key)
  }

  ghost predicate Tracked(w: World) {
    && (forall k :: k in w.entries ==> w.entries[k].key == k && w.entries[k] in w.installed)
    && (forall id :: id in w.sessions ==>
          (forall k :: k in w.sessions[id].tx.writes ==> w.sessions[id].tx.writes[k].key == k) &&
          (Open(w.sessions[id].tx) ==> Recorded(w.sessions[id], w.installed)))
  }

  lemma ObserveRecorded(s: Session, w: World, key: string)
    requires Recorded(s, w.installed)
    requires forall k :: k in w.entries ==> w.entries[k].key == k && w.entries[k] in w.installed
    requires ReadsStore(s.tx, key) && key in s.tx.readset ==> VersionOf(Find(w.entries, key)) == s.tx.readset[key]
    ensures Recorded(Observe(s, w.entries, key), w.installed)
  {
  }

  lemma CommitTracked(w: World, id: nat)
    requires Tracked(w) && id in w.sessions
    ensures Tracked(StepCommit(w, id, w.sessions[id])) && w.installed <= StepCommit(w, id, w.sessions[id]).installed
  {
    var s, w' := w.sessions[id], StepCommit(w, id, w.sessions[id]);
    forall i | i in w'.sessions && Open(w'.sessions[i].tx) ensures Recorded(w'.sessions[i], w'.installed) {
      assert i != id && Recorded(w.sessions[i], w.installed);
    }
    forall k | k in w'.entries ensures w'.entries[k].key == k && w'.entries[k] in w'.installed {
      if k in s.tx.writes { assert s.tx.writes[k] in s.tx.writes.Values; }
    }
  }

  lemma StepTracked(w: World, a: Action)
    requires Tracked(w) && StableAt(w, a)
    ensures Tracked(Step(w, a)) && w.installed <= Step(w, a).installed
  {
    if !a.Begin? && a.id in w.sessions {
      var s := w.sessions[a.id];
      if a.Commit? {
        CommitTracked(w, a.id);
      } else if a.Get? && Open(s.tx) {
        ObserveRecorded(s, w, a.key);
      }
    }
  }

  /** What validation compares is then enough: equal versions mean equal records. */
  lemma ValidMeansCurrent(s: Session, w: World)
    requires Tracked(w) && Recorded(s, w.installed) && VersionsIdentify(w.installed) && Validates(s.tx, w.entries)
    ensures AllCurrent(s.fetches, w.entries)
  {
    forall i | 0 <= i < |s.fetches| ensures Find(w.entries, s.fetches[i].key) == s.fetches[i].result {
      var f := s.fetches[i];
      assert VersionOf(Find(w.entries, f.key)) == VersionOf(f.result);
    }
  }

  lemma {:induction false} NeverStale(start: Entries, actions: seq<Action>)
    requires WellFormed(start) && StableFetches(start, actions)
    requires VersionsIdentify(Exec(start, actions).installed)
    ensures Tracked(Exec(start, actions)) && !Exec(start, actions).stale
  {
    if actions != [] {
      var prefix, a := actions[..|actions| - 1], actions[|actions| - 1];
      forall i | 0 <= i < |prefix| ensures StableAt(Exec(start, prefix[..i]), prefix[i]) {
        assert prefix[..i] == actions[..i];
        assert StableAt(Exec(start, actions[..i]), actions[i]);
      }
      var w := Exec(start, prefix);
      assert w.installed <= Step(w, a).installed;
      NeverStale(start, prefix);
      assert StableAt(Exec(start, actions[..|actions| - 1]), a);
      StepTracked(w, a);
      if a.Commit? && a.id in w.sessions && Open(w.sessions[a.id].tx) && Validates(w.sessions[a.id].tx, w.entries) {
        ValidMeansCurrent(w.sessions[a.id], w);
      }
    }
  }

  /** Committed transactions read what they would have read one after another, and leave the same store. */
  lemma {:induction false} Serializable(start: Entries, actions: seq<Action>)
    requires WellFormed(start) && StableFetches(start, actions)
    requires VersionsIdentify(Exec(start, actions).installed)
    ensures Serial(start, Exec(start, actions).committed) == Some(Exec(start, actions).entries)
    ensures SerialPlainly(start, Exec(start, actions).committed) == Some(Exec(start, actions).entries)
  {
    NeverStale(start, actions);
    SerializableIff(start, actions);
    PlainlySerializableIff(start, actions);
  }

  // ---------- Each hypothesis is needed ----------

  function Row(key: string, value: string, version: int): Record {
    Record(key, value, map[], version)
  }

  /** A read-only reader (transaction 0) spans the whole commit of a writer (transaction 1) of the same key. */
  function Overtaken(rec: Option<Record>): seq<Action> {
    [Begin(0, ReadOnly), Begin(1, ReadWrite), Get(0, "k"),
     if rec.Some? then Put(1, rec.value) else Delete(1, "k"), Commit(1), Commit(0)]
  }

  lemma Unroll(start: Entries, actions: seq<Action>, n: nat)
    requires n < |actions|
    ensures Exec(start, actions[..n + 1]) == Step(Exec(start, actions[..n]), actions[n])
  {
    assert actions[..n + 1][..n] == actions[..n];
  }

  ghost predicate ReaderHas(w: World, version: int, fetches: seq<Fetch>) {
    && 0 in w.sessions
    && w.sessions[0].tx == FreshTx(ReadOnly).(readset := map["k" := version])
    && w.sessions[0].fetches == fetches
  }

  ghost predicate WriterIdle(w: World) {
    1 in w.sessions && w.sessions[1] == Session(FreshTx(ReadWrite), [], [])
  }

  lemma BothBegin(start: Entries, actions: seq<Action>)
    requires "k" in start && |actions| >= 3 && actions[..3] == [Begin(0, ReadOnly), Begin(1, ReadWrite), Get(0, "k")]
    ensures var w := Exec(start, actions[..3]);
            w.entries == start && w.committed == [] && w.installed == start.Values && WriterIdle(w) &&
            ReaderHas(w, start["k"].version, [Fetch("k", Some(start["k"]))])
    ensures var w := Exec(start, actions[..2]);
            0 in w.sessions && w.sessions[0].tx == FreshTx(ReadOnly)
  {
    Unroll(start, actions, 0);
    Unroll(start, actions, 1);
    Unroll(start, actions, 2);
    assert forall i :: 0 <= i < 3 ==> actions[i] == actions[..3][i];
    var w1 := Step(Start(start), actions[0]);
    var w2 := Step(w1, actions[1]);
    assert w2.sessions[0] == Session(FreshTx(ReadOnly), [], []);
    assert Step(w2, actions[2]).sessions[0] == Observe(w2.sessions[0], start, "k");
  }

  function Joined(installed: set<Record>, rec: Option<Record>): set<Record> {
    installed + if rec.Some? then {rec.value} else {}
  }

  lemma WriterCommits(w: World, a: Action, rec: Option<Record>)
    requires WriterIdle(w) && w.committed == []
    requires a == if rec.Some? then Put(1, rec.value) else Delete(1, "k")
    requires rec.Some? ==> rec.value.key == "k"
    ensures var w' := Step(Step(w, a), Commit(1));
            Find(w'.entries, "k") == rec && |w'.committed| == 1 && w'.installed == Joined(w.installed, rec) &&
            (0 in w.sessions ==> 0 in w'.sessions && w'.sessions[0] == w.sessions[0])
  {
    var w1 := Step(w, a);
    assert 1 in w1.sessions && Open(w1.sessions[1].tx) && Validates(w1.sessions[1].tx, w.entries);
  }

  lemma ReaderCommits(w: World, version: int, fetches: seq<Fetch>)
    requires ReaderHas(w, version, fetches) && VersionOf(Find(w.entries, "k")) == version
    requires !AllCurrent(fetches, w.entries)
    ensures var w' := Step(w, Commit(0));
            w'.stale && |w'.committed| == |w.committed| + 1 && w'.installed == w.installed
  {
    assert Validates(w.sessions[0].tx, w.entries);
  }

  function Fold(w: World, actions: seq<Action>): World
    decreases |actions|
  {
    if actions == [] then w else Fold(Step(w, actions[0]), actions[1..])
  }

  lemma {:induction false} ExecFrom(start: Entries, actions: seq<Action>, n: nat)
    requires n <= |actions|
    ensures Exec(start, actions) == Fold(Exec(start, actions[..n]), actions[n..])
    decreases |actions| - n
  {
    if n == |actions| {
      assert actions[..n] == actions;
    } else {
      Unroll(start, actions, n);
      ExecFrom(start, actions, n + 1);
      assert actions[n..][1..] == actions[n + 1..];
    }
  }

  lemma FoldThree(w: World, a: Action, b: Action, c: Action)
    ensures Fold(w, [a, b, c]) == Step(Step(Step(w, a), b), c)
  {
    assert [a, b, c][1..] == [b, c] && [b, c][1..] == [c] && [c][1..] == [];
    assert Fold(Step(Step(Step(w, a), b), c), []) == Step(Step(Step(w, a), b), c);
    assert Fold(Step(Step(w, a), b), [c]) == Step(Step(Step(w, a), b), c);
  }

  lemma OvertakenSteps(start: Entries, w: World, a: Action, rec: Option<Record>)
    requires "k" in start && start["k"].version == VersionOf(rec) && rec != Some(start["k"])
    requires rec.Some? ==> rec.value.key == "k"
    requires a == if rec.Some? then Put(1, rec.value) else Delete(1, "k")
    requires w.committed == [] && WriterIdle(w) && ReaderHas(w, start["k"].version, [Fetch("k", Some(start["k"]))])
    ensures var w' := Step(Step(Step(w, a), Commit(1)), Commit(0));
            w'.stale && |w'.committed| == 2 && w'.installed == Joined(w.installed, rec)
  {
    WriterCommits(w, a, rec);
    var fetches := [Fetch("k", Some(start["k"]))];
    assert fetches[0].result != rec;
    ReaderCommits(Step(Step(w, a), Commit(1)), start["k"].version, fetches);
  }

  /** A transaction that reads once reads stably. */
  lemma OnlyRead(start: Entries, o: seq<Action>)
    requires "k" in start && |o| >= 3 && o[..3] == [Begin(0, ReadOnly), Begin(1, ReadWrite), Get(0, "k")]
    requires forall i :: 3 <= i < |o| ==> !o[i].Get?
    ensures StableFetches(start, o)
  {
    BothBegin(start, o);
    assert o[0] == o[..3][0] && o[1] == o[..3][1] && o[2] == o[..3][2];
    forall i | 0 <= i < |o| ensures StableAt(Exec(start, o[..i]), o[i]) {
      assert i == 2 || !o[i].Get?;
    }
  }

  lemma OvertakenRun(start: Entries, o: seq<Action>, rec: Option<Record>)
    requires "k" in start && start["k"].version == VersionOf(rec) && rec != Some(start["k"])
    requires rec.Some? ==> rec.value.key == "k"
    requires |o| == 6 && o[..3] == [Begin(0, ReadOnly), Begin(1, ReadWrite), Get(0, "k")]
    requires o[3] == if rec.Some? then Put(1, rec.value) else Delete(1, "k")
    requires o[4] == Commit(1) && o[5] == Commit(0)
    ensures |Exec(start, o).committed| == 2 && Serial(start, Exec(start, o).committed) == None
    ensures Exec(start, o).installed == Joined(start.Values, rec) && StableFetches(start, o)
  {
    BothBegin(start, o);
    OnlyRead(start, o);
    OvertakenSteps(start, Exec(start, o[..3]), o[3], rec);
    ExecFrom(start, o, 3);
    assert o[3..] == [o[3], Commit(1), Commit(0)];
    FoldThree(Exec(start, o[..3]), o[3], Commit(1), Commit(0));
    SerializableIff(start, o);
  }

  /**
   A version reused for another record, all else as required: both transactions commit, yet no serial run in commit
   order explains them.
   */
  lemma ReusedVersionBreaksSerializability()
    ensures var start := map["k" := Row("k", "old", 1)];
            var run := Overtaken(Some(Row("k", "new", 1)));
            var w := Exec(start, run);
            && |w.committed| == 2 && Serial(start, w.committed) == None
            && WellFormed(start) && StableFetches(start, run) && Positive(w.installed) && !Unique(w.installed)
  {
    var start := map["k" := Row("k", "old", 1)];
    var rec := Some(Row("k", "new", 1));
    assert Overtaken(rec)[..3] == [Begin(0, ReadOnly), Begin(1, ReadWrite), Get(0, "k")];
    OvertakenRun(start, Overtaken(rec), rec);
    OneHypothesisFails(start, Overtaken(rec));
  }

  /** A stored version 0, all else as required: it cannot be told from a missing row. */
  lemma ZeroVersionBreaksSerializability()
    ensures var start := map["k" := Row("k", "old", 0)];
            var w := Exec(start, Overtaken(None));
            && |w.committed| == 2 && Serial(start, w.committed) == None
            && Keyed(start) && StableFetches(start, Overtaken(None)) && Unique(w.installed) && !Positive(w.installed)
  {
    var start := map["k" := Row("k", "old", 0)];
    assert Overtaken(None)[..3] == [Begin(0, ReadOnly), Begin(1, ReadWrite), Get(0, "k")];
    OvertakenRun(start, Overtaken(None), None);
    assert start["k"] in start.Values;
  }

  /** The reader fetches "k" before and after the writer's commit; the second fetch replaces the recorded version. */
  function Refetched(): seq<Action> {
    [Begin(0, ReadOnly), Begin(1, ReadWrite), Get(0, "k"),
     Put(1, Row("k", "new", 2)), Commit(1), Get(0, "k"), Commit(0)]
  }

  lemma RefetchedSteps(seen: Record, w: World, rec: Record)
    requires seen.key == rec.key == "k" && seen != rec
    requires w.committed == [] && WriterIdle(w) && ReaderHas(w, seen.version, [Fetch("k", Some(seen))])
    ensures var w' := Step(Step(Step(Step(w, Put(1, rec)), Commit(1)), Get(0, "k")), Commit(0));
            w'.stale && |w'.committed| == 2 && w'.installed == Joined(w.installed, Some(rec))
  {
    WriterCommits(w, Put(1, rec), Some(rec));
    var w2 := Step(Step(w, Put(1, rec)), Commit(1));
    var w3 := Step(w2, Get(0, "k"));
    var fetches := [Fetch("k", Some(seen)), Fetch("k", Some(rec))];
    assert w3.sessions[0] == Observe(w2.sessions[0], w2.entries, "k");
    assert w3.sessions[0].tx.readset == map["k" := rec.version];
    assert w3.sessions[0].fetches == fetches && fetches[0].result != Some(rec);
    ReaderCommits(w3, rec.version, fetches);
  }

  lemma RefetchedRun(start: Entries, o: seq<Action>, rec: Record)
    requires "k" in start && start["k"].key == rec.key == "k" && start["k"] != rec
    requires |o| == 7 && o[..3] == [Begin(0, ReadOnly), Begin(1, ReadWrite), Get(0, "k")]
    requires o[3] == Put(1, rec) && o[4] == Commit(1) && o[5] == Get(0, "k") && o[6] == Commit(0)
    ensures |Exec(start, o).committed| == 2 && Serial(start, Exec(start, o).committed) == None
    ensures Exec(start, o).installed == Joined(start.Values, Some(rec))
  {
    BothBegin(start, o);
    RefetchedSteps(start["k"], Exec(start, o[..3]), rec);
    ExecFrom(start, o, 3);
    FoldThree(Step(Exec(start, o[..3]), o[3]), Commit(1), Get(0, "k"), Commit(0));
    assert o[3..][1..] == [Commit(1), Get(0, "k"), Commit(0)];
    SerializableIff(start, o);
  }

  /** A key fetched twice at different versions, all else as required. */
  lemma RefetchBreaksSerializability()
    ensures var start := map["k" := Row("k", "old", 1)];
            var w := Exec(start, Refetched());
            && |w.committed| == 2 && Serial(start, w.committed) == None
            && WellFormed(start) && VersionsIdentify(w.installed) && !StableFetches(start, Refetched())
  {
    var start, rec := map["k" := Row("k", "old", 1)], Row("k", "new", 2);
    RefetchedCommits(start, rec);
    assert Joined(start.Values, Some(rec)) == {start["k"], rec};
    OneHypothesisFails(start, Refetched());
  }

  lemma RefetchedCommits(start: Entries, rec: Record)
    requires "k" in start && start["k"].key == "k" && start["k"] != rec && rec == Row("k", "new", 2)
    ensures var w := Exec(start, Refetched());
            |w.committed| == 2 && Serial(start, w.committed) == None && w.installed == Joined(start.Values, Some(rec))
  {
    var o := Refetched();
    assert o[..3] == [Begin(0, ReadOnly), Begin(1, ReadWrite), Get(0, "k")];
    RefetchedRun(start, o, rec);
  }

  lemma OneHypothesisFails(start: Entries, actions: seq<Action>)
    requires Serial(start, Exec(start, actions).committed) == None
    ensures !(WellFormed(start) && StableFetches(start, actions) && VersionsIdentify(Exec(start, actions).installed))
  {
    if WellFormed(start) && StableFetches(start, actions) && VersionsIdentify(Exec(start, actions).installed) {
      Serializable(start, actions);
    }
  }

  // ---------- Rows stay under their own keys ----------

  /** Every store and every write buffer of a run keeps its rows under their own keys, which is what a listing needs. */
  lemma {:induction false} RunsStayKeyed(start: Entries, actions: seq<Action>)
    requires Keyed(start)
    ensures AllKeyed(Exec(start, actions))
  {
    if actions != [] {
      var w, a := Exec(start, actions[..|actions| - 1]), actions[|actions| - 1];
      RunsStayKeyed(start, actions[..|actions| - 1]);
      StepStaysKeyed(w, a);
    }
  }

  ghost predicate AllKeyed(w: World) {
    Keyed(w.entries) && forall id :: id in w.sessions ==> Keyed(w.sessions[id].tx.writes)
  }

  lemma StepStaysKeyed(w: World, a: Action)
    requires AllKeyed(w)
    ensures AllKeyed(Step(w, a))
  {
    if a.id in w.sessions { CommitKeepsKeyed(w.sessions[a.id].tx, w.entries); }
  }
}

/**
 The service object of internal/metadata/service.go over the mutable store and etcd client.

 One call at a time is followed here; what other callers commit to the store meanwhile is the parameter `others`:
 batch 2a lands before the tx.Get of attempt a, batch 2a + 1 between that tx.Get and its Commit.
 */
module MetadataService {
  import opened Prelude
  import opened Pgxsim
  import opened Etcdsim
  import opened MetadataProtocol
  import opened MetadataMirror
  import opened ListPaging

  datatype ForeignCommit = ForeignCommit(deletes: set<string>, writes: map<string, Record>)

  predicate Touches(c: ForeignCommit, key: string) { key in c.deletes || key in c.writes }

  ghost predicate Sane(batch: seq<ForeignCommit>) {
    forall i :: 0 <= i < |batch| ==> WellFormed(batch[i].writes)
  }

  function AfterBatch(entries: Entries, batch: seq<ForeignCommit>): Entries {
    if batch == [] then entries
    else
      var c := batch[|batch| - 1];
      (AfterBatch(entries, batch[..|batch| - 1]) - c.deletes) + c.writes
  }

  /** How many commits of the batch touch the key. */
  function Touching(batch: seq<ForeignCommit>, key: string): nat {
    if batch == [] then 0
    else Touching(batch[..|batch| - 1], key) + if Touches(batch[|batch| - 1], key) then 1 else 0
  }

  /** The store after the first `n` batches, and how often they touch a key. */
  function LeftBy(entries: Entries, others: seq<seq<ForeignCommit>>, n: nat): Entries
    requires n <= |others|
  {
    if n == 0 then entries else AfterBatch(LeftBy(entries, others, n - 1), others[n - 1])
  }

  function TouchedBy(others: seq<seq<ForeignCommit>>, n: nat, key: string): nat
    requires n <= |others|
  {
    if n == 0 then 0 else TouchedBy(others, n - 1, key) + Touching(others[n - 1], key)
  }

  lemma {:induction false} UntouchedStays(entries: Entries, batch: seq<ForeignCommit>, key: string)
    ensures Touching(batch, key) == 0 ==> Find(AfterBatch(entries, batch), key) == Find(entries, key)
  {
    if batch != [] {
      UntouchedStays(entries, batch[..|batch| - 1], key);
    }
  }

  lemma {:induction false} BatchWellFormed(entries: Entries, batch: seq<ForeignCommit>)
    requires WellFormed(entries) && Sane(batch)
    ensures WellFormed(AfterBatch(entries, batch))
  {
    if batch != [] {
      BatchWellFormed(entries, batch[..|batch| - 1]);
    }
  }

  function AfterTxns(s: ClientState, txns: seq<Txn>): ClientState {
    if txns == [] then s else CommitTxn(AfterTxns(s, txns[..|txns| - 1]), txns[|txns| - 1]).state
  }

  lemma {:induction false} LeftKeyed(entries: Entries, others: seq<seq<ForeignCommit>>, n: nat)
    requires WellFormed(entries) && n <= |others| && forall i :: 0 <= i < |others| ==> Sane(others[i])
    ensures WellFormed(LeftBy(entries, others, n))
  {
    if n > 0 {
      LeftKeyed(entries, others, n - 1);
      BatchWellFormed(LeftBy(entries, others, n - 1), others[n - 1]);
    }
  }

  /** One run of the closure handed to `retry`. */
  datatype Attempt = Succeeded(outcome: Outcome) | Refused(outcome: Outcome) | SerializationFailure

  /** An attempt made of the protocol's own steps: tx.Get on one store, decide, buffer, Commit on a later one. */
  function RunAttempt(req: Request, atGet: Entries, atCommit: Entries): (Entries, Attempt) {
    var (tx, existing) := TxGet(FreshTx(Mode(req)), atGet, req.key);
    match Decide(req, existing)
    case Some(outcome) => (atGet, Refused(outcome))
    case None =>
      match Buffer(req, 0, tx, existing)
      case Committing(_, buffered, outcome) =>
        var (_, entries, err) := TxCommit(buffered, atCommit);
        (entries, if err == None then Succeeded(outcome) else SerializationFailure)
      case _ => (atCommit, SerializationFailure)
  }

  /** The protocol's steps of a call are that attempt, whatever others do between its read and its commit. */
  lemma AttemptIsSteps(cfg: Config, w: World, id: nat, attempt: nat, later: World)
    requires id in w.calls && w.calls[id].phase == Begin(attempt) && !w.calls[id].req.GetReq?
    requires var decided := Step(cfg, Step(cfg, w, Advance(id)), Advance(id));
             id in later.calls && later.calls[id] == decided.calls[id]
    ensures var decided := Step(cfg, Step(cfg, w, Advance(id)), Advance(id));
            var committed := Step(cfg, later, Advance(id));
            var (entries, r) := RunAttempt(w.calls[id].req, w.entries, later.entries);
            match r
            case Refused(o) => decided.calls[id].phase == Done(o, NotTried) && decided.entries == entries
            case Succeeded(o) => committed.calls[id].phase == Mirroring(o) && committed.entries == entries
            case SerializationFailure =>
              && committed.entries == entries == later.entries
              && committed.calls[id].phase ==
                 if attempt + 1 < cfg.maxRetries then Begin(attempt + 1) else Done(Exhausted, NotTried)
  {
    ReadAndDecide(cfg, w, id, attempt);
  }

  lemma ReadAndDecide(cfg: Config, w: World, id: nat, attempt: nat)
    requires id in w.calls && w.calls[id].phase == Begin(attempt)
    ensures var req, decided := w.calls[id].req, Step(cfg, Step(cfg, w, Advance(id)), Advance(id));
            var (tx, existing) := TxGet(FreshTx(Mode(req)), w.entries, req.key);
            && id in decided.calls && decided.calls[id].req == req && decided.entries == w.entries
            && decided.calls[id].phase ==
               match Decide(req, existing)
               case Some(outcome) => Done(outcome, NotTried)
               case None => Buffer(req, attempt, tx, existing)
  {
    var req, read := w.calls[id].req, Step(cfg, w, Advance(id));
    var (tx, existing) := TxGet(FreshTx(Mode(req)), w.entries, req.key);
    assert read.calls[id].phase == Deciding(attempt, tx, existing);
  }

  /** Refused without effect, or the atomic operation, or a failure that some foreign commit to the key explains. */
  ghost predicate AttemptOk(req: Request, atGet: Entries, between: seq<ForeignCommit>, left: Entries, r: Attempt) {
    match r
    case Refused(o) => left == atGet && Atomic(atGet, req) == (atGet, o) && !Mutates(o)
    case Succeeded(o) => Atomic(AfterBatch(atGet, between), req) == (left, o) && Mutates(o)
    case SerializationFailure => left == AfterBatch(atGet, between) && Touching(between, req.key) >= 1
  }

  lemma AttemptIsAtomic(req: Request, atGet: Entries, between: seq<ForeignCommit>)
    requires !req.GetReq? && WellFormed(atGet) && Sane(between)
    ensures var (left, r) := RunAttempt(req, atGet, AfterBatch(atGet, between));
            AttemptOk(req, atGet, between, left, r) && WellFormed(left)
  {
    var (tx, existing) := TxGet(FreshTx(Mode(req)), atGet, req.key);
    var atCommit := AfterBatch(atGet, between);
    BatchWellFormed(atGet, between);
    UntouchedStays(atGet, between, req.key);
    var call := Call(req, Deciding(0, tx, existing), 0, 0, []);
    if Decide(req, existing).None? {
      BufferInv(call, 0, tx, existing);
      var phase := Buffer(req, 0, tx, existing);
      if Validates(phase.tx, atCommit) { CommitIsAtomic(atCommit, req, phase.tx, phase.outcome); }
    }
  }

  class Service {
    const store: Store
    const readStore: Store
    const etcd: Client
    const cfg: Config

    /** `store` is behind the write pool, `readStore` behind the read pool. */
    constructor (store: Store, readStore: Store, etcd: Client, keyPrefix: string, maxRetries: int,
                 encode: Record -> string)
      ensures this.store == store && this.readStore == readStore && this.etcd == etcd && cfg.encode == encode
      ensures cfg.maxRetries >= 1 && (maxRetries > 0 ==> cfg.maxRetries == maxRetries)
      ensures maxRetries <= 0 ==> cfg.maxRetries == 5
      ensures cfg.keyPrefix == if keyPrefix == "" then "metadata/" else keyPrefix
    {
      this.store, this.readStore, this.etcd := store, readStore, etcd;
      var retries := maxRetries;
      if retries <= 0 {
        retries := 5;
      }
      var prefix := keyPrefix;
      if prefix == "" {
        prefix := "metadata/";
      }
      cfg := Config(retries, prefix, encode);
    }

    /** Other callers commit. */
    method Interfere(batch: seq<ForeignCommit>)
      modifies store`entries
      ensures store.entries == AfterBatch(old(store.entries), batch)
    {
      var i := 0;
      while i < |batch|
        invariant 0 <= i <= |batch|
        invariant store.entries == AfterBatch(old(store.entries), batch[..i])
      {
        assert batch[..i + 1][..i] == batch[..i];
        store.entries := (store.entries - batch[i].deletes) + batch[i].writes;
        i := i + 1;
      }
      assert batch[..i] == batch;
    }

    method PutOnce(req: Request, between: seq<ForeignCommit>) returns (r: Attempt)
      requires req.PutReq?
      modifies store`entries
      ensures (store.entries, r) == RunAttempt(req, old(store.entries), AfterBatch(old(store.entries), between))
    {
      var tx := store.BeginTx(true, ReadWrite);
      var existing := tx.Get(req.key);
      if req.expectedVersion > 0 {
        if existing.None? {
          return Refused(Missing);
        }
        if existing.value.version != req.expectedVersion {
          return Refused(Mismatch);
        }
      }
      var version := 1;
      if existing.Some? {
        version := existing.value.version + 1;
      }
      var rec := Record(req.key, req.value, req.attributes, version);
      var putErr := tx.Put(rec);
      Interfere(between);
      var err := tx.Commit();
      if err.Some? {
        return SerializationFailure;
      }
      return Succeeded(Stored(rec));
    }

    method DeleteOnce(req: Request, between: seq<ForeignCommit>) returns (r: Attempt)
      requires req.DeleteReq?
      modifies store`entries
      ensures (store.entries, r) == RunAttempt(req, old(store.entries), AfterBatch(old(store.entries), between))
    {
      var tx := store.BeginTx(true, ReadWrite);
      var existing := tx.Get(req.key);
      if existing.None? {
        return Refused(Missing);
      }
      if req.expectedVersion > 0 && existing.value.version != req.expectedVersion {
        return Refused(Mismatch);
      }
      var deleteErr := tx.Delete(req.key);
      Interfere(between);
      var err := tx.Commit();
      if err.Some? {
        return SerializationFailure;
      }
      return Succeeded(Deleted);
    }

    /** One pass of the loop: others commit, then the closure runs, with more commits before its own. */
    method Try(req: Request, before: seq<ForeignCommit>, between: seq<ForeignCommit>) returns (r: Attempt)
      requires !req.GetReq? && WellFormed(store.entries) && Sane(before) && Sane(between)
      modifies store`entries
      ensures WellFormed(store.entries)
      ensures AttemptOk(req, AfterBatch(old(store.entries), before), between, store.entries, r)
    {
      BatchWellFormed(store.entries, before);
      Interfere(before);
      AttemptIsAtomic(req, store.entries, between);
      if req.PutReq? {
        r := PutOnce(req, between);
      } else {
        r := DeleteOnce(req, between);
      }
    }

    /**
     The retry loop around either closure. `rounds` is how many batches landed. A committed or refused call is the
     atomic operation on the store as the others left it; an exhausted one changed nothing, and the others touched
     its key at least maxRetries times.
     */
    method Retry(req: Request, others: seq<seq<ForeignCommit>>) returns (outcome: Outcome, rounds: nat)
      requires !req.GetReq? && WellFormed(store.entries) && cfg.maxRetries >= 1
      requires |others| == 2 * cfg.maxRetries && forall n :: 0 <= n < |others| ==> Sane(others[n])
      modifies store`entries
      ensures WellFormed(store.entries) && rounds <= 2 * cfg.maxRetries
      ensures var left := LeftBy(old(store.entries), others, rounds);
              if outcome.Exhausted? then
                store.entries == left && TouchedBy(others, rounds, req.key) >= cfg.maxRetries
              else Atomic(left, req) == (store.entries, outcome)
    {
      ghost var start := store.entries;
      var attempt := 0;
      rounds := 0;
      while attempt < cfg.maxRetries
        invariant attempt <= cfg.maxRetries && rounds == 2 * attempt && WellFormed(store.entries)
        invariant store.entries == LeftBy(start, others, rounds)
        invariant TouchedBy(others, rounds, req.key) >= attempt
      {
        var r := Try(req, others[rounds], others[rounds + 1]);
        assert LeftBy(start, others, rounds + 1) == AfterBatch(LeftBy(start, others, rounds), others[rounds]);
        if r.Refused? {
          return r.outcome, rounds + 1;
        }
        rounds := rounds + 2;
        if r.Succeeded? {
          return r.outcome, rounds;
        }
        attempt := attempt + 1;
      }
      return Exhausted, rounds;
    }

    /** What the mirroring transaction made of etcd, and what the call reports. */
    ghost predicate MirrorOutcome(req: Request, outcome: Outcome, s: ClientState, s': ClientState, mirror: Mirror)
      requires !req.GetReq?
    {
      var ekey := cfg.keyPrefix + req.key;
      if req.expectedRevision >= 0 && ModRevisionOf(s.kv, ekey) != req.expectedRevision then
        s' == s && mirror == Conflict
      else if outcome.Stored? then
        s'.kv == s.kv[ekey := KvPair(cfg.encode(outcome.rec), s.revision + 1)] && mirror == Mirrored(s.revision + 1)
      else
        s'.kv == s.kv - {ekey} && mirror == Mirrored(if ekey in s.kv then s.revision + 1 else s.revision)
    }

    /** Others use etcd. */
    method InterfereEtcd(txns: seq<Txn>)
      requires etcd.Valid()
      modifies etcd
      ensures etcd.Valid() && etcd.State() == AfterTxns(old(etcd.State()), txns)
    {
      var i := 0;
      while i < |txns|
        invariant 0 <= i <= |txns| && etcd.Valid()
        invariant etcd.State() == AfterTxns(old(etcd.State()), txns[..i])
      {
        assert txns[..i + 1][..i] == txns[..i];
        var resp := etcd.Commit(txns[i]);
        i := i + 1;
      }
      assert txns[..i] == txns;
    }

    /**
     PutMetadata and DeleteMetadata: the retried transaction, then the mirroring etcd transaction. `etcdOthers` are the
     transactions that reach etcd between the two.
     */
    method Mutate(req: Request, others: seq<seq<ForeignCommit>>, etcdOthers: seq<Txn>)
      returns (outcome: Outcome, mirror: Mirror, rounds: nat)
      requires !req.GetReq? && WellFormed(store.entries) && cfg.maxRetries >= 1 && etcd.Valid()
      requires |others| == 2 * cfg.maxRetries && forall n :: 0 <= n < |others| ==> Sane(others[n])
      modifies store`entries, etcd
      ensures req.key == "" ==> outcome == Rejected && rounds == 0 && store.entries == old(store.entries)
      ensures rounds <= 2 * cfg.maxRetries
      ensures req.key != "" ==>
                var left := LeftBy(old(store.entries), others, rounds);
                if outcome.Exhausted? then
                  store.entries == left && TouchedBy(others, rounds, req.key) >= cfg.maxRetries
                else Atomic(left, req) == (store.entries, outcome) && Means(left, req, store.entries, outcome)
      ensures !Mutates(outcome) ==> mirror == NotTried && etcd.State() == old(etcd.State())
      ensures etcd.Valid()
      ensures Mutates(outcome) ==>
                MirrorOutcome(req, outcome, AfterTxns(old(etcd.State()), etcdOthers), etcd.State(), mirror)
    {
      if req.key == "" {
        return Rejected, NotTried, 0;
      }
      outcome, rounds := Retry(req, others);
      LeftKeyed(old(store.entries), others, rounds);
      AtomicMeans(LeftBy(old(store.entries), others, rounds), req, store.entries, outcome);
      if !Mutates(outcome) {
        return outcome, NotTried, rounds;
      }
      InterfereEtcd(etcdOthers);
      MirrorEffect(cfg, etcd.State(), req, outcome);
      var resp := etcd.Commit(MirrorTxn(cfg, req, outcome));
      if resp.Err? || !resp.value.succeeded {
        return outcome, Conflict, rounds;
      }
      return outcome, Mirrored(resp.value.revision), rounds;
    }

    method GetMetadata(key: string) returns (outcome: Outcome)
      ensures outcome == if key == "" then Rejected
                         else if key in readStore.entries then Found(readStore.entries[key]) else Missing
      ensures key != "" ==> outcome == Atomic(readStore.entries, GetReq(key)).1
    {
      if key == "" {
        return Rejected;
      }
      var tx := readStore.BeginTx(true, ReadOnly);
      var rec := tx.Get(key);
      if rec.None? {
        return Missing;
      }
      tx.Rollback();
      return Found(rec.value);
    }

    method KeepAbove(items: seq<Record>, token: string) returns (filtered: seq<Record>)
      ensures filtered == Above(items, token)
    {
      filtered := [];
      var i := 0;
      while i < |items|
        invariant 0 <= i <= |items| && filtered == Above(items[..i], token)
      {
        assert items[..i + 1][..i] == items[..i];
        if LexLess(token, items[i].key) {
          filtered := filtered + [items[i]];
        }
        i := i + 1;
      }
      assert items[..i] == items;
    }

    /** Filters and cuts the rows fetched from the listing. */
    method Cut(fetched: seq<Record>, size: nat, token: string, ghost all: seq<Record>) returns (page: Page)
      requires fetched == if size + 1 < |all| then all[..size + 1] else all
      ensures page == PageOf(all, size, token)
    {
      var items := fetched;
      if token != "" {
        items := KeepAbove(items, token);
      }
      var next := "";
      if |items| > size {
        next := items[size].key;
        items := items[..size];
      }
      page := Page(items, next);
    }

    method ListMetadata(prefix: string, limit: int, token: string) returns (page: Page)
      requires Keyed(readStore.entries)
      ensures exists all ::
                && IsListing(all, readStore.entries, prefix)
                && page == PageOf(all, if limit <= 0 then 100 else limit, token)
      ensures var size := if limit <= 0 then 100 else limit;
              && Serves(page, readStore.entries, prefix, size, token)
              && (token == "" ==> LeavesOut(page, readStore.entries, prefix, size))
    {
      var size := limit;
      if size <= 0 {
        size := 100;
      }
      var tx := readStore.BeginTx(true, ReadOnly);
      var items;
      ghost var all;
      items, all := tx.List(prefix, size + 1);
      page := Cut(items, size, token, all);
      PageServes(all, readStore.entries, prefix, size, token);
    }
  }

  /** NewService: both pools and etcd are needed, but a missing read pool is the write pool. */
  method NewService(writePool: Store?, readPool: Store?, etcd: Client?, keyPrefix: string, maxRetries: int,
                    encode: Record -> string)
    returns (r: Result<Service, string>)
    ensures r.Err? <==> writePool == null || etcd == null
    ensures r.Ok? ==>
              var service := r.value;
              && fresh(service) && service.store == writePool && service.etcd == etcd
              && service.readStore == (if readPool == null then writePool else readPool)
              && service.cfg == Config(if maxRetries <= 0 then 5 else maxRetries,
                                       if keyPrefix == "" then "metadata/" else keyPrefix, encode)
  {
    if writePool == null {
      return Err("metadata: write pool is required");
    }
    var readStore := readPool;
    if readStore == null {
      readStore := writePool;
    }
    if etcd == null {
      return Err("metadata: etcd client is required");
    }
    var service := new Service(writePool, readStore, etcd, keyPrefix, maxRetries, encode);
    return Ok(service);
  }
}

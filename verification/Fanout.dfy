/**
 Fork and join in internal/storage/service.go: replication and the S3 copy run as concurrent goroutines sharing one
 results map. They finish in an arbitrary order; what each of them returns is a parameter.
 */
module Fanout {
  import opened Prelude
  import opened RingOrder
  import opened Replication
  import opened Streams

  datatype ReplicaAck = ReplicaAck(nodeId: string, success: bool, errorMessage: string)

  // ---------- Copies and acks ----------

  function NonSelf(targets: seq<string>, self: string): seq<string> {
    if targets == [] then []
    else
      var last := targets[|targets| - 1];
      NonSelf(targets[..|targets| - 1], self) + if last != self then [last] else []
  }

  predicate WantsS3(h: Header) { h.s3Bucket != "" && h.s3Key != "" }

  function S3Name(h: Header): string { "s3:" + h.s3Bucket + "/" + h.s3Key }

  /** Everyone asked to hold a copy, in ring order, the S3 object last. */
  function Copies(targets: seq<string>, self: string, h: Header): seq<string> {
    NonSelf(targets, self) + if WantsS3(h) then [S3Name(h)] else []
  }

  function AckOf(name: string, err: Option<string>): ReplicaAck {
    ReplicaAck(name, err.None?, if err.Some? then err.value else "")
  }

  /** One ack per name, counted with multiplicity. */
  function AckBag(names: seq<string>, outcome: string -> Option<string>): multiset<ReplicaAck> {
    if names == [] then multiset{}
    else AckBag(names[..|names| - 1], outcome) + multiset{AckOf(names[|names| - 1], outcome(names[|names| - 1]))}
  }

  /** The places of the targets that are not this node, in order. */
  ghost predicate OtherPlaces(targets: seq<string>, self: string, places: seq<nat>) {
    && (forall i, j :: 0 <= i < j < |places| ==> places[i] < places[j])
    && (forall p :: p in places <==> 0 <= p < |targets| && targets[p] != self)
  }

  /** The names at those places, in ring order, and after them the S3 object if both its fields are set. */
  ghost predicate InRingOrder(targets: seq<string>, self: string, h: Header, names: seq<string>) {
    exists places: seq<nat> :: NamesAt(targets, self, h, names, places)
  }

  ghost predicate NamesAt(targets: seq<string>, self: string, h: Header, names: seq<string>, places: seq<nat>) {
    var s3 := h.s3Bucket != "" && h.s3Key != "";
    && OtherPlaces(targets, self, places)
    && |names| == |places| + (if s3 then 1 else 0)
    && (forall k :: 0 <= k < |places| ==> places[k] < |targets| && names[k] == targets[places[k]])
    && (s3 ==> names[|places|] == "s3:" + h.s3Bucket + "/" + h.s3Key)
  }

  lemma {:induction false} PlacesOf(targets: seq<string>, self: string) returns (places: seq<nat>)
    ensures OtherPlaces(targets, self, places) && |places| == |NonSelf(targets, self)|
    ensures forall k :: 0 <= k < |places| ==>
              places[k] < |targets| && NonSelf(targets, self)[k] == targets[places[k]]
  {
    places := [];
    if targets != [] {
      var n, front := |targets| - 1, targets[..|targets| - 1];
      places := PlacesOf(front, self);
      assert forall i :: 0 <= i < n ==> front[i] == targets[i];
      assert forall k :: 0 <= k < |places| ==> places[k] in places;
      if targets[n] != self { places := places + [n]; }
    }
  }

  lemma CopiesInRingOrder(targets: seq<string>, self: string, h: Header)
    ensures InRingOrder(targets, self, h, Copies(targets, self, h))
  {
    var places := PlacesOf(targets, self);
    assert NamesAt(targets, self, h, Copies(targets, self, h), places);
  }

  predicate AllSucceed(names: seq<string>, outcome: string -> Option<string>) {
    forall i :: 0 <= i < |names| ==> outcome(names[i]).None?
  }

  /** The shared results once every goroutine has finished: this node's own success and each copy's outcome. */
  ghost predicate ResultsOf(self: string, copies: seq<string>, results: Outcomes, outcome: string -> Option<string>) {
    && (forall k :: k in results <==> k == self || k in copies)
    && (forall k :: k in results ==> results[k] == if k == self then None else outcome(k))
  }

  ghost function FailedCopies(names: seq<string>, outcome: string -> Option<string>): set<string> {
    set c | c in names && outcome(c).Some?
  }

  /** The error that stands for all failed copies together. */
  ghost function Aggregate(names: seq<string>, outcome: string -> Option<string>): Option<string> {
    var failed := FailedCopies(names, outcome);
    if failed == {} then None else Some("replication failed for " + Itoa(|failed|) + " replicas")
  }

  /** The acks that summarise metadata and replication. */
  function SummaryAcks(metadata: Option<Option<string>>, aggregate: Option<string>): seq<ReplicaAck> {
    (if metadata.None? then []
     else [AckOf("metadata", if aggregate.Some? then aggregate else metadata.value)])
    + (if aggregate.Some? then [AckOf("replication", aggregate)] else [])
  }

  lemma {:induction false} NonSelfFacts(targets: seq<string>, self: string)
    ensures forall x :: x in NonSelf(targets, self) <==> x in targets && x != self
    ensures NoDuplicates(targets) ==> NoDuplicates(NonSelf(targets, self))
  {
    if targets != [] {
      var front := targets[..|targets| - 1];
      NonSelfFacts(front, self);
      assert targets == front + [targets[|targets| - 1]];
      assert forall i :: 0 <= i < |NonSelf(front, self)| ==> NonSelf(front, self)[i] in front;
    }
  }

  /** The S3 object's name is not also the ID of a target. */
  predicate NamesApart(targets: seq<string>, h: Header) {
    WantsS3(h) ==> S3Name(h) !in targets
  }

  /** Every copy has its own key in the results map exactly when the S3 object's name is not a target's ID. */
  lemma CopiesDistinctIff(targets: seq<string>, self: string, h: Header)
    requires NoDuplicates(targets) && self in targets
    ensures NoDuplicates(Copies(targets, self, h)) && self !in Copies(targets, self, h) <==> NamesApart(targets, h)
  {
    NonSelfFacts(targets, self);
    var others, copies := NonSelf(targets, self), Copies(targets, self, h);
    forall i | 0 <= i < |others| ensures others[i] in targets && copies[i] == others[i] {
      assert others[i] in others;
    }
    if WantsS3(h) {
      assert copies[|others|] == S3Name(h);
      if S3Name(h) in targets && S3Name(h) != self {
        var i :| 0 <= i < |others| && others[i] == S3Name(h);
        assert copies[i] == copies[|others|];
      }
    }
  }

  // ---------- Goroutines ----------

  /** One goroutine: the key it writes in the shared results, and what it returns. */
  datatype Worker = Worker(name: string, result: Option<string>)

  /** One per target other than this node, and one for S3 if asked. */
  function Workers(targets: seq<string>, self: string, h: Header, transport: string -> Option<string>,
                   s3: Option<string>): seq<Worker> {
    var names := NonSelf(targets, self);
    seq(|names|, i requires 0 <= i < |names| => Worker(names[i], transport(names[i]))) +
    if WantsS3(h) then [Worker(S3Name(h), s3)] else []
  }

  /** The results map when the goroutines finish in this order: a later one overwrites an earlier one of its name. */
  function Finish(self: string, order: seq<Worker>): Outcomes {
    if order == [] then map[self := None]
    else
      var last := order[|order| - 1];
      Finish(self, order[..|order| - 1])[last.name := last.result]
  }

  lemma FinishMore(self: string, order: seq<Worker>, w: Worker)
    ensures Finish(self, order + [w]) == Finish(self, order)[w.name := w.result]
  {
    assert (order + [w])[..|order|] == order;
  }

  ghost predicate IsWorker(workers: seq<Worker>, name: string, result: Option<string>) {
    Worker(name, result) in workers
  }

  /** The keys are this node and every worker; each value was returned under its key, but for this node's success. */
  lemma {:induction false} FinishFacts(self: string, order: seq<Worker>)
    ensures var results := Finish(self, order);
            && self in results
            && (forall w :: w in order ==> w.name in results)
            && (forall k :: k in results ==>
                  IsWorker(order, k, results[k]) || (k == self && results[k] == None &&
                                                     forall w :: w in order ==> w.name != self))
  {
    if order != [] {
      var front, last := order[..|order| - 1], order[|order| - 1];
      FinishFacts(self, front);
      assert order == front + [last];
    }
  }

  ghost predicate SameWorkers(order: seq<Worker>, workers: seq<Worker>) {
    multiset(order) == multiset(workers)
  }

  lemma SameMembers(order: seq<Worker>, workers: seq<Worker>)
    requires SameWorkers(order, workers)
    ensures forall w :: w in order <==> w in workers
  {
    forall w ensures w in order <==> w in workers {
      assert w in order <==> w in multiset(order);
      assert w in workers <==> w in multiset(workers);
    }
  }

  /** Goroutines that share a results key return the same. */
  ghost predicate Agree(workers: seq<Worker>) {
    forall v, w :: v in workers && w in workers && v.name == w.name ==> v == w
  }

  ghost predicate OrderIrrelevant(self: string, workers: seq<Worker>) {
    forall p, q :: SameWorkers(p, workers) && SameWorkers(q, workers) ==> Finish(self, p) == Finish(self, q)
  }

  lemma AgreedResults(self: string, workers: seq<Worker>, p: seq<Worker>, q: seq<Worker>)
    requires Agree(workers) && SameWorkers(p, workers) && SameWorkers(q, workers)
    ensures Finish(self, p) == Finish(self, q)
  {
    SameMembers(p, workers);
    SameMembers(q, workers);
    FinishFacts(self, p);
    FinishFacts(self, q);
    forall k ensures k in Finish(self, p) <==> k in Finish(self, q) {
      if k in Finish(self, p) && k != self { assert Worker(k, Finish(self, p)[k]) in q; }
      if k in Finish(self, q) && k != self { assert Worker(k, Finish(self, q)[k]) in p; }
    }
    forall k | k in Finish(self, p) ensures Finish(self, p)[k] == Finish(self, q)[k] {
      if IsWorker(p, k, Finish(self, p)[k]) { assert Worker(k, Finish(self, p)[k]) in q; }
      if IsWorker(q, k, Finish(self, q)[k]) { assert Worker(k, Finish(self, q)[k]) in p; }
    }
  }

  /** The shared results come out the same in every finishing order exactly when workers of one name agree. */
  lemma OrderIrrelevantIff(self: string, workers: seq<Worker>)
    ensures OrderIrrelevant(self, workers) <==> Agree(workers)
  {
    if Agree(workers) {
      forall p, q | SameWorkers(p, workers) && SameWorkers(q, workers) ensures Finish(self, p) == Finish(self, q) {
        AgreedResults(self, workers, p, q);
      }
    } else {
      var v, w :| v in workers && w in workers && v.name == w.name && v != w;
      var vLast, wLast := MovedLast(workers, v), MovedLast(workers, w);
      MovedLastFacts(workers, v);
      MovedLastFacts(workers, w);
      FinishMore(self, vLast[..|vLast| - 1], v);
      FinishMore(self, wLast[..|wLast| - 1], w);
      assert Finish(self, vLast)[v.name] == v.result && Finish(self, wLast)[w.name] == w.result;
    }
  }

  /** Two goroutines of the upload write the same results key. */
  predicate Clashes(targets: seq<string>, self: string, h: Header) {
    WantsS3(h) && S3Name(h) in NonSelf(targets, self)
  }

  /**
   Whatever the goroutines return, the results of an upload do not depend on their finishing order: this holds exactly
   when no target but this node has the S3 object's name as its ID.
   */
  lemma OrderNeverMattersIff(targets: seq<string>, self: string, h: Header)
    requires NoDuplicates(targets) && self in targets
    ensures (forall transport, s3 :: OrderIrrelevant(self, Workers(targets, self, h, transport, s3))) <==>
            !Clashes(targets, self, h)
  {
    if Clashes(targets, self, h) {
      var transport: string -> Option<string> := _ => None;
      ClashDisagrees(targets, self, h, transport, Some("S3 failed"));
      OrderIrrelevantIff(self, Workers(targets, self, h, transport, Some("S3 failed")));
    } else {
      forall transport, s3 ensures OrderIrrelevant(self, Workers(targets, self, h, transport, s3)) {
        DistinctWorkersAgree(targets, self, h, transport, s3);
        OrderIrrelevantIff(self, Workers(targets, self, h, transport, s3));
      }
    }
  }

  lemma ClashDisagrees(targets: seq<string>, self: string, h: Header, transport: string -> Option<string>,
                       s3: Option<string>)
    requires Clashes(targets, self, h) && transport(S3Name(h)) != s3
    ensures !Agree(Workers(targets, self, h, transport, s3))
  {
    var names, workers := NonSelf(targets, self), Workers(targets, self, h, transport, s3);
    var i :| 0 <= i < |names| && names[i] == S3Name(h);
    assert workers[i] == Worker(S3Name(h), transport(S3Name(h))) && workers[|names|] == Worker(S3Name(h), s3);
  }

  lemma DistinctWorkersAgree(targets: seq<string>, self: string, h: Header, transport: string -> Option<string>,
                             s3: Option<string>)
    requires NoDuplicates(targets) && !Clashes(targets, self, h)
    ensures Agree(Workers(targets, self, h, transport, s3))
  {
    var names, workers := NonSelf(targets, self), Workers(targets, self, h, transport, s3);
    NonSelfFacts(targets, self);
    forall i, j | 0 <= i < j < |workers| ensures workers[i].name != workers[j].name {
      assert workers[i] == Worker(names[i], transport(names[i])) && names[i] in names;
      if j == |names| { assert workers[j].name == S3Name(h); }
    }
  }

  /**
   Replication to a target of the S3 object's name succeeds, the S3 copy fails: the upload counts as a success when S3
   finishes first, and as a failure when it finishes last.
   */
  lemma ClashWitness(self: string, h: Header, transport: string -> Option<string>, error: string)
    requires WantsS3(h) && S3Name(h) != self && transport(S3Name(h)).None?
    ensures var replica, s3 := Worker(S3Name(h), None), Worker(S3Name(h), Some(error));
            && Workers([self, S3Name(h)], self, h, transport, Some(error)) == [replica, s3]
            && SameWorkers([s3, replica], [replica, s3])
            && AggregateOf(Finish(self, [s3, replica])).None? && AggregateOf(Finish(self, [replica, s3])).Some?
  {
    NonSelfOfTwo(self, S3Name(h));
    FailureLast(self, S3Name(h), error);
    SuccessLast(self, S3Name(h), error);
  }

  lemma NonSelfOfTwo(self: string, name: string)
    requires name != self
    ensures NonSelf([self, name], self) == [name]
  {
    assert [self, name][..1] == [self] && [self][..0] == [];
    assert NonSelf([self], self) == [];
  }

  lemma FailureLast(self: string, name: string, error: string)
    requires name != self
    ensures AggregateOf(Finish(self, [Worker(name, None), Worker(name, Some(error))])).Some?
  {
    FinishTwo(self, Worker(name, None), Worker(name, Some(error)));
    assert name in Failed(Finish(self, [Worker(name, None), Worker(name, Some(error))]));
  }

  lemma SuccessLast(self: string, name: string, error: string)
    requires name != self
    ensures AggregateOf(Finish(self, [Worker(name, Some(error)), Worker(name, None)])).None?
  {
    FinishTwo(self, Worker(name, Some(error)), Worker(name, None));
  }

  lemma FinishTwo(self: string, a: Worker, b: Worker)
    ensures Finish(self, [a, b]) == map[self := None][a.name := a.result][b.name := b.result]
  {
    assert [a, b][..1] == [a] && [a][..0] == [];
    assert Finish(self, [a]) == Finish(self, [])[a.name := a.result];
  }

  function MovedLast(workers: seq<Worker>, w: Worker): seq<Worker> {
    if workers == [] then []
    else if workers[0] == w then workers[1..] + [w]
    else [workers[0]] + MovedLast(workers[1..], w)
  }

  lemma {:induction false} MovedLastFacts(workers: seq<Worker>, w: Worker)
    requires w in workers
    ensures var moved := MovedLast(workers, w);
            SameWorkers(moved, workers) && moved != [] && moved == moved[..|moved| - 1] + [w]
  {
    assert workers == [workers[0]] + workers[1..];
    if workers[0] != w {
      assert w in workers[1..];
      MovedLastFacts(workers[1..], w);
    }
  }

  /** What a goroutine returns, when its name tells which one it is. */
  function OutcomeOf(h: Header, transport: string -> Option<string>, s3: Option<string>): string -> Option<string> {
    name => if WantsS3(h) && name == S3Name(h) then s3 else transport(name)
  }

  lemma {:induction false} WorkerNames(targets: seq<string>, self: string, h: Header,
                                       transport: string -> Option<string>, s3: Option<string>)
    ensures var workers, copies := Workers(targets, self, h, transport, s3), Copies(targets, self, h);
            |workers| == |copies| && forall i :: 0 <= i < |copies| ==> workers[i].name == copies[i]
  {
  }

  /** One goroutine for every other target, returning what the transport does, and one for S3 if both fields are set. */
  lemma WorkersMean(targets: seq<string>, self: string, h: Header, transport: string -> Option<string>,
                    s3: Option<string>, w: Worker)
    ensures w in Workers(targets, self, h, transport, s3) <==>
            || (w.name in targets && w.name != self && w.result == transport(w.name))
            || (h.s3Bucket != "" && h.s3Key != "" && w == Worker("s3:" + h.s3Bucket + "/" + h.s3Key, s3))
  {
    var names, workers := NonSelf(targets, self), Workers(targets, self, h, transport, s3);
    NonSelfFacts(targets, self);
    if w.name in names && w.result == transport(w.name) {
      var i :| 0 <= i < |names| && names[i] == w.name;
      assert workers[i] == w;
    }
    if WantsS3(h) { assert workers[|names|] == Worker(S3Name(h), s3); }
    if w in workers {
      var i :| 0 <= i < |workers| && workers[i] == w;
      if i < |names| { assert names[i] in names; }
    }
  }

  /** If the S3 name is no target's ID, each copy has its own outcome, whatever order the goroutines finish in. */
  lemma ApartResults(targets: seq<string>, self: string, h: Header, transport: string -> Option<string>,
                     s3: Option<string>, order: seq<Worker>)
    requires NoDuplicates(targets) && self in targets && NamesApart(targets, h)
    requires SameWorkers(order, Workers(targets, self, h, transport, s3))
    ensures ResultsOf(self, Copies(targets, self, h), Finish(self, order), OutcomeOf(h, transport, s3))
  {
    var workers, copies := Workers(targets, self, h, transport, s3), Copies(targets, self, h);
    var results, outcome := Finish(self, order), OutcomeOf(h, transport, s3);
    SameMembers(order, workers);
    FinishFacts(self, order);
    WorkerNames(targets, self, h, transport, s3);
    CopiesDistinctIff(targets, self, h);
    WorkersReturn(targets, self, h, transport, s3);
    forall k ensures k in results <==> k == self || k in copies {
      if k in results && k != self { assert Worker(k, results[k]) in workers; }
      if k in copies {
        var i :| 0 <= i < |copies| && copies[i] == k;
        assert workers[i] in workers;
      }
    }
    forall k | k in results ensures results[k] == if k == self then None else outcome(k) {
      if IsWorker(order, k, results[k]) { assert Worker(k, results[k]) in workers; }
    }
  }

  lemma WorkersReturn(targets: seq<string>, self: string, h: Header, transport: string -> Option<string>,
                      s3: Option<string>)
    requires NoDuplicates(targets) && self in targets && NamesApart(targets, h)
    ensures forall w :: w in Workers(targets, self, h, transport, s3) ==>
              w.name in Copies(targets, self, h) && w.name != self && w.result == OutcomeOf(h, transport, s3)(w.name)
  {
    var workers, copies := Workers(targets, self, h, transport, s3), Copies(targets, self, h);
    WorkerNames(targets, self, h, transport, s3);
    CopiesDistinctIff(targets, self, h);
    NonSelfFacts(targets, self);
    forall i | 0 <= i < |workers|
      ensures workers[i].name in copies && workers[i].result == OutcomeOf(h, transport, s3)(workers[i].name)
    {
      assert copies[i] in copies;
      if i < |NonSelf(targets, self)| { assert NonSelf(targets, self)[i] in NonSelf(targets, self); }
    }
  }

  /** One ack for every name in the results but this node's own. */
  ghost function OtherAcks(self: string, results: Outcomes): set<ReplicaAck> {
    set k | k in results && k != self :: AckOf(k, results[k])
  }

  /** Those of the names already walked. */
  ghost function WalkedAcks(self: string, results: Outcomes, todo: set<string>): set<ReplicaAck> {
    set k | k in results && k != self && k !in todo :: AckOf(k, results[k])
  }

  lemma WalkOne(self: string, results: Outcomes, todo: set<string>, name: string)
    requires name in todo && name in results
    ensures multiset(WalkedAcks(self, results, todo - {name})) ==
            multiset(WalkedAcks(self, results, todo)) +
            if name == self then multiset{} else multiset{AckOf(name, results[name])}
  {
    var before := WalkedAcks(self, results, todo);
    if name == self {
      assert WalkedAcks(self, results, todo - {name}) == before;
    } else {
      var ack := AckOf(name, results[name]);
      assert ack !in before;
      assert WalkedAcks(self, results, todo - {name}) == before + {ack};
    }
  }

  ghost function AckSet(names: seq<string>, outcome: string -> Option<string>): set<ReplicaAck> {
    set k | k in names :: AckOf(k, outcome(k))
  }

  lemma AckSetMore(names: seq<string>, last: string, outcome: string -> Option<string>)
    requires last !in names
    ensures AckOf(last, outcome(last)) !in AckSet(names, outcome)
    ensures AckSet(names + [last], outcome) == AckSet(names, outcome) + {AckOf(last, outcome(last))}
  {
  }

  lemma {:induction false} AcksAreBag(names: seq<string>, outcome: string -> Option<string>)
    requires NoDuplicates(names)
    ensures multiset(AckSet(names, outcome)) == AckBag(names, outcome)
  {
    if names != [] {
      var front, last := names[..|names| - 1], names[|names| - 1];
      AcksAreBag(front, outcome);
      assert names == front + [last];
      AckSetMore(front, last, outcome);
    }
  }

  /** The same names in another order give the same acks. */
  lemma ReorderedAcks(a: seq<string>, b: seq<string>, outcome: string -> Option<string>)
    requires NoDuplicates(a) && NoDuplicates(b) && forall x :: x in a <==> x in b
    ensures AckBag(a, outcome) == AckBag(b, outcome)
  {
    AcksAreBag(a, outcome);
    AcksAreBag(b, outcome);
    assert AckSet(a, outcome) == AckSet(b, outcome);
  }

  /** The error that stands for every failure in the results. */
  ghost function AggregateOf(results: Outcomes): Option<string> {
    if Failed(results) == map[] then None else Some(ReplicationError(Failed(results)))
  }

  /**
   If the S3 name is no target's ID, the acks are one per copy with its outcome, and the summary counts the failed
   copies, in every finishing order.
   */
  lemma {:induction false} ApartAcks(targets: seq<string>, self: string, h: Header, transport: string -> Option<string>,
                  s3: Option<string>, order: seq<Worker>)
    requires NoDuplicates(targets) && self in targets && NamesApart(targets, h)
    requires SameWorkers(order, Workers(targets, self, h, transport, s3))
    ensures var copies, outcome, results := Copies(targets, self, h), OutcomeOf(h, transport, s3), Finish(self, order);
            && multiset(OtherAcks(self, results)) == AckBag(copies, outcome)
            && AggregateOf(results) == Aggregate(copies, outcome)
            && (AggregateOf(results).None? <==> AllSucceed(copies, outcome))
  {
    var copies, outcome, results := Copies(targets, self, h), OutcomeOf(h, transport, s3), Finish(self, order);
    ApartResults(targets, self, h, transport, s3, order);
    CopiesDistinctIff(targets, self, h);
    AcksAreBag(copies, outcome);
    assert OtherAcks(self, results) == AckSet(copies, outcome);
    FailuresCounted(self, copies, results, outcome);
  }

  /** Every copy has a result, and without failures all of them are successes. */
  lemma CopiesFinished(targets: seq<string>, self: string, h: Header, transport: string -> Option<string>,
                       s3: Option<string>, order: seq<Worker>)
    requires SameWorkers(order, Workers(targets, self, h, transport, s3))
    ensures forall c :: c in Copies(targets, self, h) ==> c in Finish(self, order)
  {
    var workers, copies := Workers(targets, self, h, transport, s3), Copies(targets, self, h);
    SameMembers(order, workers);
    FinishFacts(self, order);
    WorkerNames(targets, self, h, transport, s3);
    forall i | 0 <= i < |copies| ensures copies[i] in Finish(self, order) {
      assert workers[i] in workers;
    }
  }

  lemma FailuresCounted(self: string, copies: seq<string>, results: Outcomes, outcome: string -> Option<string>)
    requires self !in copies && ResultsOf(self, copies, results, outcome)
    ensures Aggregate(copies, outcome) ==
            if Failed(results) == map[] then None else Some(ReplicationError(Failed(results)))
    ensures Aggregate(copies, outcome).None? <==> AllSucceed(copies, outcome)
  {
    assert Failed(results).Keys == FailedCopies(copies, outcome);
    assert |Failed(results)| == |Failed(results).Keys|;
    if !AllSucceed(copies, outcome) {
      var i :| 0 <= i < |copies| && outcome(copies[i]).Some?;
      assert copies[i] in FailedCopies(copies, outcome);
    }
  }
}

/** Outcome aggregation of internal/storage/replication.go. Errors are represented by their messages. */
module Replication {
  import opened Prelude

  type Outcomes = map<string, Option<string>>

  function Failed(results: Outcomes): map<string, string> {
    map k | k in results && results[k].Some? :: results[k].value
  }

  function ReplicationError(failed: map<string, string>): string {
    if |failed| == 0 then "replication failed" else "replication failed for " + Itoa(|failed|) + " replicas"
  }

  /** None when nothing failed; otherwise exactly the failures. The results are walked in any order. */
  method MergeReplicationErrors(results: Outcomes) returns (aggregate: Option<map<string, string>>)
    ensures aggregate == if Failed(results) == map[] then None else Some(Failed(results))
    ensures aggregate.None? <==> forall k :: k in results ==> results[k].None?
  {
    var failed: map<string, string> := map[];
    var todo := results.Keys;
    while todo != {}
      invariant todo <= results.Keys
      invariant forall k :: k in failed <==> k in results && k !in todo && results[k].Some?
      invariant forall k :: k in failed ==> failed[k] == results[k].value
    {
      var k :| k in todo;
      if results[k].Some? {
        failed := failed[k := results[k].value];
      }
      todo := todo - {k};
    }
    assert failed == Failed(results);
    if |failed| == 0 {
      assert forall k :: k in results ==> k !in Failed(results);
      return None;
    }
    return Some(failed);
  }

  method ValidateReplicationTargets(targets: seq<string>, primary: string) returns (err: Option<string>)
    ensures err.None? <==> primary in targets
    ensures targets == [] ==> err == Some("storage: replica set cannot be empty")
  {
    if |targets| == 0 {
      return Some("storage: replica set cannot be empty");
    }
    for i := 0 to |targets|
      invariant primary !in targets[..i]
    {
      if targets[i] == primary {
        return None;
      }
    }
    assert targets[..|targets|] == targets;
    return Some("storage: replica set missing primary " + primary);
  }
}

/** The persisted ring of internal/storage/manager.go. */
module RingManager {
  import opened Prelude
  import opened Sorting
  import opened RingOrder
  import opened HashRing
  import opened Assignments
  import opened Etcdsim

  datatype NodeDescriptor = NodeDescriptor(id: string, address: string, capacityBytes: int, availableBytes: int)

  datatype RingState = RingState(version: int, nodes: map<string, NodeDescriptor>, tokens: seq<Assignment>)

  const EMPTY_STATE := RingState(0, map[], [])

  /** JSON encoding as an abstract pair of functions. */
  datatype Codec = Codec(encode: RingState -> string, decode: string -> Option<RingState>)

  ghost predicate RoundTrips(codec: Codec) {
    forall s :: codec.decode(codec.encode(s)) == Some(s)
  }

  function RingKey(prefix: string): string { prefix + "/ring" }

  /** What `rebuildLocked` does to the state: the table of its nodes replaces the tokens. */
  ghost function Rebuilt(hash: string -> Hash, vnodes: nat, s: RingState): RingState {
    s.(tokens := Table(hash, vnodes, s.nodes.Keys))
  }

  /** The state after registering, or after removing, a node. */
  ghost function Upserted(hash: string -> Hash, vnodes: nat, s: RingState, node: NodeDescriptor): RingState {
    Rebuilt(hash, vnodes, s.(nodes := s.nodes[node.id := node])).(version := s.version + 1)
  }

  ghost function Removed(hash: string -> Hash, vnodes: nat, s: RingState, id: string): RingState {
    if id !in s.nodes then s else Rebuilt(hash, vnodes, s.(nodes := s.nodes - {id})).(version := s.version + 1)
  }

  /** What a manager starts from, given the ring key's value: None when it does not decode. */
  ghost function Booted(hash: string -> Hash, vnodes: nat, codec: Codec, stored: Option<KvPair>)
    : Option<(RingState, int)>
  {
    match stored
    case None => Some((EMPTY_STATE, 0))
    case Some(pair) =>
      match codec.decode(pair.value)
      case None => None
      case Some(s) => Some((Rebuilt(hash, vnodes, s), pair.modRevision))
  }

  function Stored(s: ClientState, key: string): Option<KvPair> {
    if key in s.kv then Some(s.kv[key]) else None
  }

  class RingManager {
    const hash: string -> Hash
    const vnodes: nat
    const prefix: string
    const codec: Codec
    const etcd: Client
    var ring: Ring
    var state: RingState
    var lastRevision: int

    /** The ring and the table both show exactly the registered nodes. */
    ghost predicate Valid()
      reads this, ring, ring.tokens, etcd
    {
      && ring.Valid() && ring.hash == hash && ring.vnodes == vnodes > 0
      && etcd.Valid() && prefix != ""
      && HoldsMembers(hash, vnodes, state.nodes.Keys, ring.Contents())
      && state.tokens == Table(hash, vnodes, state.nodes.Keys)
    }

    /** What a manager alone on its key may count on: the key holds its state at its revision. */
    ghost predicate Synced()
      reads this, etcd
    {
      match Stored(etcd.State(), RingKey(prefix))
      case None => state == EMPTY_STATE && lastRevision == 0
      case Some(pair) => pair == KvPair(codec.encode(state), lastRevision)
    }

    /** A manager before bootstrap. */
    constructor (etcd: Client, prefix: string, virtualNodes: int, hash: string -> Hash, codec: Codec)
      requires etcd.Valid()
      ensures Valid() && this.etcd == etcd && this.hash == hash && this.codec == codec
      ensures fresh(ring) && fresh(ring.tokens)
      ensures this.prefix == if prefix == "" then "/storage/cluster" else prefix
      ensures vnodes == if virtualNodes <= 0 then 128 else virtualNodes
      ensures state == EMPTY_STATE && lastRevision == 0
    {
      this.etcd, this.hash, this.codec := etcd, hash, codec;
      this.prefix := if prefix == "" then "/storage/cluster" else prefix;
      var count := if virtualNodes <= 0 then 128 else virtualNodes;
      vnodes := count;
      ring := new Ring(hash, count);
      state := EMPTY_STATE;
      lastRevision := 0;
      new;
      EmptyTable(hash, vnodes);
    }

    /** Loads the persisted state; false when it does not decode. */
    method Bootstrap() returns (ok: bool)
      requires Valid() && state == EMPTY_STATE && lastRevision == 0
      modifies this`ring, this`state, this`lastRevision
      ensures Valid() && (ring == old(ring) || fresh(ring)) && (ring.tokens == old(ring.tokens) || fresh(ring.tokens))
      ensures ok <==> Booted(hash, vnodes, codec, Stored(etcd.State(), RingKey(prefix))).Some?
      ensures var key := prefix + "/ring";
              if key !in etcd.kv then ok && state == EMPTY_STATE && lastRevision == 0
              else
                var decoded := codec.decode(etcd.kv[key].value);
                && ok == decoded.Some?
                && (ok ==> state.nodes == decoded.value.nodes && state.version == decoded.value.version
                           && lastRevision == etcd.kv[key].modRevision)
      ensures Some((state, lastRevision)) ==
              if ok then Booted(hash, vnodes, codec, Stored(etcd.State(), RingKey(prefix))) else Some((EMPTY_STATE, 0))
    {
      var kvs, revision := etcd.Get(RingKey(prefix), false);
      if |kvs| == 0 {
        EmptyTable(hash, vnodes);
        return true;
      }
      var decoded := codec.decode(kvs[0].value);
      if decoded.None? {
        return false;
      }
      state := decoded.value;
      lastRevision := kvs[0].modRevision;
      Rebuild();
      return true;
    }

    /** rebuildLocked: a fresh ring, its tokens ranked node by node, the entries sorted by (token, id). */
    method Rebuild()
      requires etcd.Valid() && vnodes > 0 && prefix != ""
      modifies this`ring, this`state
      ensures Valid() && fresh(ring) && fresh(ring.tokens)
      ensures state == Rebuilt(hash, vnodes, old(state))
      ensures state.nodes == old(state).nodes && state.version == old(state).version
    {
      var ids := SortedIds(state.nodes);
      var built := BuildRing(hash, vnodes, ids);
      assert (set id | id in ids) == state.nodes.Keys;
      var tokens := built.Tokens();
      var table := BuildTable(hash, vnodes, state.nodes.Keys, tokens);
      state := state.(tokens := table);
      ring := built;
    }

    /** persistLocked: the version goes up by one, and the encoded state is put under the ring key. */
    method Persist()
      requires Valid()
      modifies this`state, this`lastRevision, etcd
      ensures Valid() && ring.tokens == old(ring.tokens)
      ensures state == old(state).(version := old(state).version + 1)
      ensures etcd.kv == old(etcd.kv)[prefix + "/ring" := KvPair(codec.encode(state), old(etcd.revision) + 1)]
      ensures lastRevision == etcd.revision == old(etcd.revision) + 1
      ensures etcd.State() == CommitTxn(old(etcd.State()), PutTxn(RingKey(prefix), codec.encode(state))).state
      ensures Stored(etcd.State(), RingKey(prefix)) == Some(KvPair(codec.encode(state), lastRevision))
    {
      state := state.(version := state.version + 1);
      PutTxnCommits(etcd.State(), RingKey(prefix), codec.encode(state));
      var resp := etcd.Put(RingKey(prefix), codec.encode(state));
      lastRevision := resp.value.revision;
    }

    method UpsertNode(node: NodeDescriptor) returns (r: Result<int, string>)
      requires Valid()
      modifies this`ring, this`state, this`lastRevision, etcd
      ensures Valid() && (ring == old(ring) || fresh(ring)) && (ring.tokens == old(ring.tokens) || fresh(ring.tokens))
      ensures node.id == "" ==>
                r.Err? && state == old(state) && lastRevision == old(lastRevision) && etcd.State() == old(etcd.State())
      ensures node.id != "" ==>
                && state == Upserted(hash, vnodes, old(state), node)
                && state.nodes == old(state).nodes[node.id := node]
                && etcd.kv == old(etcd.kv)[prefix + "/ring" := KvPair(codec.encode(state), old(etcd.revision) + 1)]
                && lastRevision == etcd.revision == old(etcd.revision) + 1
                && r == Ok(old(state).version + 1) && state.version == old(state).version + 1
                && etcd.State() == CommitTxn(old(etcd.State()), PutTxn(RingKey(prefix), codec.encode(state))).state
                && Synced()
    {
      if node.id == "" {
        return Err("storage: node ID is required");
      }
      state := state.(nodes := state.nodes[node.id := node]);
      Rebuild();
      Persist();
      return Ok(state.version);
    }

    method RemoveNode(id: string) returns (r: Result<int, string>)
      requires Valid()
      modifies this`ring, this`state, this`lastRevision, etcd
      ensures Valid() && (ring == old(ring) || fresh(ring)) && (ring.tokens == old(ring.tokens) || fresh(ring.tokens))
      ensures id == "" || id !in old(state).nodes ==>
                state == old(state) && lastRevision == old(lastRevision) && etcd.State() == old(etcd.State())
      ensures id == "" ==> r.Err?
      ensures id != "" ==> state == Removed(hash, vnodes, old(state), id) && r == Ok(state.version)
      ensures id != "" && id in old(state).nodes ==>
                && state.nodes == old(state).nodes - {id} && state.version == old(state).version + 1
                && etcd.kv == old(etcd.kv)[prefix + "/ring" := KvPair(codec.encode(state), old(etcd.revision) + 1)]
                && lastRevision == etcd.revision == old(etcd.revision) + 1
                && etcd.State() == CommitTxn(old(etcd.State()), PutTxn(RingKey(prefix), codec.encode(state))).state
                && Synced()
      ensures old(Synced()) ==> Synced()
    {
      if id == "" {
        return Err("storage: node ID is required");
      }
      if id !in state.nodes {
        return Ok(state.version);
      }
      state := state.(nodes := state.nodes - {id});
      Rebuild();
      Persist();
      return Ok(state.version);
    }

    method Lookup(key: string, replicas: int) returns (out: seq<string>)
      requires Valid()
      ensures out == Take(Preference(ring.Contents(), hash(key)), replicas)
    {
      out := ring.Lookup(key, replicas);
    }

    method CurrentAssignments() returns (out: seq<Assignment>, version: int)
      requires Valid()
      ensures out == Table(hash, vnodes, state.nodes.Keys) && version == state.version
    {
      return state.tokens, state.version;
    }
  }

  predicate StringLess(a: string, b: string) { LexLess(a, b) }

  lemma StringLessIsStrictWeakOrder()
    ensures StrictWeakOrder(StringLess)
  {
    forall x { LexIrreflexive(x); }
    forall x, y, z | StringLess(x, y) && StringLess(y, z) ensures StringLess(x, z) { LexTransitive(x, y, z); }
    forall x, y, z | !StringLess(x, y) && !StringLess(y, z) ensures !StringLess(x, z) {
      LexTotal(x, y);
      LexTotal(y, z);
      if StringLess(x, z) && y != z && x != y { LexTransitive(x, z, y); }
    }
  }

  /** The node IDs in order; the map is walked in any order first. */
  method SortedIds(nodes: map<string, NodeDescriptor>) returns (ids: seq<string>)
    ensures NoDuplicates(ids) && SortedBy(ids, StringLess)
    ensures forall id :: id in ids <==> id in nodes
  {
    ids := [];
    var todo := nodes.Keys;
    while todo != {}
      invariant todo <= nodes.Keys && NoDuplicates(ids)
      invariant forall id :: id in ids <==> id in nodes && id !in todo
    {
      var id :| id in todo;
      todo := todo - {id};
      ids := ids + [id];
    }
    ghost var collected := ids;
    StringLessIsStrictWeakOrder();
    ids := Sorting.Sorted(ids, StringLess);
    forall id ensures id in ids <==> id in collected { assert id in ids <==> id in multiset(ids); }
    forall i, j | 0 <= i < j < |ids| ensures ids[i] != ids[j] {
      OnceInMultiset(collected, ids[i]);
      if ids[i] == ids[j] { TwiceInMultiset(ids, i, j); }
    }
  }

  /** Adds the nodes one after the other to a fresh ring. */
  method BuildRing(hash: string -> Hash, vnodes: nat, ids: seq<string>) returns (ring: Ring)
    requires NoDuplicates(ids) && vnodes > 0
    ensures fresh(ring) && fresh(ring.tokens) && ring.Valid() && ring.hash == hash && ring.vnodes == vnodes
    ensures HoldsMembers(hash, vnodes, (set id | id in ids), ring.Contents())
  {
    ring := new Ring(hash, vnodes);
    var i := 0;
    ghost var members := {};
    while i < |ids|
      invariant 0 <= i <= |ids| && fresh(ring) && fresh(ring.tokens)
      invariant ring.Valid() && ring.hash == hash && ring.vnodes == vnodes
      invariant forall id :: id in members <==> id in ids[..i]
      invariant HoldsMembers(hash, vnodes, members, ring.Contents())
    {
      ghost var before := ring.Contents();
      assert ids[i] !in ids[..i];
      ring.AddNode(ids[i]);
      StepHolds(hash, vnodes, members, before, Add(ids[i]), ring.Contents());
      members := members + {ids[i]};
      i := i + 1;
    }
    assert members == set id | id in ids;
  }

  /** Ranks the ring's tokens node by node and sorts the entries by (token, id). */
  method BuildTable(hash: string -> Hash, vnodes: nat, ghost nodes: set<string>, tokens: seq<Token>)
    returns (table: seq<Assignment>)
    requires HoldsMembers(hash, vnodes, nodes, tokens)
    ensures table == Table(hash, vnodes, nodes)
  {
    table := RankTokens(tokens);
    TableLessIsStrictWeakOrder();
    table := Sorting.Sorted(table, TableLess);
    SortedRankedIsTable(hash, vnodes, nodes, tokens, table);
  }

  /** The counter holds how many tokens of each node were seen. */
  ghost predicate Counts(counter: map<string, nat>, tokens: seq<Token>) {
    forall n :: (if n in counter then counter[n] else 0) == |Only(tokens, n)|
  }

  lemma CountOne(counter: map<string, nat>, tokens: seq<Token>, t: Token)
    requires Counts(counter, tokens)
    ensures var idx := if t.node in counter then counter[t.node] else 0;
            idx == |Only(tokens, t.node)| && Counts(counter[t.node := idx + 1], tokens + [t])
  {
    forall n { OnlyAppend(tokens, t, n); }
  }

  /** The counting loop of rebuildLocked. */
  method RankTokens(tokens: seq<Token>) returns (assignments: seq<Assignment>)
    ensures assignments == Ranked(tokens)
  {
    assignments := [];
    var counter: map<string, nat> := map[];
    var i := 0;
    while i < |tokens|
      invariant 0 <= i <= |tokens| && assignments == Ranked(tokens[..i]) && Counts(counter, tokens[..i])
    {
      var tok := tokens[i];
      assert tokens[..i + 1] == tokens[..i] + [tok];
      RankedAppend(tokens[..i], tok);
      CountOne(counter, tokens[..i], tok);
      var idx := if tok.node in counter then counter[tok.node] else 0;
      counter := counter[tok.node := idx + 1];
      assignments := assignments + [Assignment(Label(tok.node, idx), tok.hash, tok.node)];
      i := i + 1;
    }
    assert tokens[..i] == tokens;
  }

  lemma RankedAppend(s: seq<Token>, t: Token)
    ensures Ranked(s + [t]) == Ranked(s) + [Assignment(Label(t.node, |Only(s, t.node)|), t.hash, t.node)]
  {
    assert (s + [t])[..|s|] == s;
  }

  lemma EmptyTable(hash: string -> Hash, vnodes: nat)
    ensures Table(hash, vnodes, {}) == []
    ensures HoldsMembers(hash, vnodes, {}, [])
  {
    assert Entries(hash, vnodes, {}) == {};
  }

  /** A manager that has loaded what is stored, or an error if there is no client or the state does not decode. */
  method NewRingManager(etcd: Client?, prefix: string, virtualNodes: int, hash: string -> Hash, codec: Codec)
    returns (r: Result<RingManager, string>)
    requires etcd != null ==> etcd.Valid()
    ensures etcd == null ==> r.Err?
    ensures etcd != null ==>
              var vnodes := if virtualNodes <= 0 then 128 else virtualNodes;
              var key := RingKey(if prefix == "" then "/storage/cluster" else prefix);
              var boot := Booted(hash, vnodes, codec, Stored(etcd.State(), key));
              && (r.Ok? <==> boot.Some?)
              && (r.Ok? ==>
                    var m := r.value;
                    && fresh(m) && fresh(m.ring) && fresh(m.ring.tokens) && m.Valid() && m.etcd == etcd
                    && m.hash == hash && m.vnodes == vnodes && m.codec == codec && RingKey(m.prefix) == key
                    && (m.state, m.lastRevision) == boot.value)
  {
    if etcd == null {
      return Err("storage: etcd client is required");
    }
    var m := new RingManager(etcd, prefix, virtualNodes, hash, codec);
    var ok := m.Bootstrap();
    if !ok {
      return Err("storage: failed to decode ring state");
    }
    return Ok(m);
  }

  /**
   A new manager with the same virtual node count, started from what another one left in etcd, has its nodes, version,
   table and revision; and, if no two nodes share a token hash, its ring, so that every lookup agrees.
   */
  method Restart(old_: RingManager) returns (m: RingManager)
    requires old_.Valid() && old_.Synced() && RoundTrips(old_.codec)
    ensures fresh(m) && m.Valid() && m.Synced() && m.state == old_.state && m.lastRevision == old_.lastRevision
    ensures MembersDistinct(old_.hash, old_.vnodes, old_.state.nodes.Keys) ==>
              && m.ring.Contents() == old_.ring.Contents()
              && forall h, replicas ::
                   Take(Preference(m.ring.Contents(), h), replicas) ==
                   Take(Preference(old_.ring.Contents(), h), replicas)
  {
    RestartRestores(old_, Stored(old_.etcd.State(), RingKey(old_.prefix)));
    var r := NewRingManager(old_.etcd, old_.prefix, old_.vnodes, old_.hash, old_.codec);
    m := r.value;
    RestartLooksUpAlike(old_, m);
  }

  lemma RestartRestores(m: RingManager, stored: Option<KvPair>)
    requires m.Valid() && m.Synced() && RoundTrips(m.codec) && stored == Stored(m.etcd.State(), RingKey(m.prefix))
    ensures Booted(m.hash, m.vnodes, m.codec, stored) == Some((m.state, m.lastRevision))
  {
    if stored.Some? {
      assert m.codec.decode(m.codec.encode(m.state)) == Some(m.state);
    }
  }

  /** Managers with the same nodes have the same ring, if no two of the nodes share a token hash. */
  lemma RestartLooksUpAlike(a: RingManager, b: RingManager)
    requires a.Valid() && b.Valid() && a.hash == b.hash && a.vnodes == b.vnodes
    requires a.state.nodes.Keys == b.state.nodes.Keys
    ensures MembersDistinct(a.hash, a.vnodes, a.state.nodes.Keys) ==> a.ring.Contents() == b.ring.Contents()
  {
    if MembersDistinct(a.hash, a.vnodes, a.state.nodes.Keys) {
      HoldingUnique(a.hash, a.vnodes, a.state.nodes.Keys, a.ring.Contents(), b.ring.Contents());
    }
  }
}

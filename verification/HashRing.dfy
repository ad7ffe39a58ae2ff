/** The ring object of internal/chash/ring.go, and sequences of additions and removals. */
module HashRing {
  import opened Prelude
  import opened Sorting
  import opened RingOrder

  /**
   Tokens live in the first `size` cells of `tokens`, as in a slice with spare capacity. `hash` stands for the first
   eight bytes of SHA-1, about which nothing is assumed.
   */
  class Ring {
    const hash: string -> Hash
    const vnodes: nat
    var tokens: array<Token>
    var size: nat

    ghost predicate Valid()
      reads this, tokens
    {
      size <= tokens.Length && RingOrder.Sorted(tokens[..size])
    }

    ghost function Contents(): seq<Token>
      reads this, tokens
      requires Valid()
    {
      tokens[..size]
    }

    constructor (hash: string -> Hash, vnodes: int)
      ensures Valid() && fresh(tokens) && Contents() == []
      ensures this.hash == hash && this.vnodes == if vnodes <= 0 then 100 else vnodes
    {
      this.hash := hash;
      this.vnodes := if vnodes <= 0 then 100 else vnodes;
      tokens := new Token[0];
      size := 0;
    }

    /** The append loop: the old tokens followed by the node's. */
    method Append(node: string) returns (a: array<Token>)
      requires Valid()
      ensures fresh(a) && a[..] == Contents() + NodeTokens(hash, node, vnodes)
    {
      ghost var before, mine := Contents(), NodeTokens(hash, node, vnodes);
      a := new Token[size + vnodes](_ => Token(0, ""));
      var i := 0;
      while i < size
        invariant 0 <= i <= size
        invariant forall k :: 0 <= k < i ==> a[k] == before[k]
      {
        a[i] := tokens[i];
        i := i + 1;
      }
      i := 0;
      while i < vnodes
        invariant 0 <= i <= vnodes
        invariant forall k :: 0 <= k < size ==> a[k] == before[k]
        invariant forall k :: 0 <= k < i ==> a[size + k] == mine[k]
      {
        a[size + i] := Token(hash(Label(node, i)), node);
        i := i + 1;
      }
      forall k | 0 <= k < a.Length ensures a[k] == (before + mine)[k] {
        if k >= size { assert a[size + (k - size)] == mine[k - size]; }
      }
    }

    /** Appends the node's tokens and sorts everything. */
    method AddNode(node: string)
      requires Valid()
      modifies this
      ensures Valid() && fresh(tokens)
      ensures AddedTo(hash, vnodes, old(Contents()), node, Contents())
      ensures forall t :: multiset(Contents())[t] ==
                          multiset(old(Contents()))[t] +
                          if t.node == node then |set i: nat | i < vnodes && hash(Label(node, i)) == t.hash| else 0
    {
      var a := Append(node);
      ghost var appended := a[..];
      assert a[..a.Length] == appended;
      ByHashIsStrictWeakOrder();
      SortSlice(a, a.Length, ByHash);
      tokens := a;
      size := a.Length;
      forall t { NodeTokensCount(hash, node, vnodes, t); }
      forall p, q | 0 <= p < q < size ensures tokens[..size][p].hash <= tokens[..size][q].hash {
        assert !ByHash(a[..a.Length][q], a[..a.Length][p]);
      }
    }

    /** Compacts the tokens in place: no new array, no re-sorting. */
    method RemoveNode(node: string)
      requires Valid()
      modifies this`size, tokens
      ensures Valid()
      ensures Contents() == Without(old(Contents()), node)
    {
      WithoutSorted(Contents(), node);
      size := Compact(tokens, size, node);
    }

    /** sort.Search: the first token at or after `h`, or `size`. */
    method Search(h: Hash) returns (i: nat)
      requires Valid()
      ensures i <= size
      ensures forall k :: 0 <= k < i ==> tokens[k].hash < h
      ensures forall k :: i <= k < size ==> tokens[k].hash >= h
    {
      var j := size;
      i := 0;
      while i < j
        invariant 0 <= i <= j <= size
        invariant forall k :: 0 <= k < i ==> tokens[k].hash < h
        invariant forall k :: j <= k < size ==> tokens[k].hash >= h
      {
        var mid := (i + j) / 2;
        assert forall k :: 0 <= k < size ==> tokens[..size][k] == tokens[k];
        if tokens[mid].hash < h {
          i := mid + 1;
        } else {
          j := mid;
        }
      }
    }

    /** The first `replicas` nodes of the key's preference order. */
    method Lookup(key: string, replicas: int) returns (out: seq<string>)
      requires Valid()
      ensures out == Take(Preference(Contents(), hash(key)), replicas)
      ensures NamesFirst(Contents(), hash(key), replicas, out)
    {
      if replicas <= 0 || size == 0 {
        assert size == 0 ==> Splits(Contents(), hash(key), 0);
        return [];
      }
      var i := Search(hash(key));
      assert Splits(Contents(), hash(key), i);
      LookupMeans(Contents(), hash(key), i, replicas);
      out := WalkFrom(i, hash(key), replicas);
    }

    /** The walk from the index that the search found. */
    method WalkFrom(found: nat, ghost h: Hash, replicas: int) returns (out: seq<string>)
      requires Valid() && size > 0 && replicas > 0 && Splits(Contents(), h, found)
      ensures out == Take(Preference(Contents(), h), replicas)
    {
      var i := found;
      ghost var walk := Clockwise(Contents(), h);
      ClockwiseSplit(Contents()[..i], Contents()[i..], h);
      assert Contents() == Contents()[..i] + Contents()[i..];
      assert walk == Contents()[i..] + Contents()[..i];
      if i == size {
        i := 0;
      }
      forall k | 0 <= k < size ensures tokens[(i + k) % size].node == Nodes(walk)[k] {
        WalkIndex(Contents(), i, k);
      }
      out := Collect(i, replicas, Nodes(walk));
    }

    /** The modular walk from index `i`, stopping at `replicas` distinct nodes; `nodes` are the nodes it meets. */
    method Collect(i: nat, replicas: int, ghost nodes: seq<string>) returns (out: seq<string>)
      requires Valid() && 0 < size == |nodes| && replicas > 0
      requires forall k :: 0 <= k < size ==> tokens[(i + k) % size].node == nodes[k]
      ensures out == Take(Dedup(nodes), replicas)
    {
      var seen: set<string>, k := {}, 0;
      out := [];
      while |out| < replicas && k < size
        invariant 0 <= k <= size && |out| <= replicas
        invariant out == Dedup(nodes[..k])
        invariant forall x :: x in seen <==> x in out
      {
        var n := tokens[(i + k) % size].node;
        DedupAppend(nodes[..k], n);
        assert nodes[..k + 1] == nodes[..k] + [n];
        k := k + 1;
        if n in seen {
          continue;
        }
        seen := seen + {n};
        out := out + [n];
      }
      DedupPrefix(nodes, k);
      if k == size { assert nodes[..k] == nodes; }
    }

    method Tokens() returns (out: seq<Token>)
      requires Valid()
      ensures out == Contents()
    {
      return tokens[..size];
    }
  }

  /** Keeps the other nodes' tokens, writing behind the reading position in the same array. */
  method Compact(a: array<Token>, n: nat, node: string) returns (out: nat)
    requires n <= a.Length
    modifies a
    ensures out <= n && a[..out] == Without(old(a[..n]), node)
  {
    ghost var before := a[..n];
    out := 0;
    var i := 0;
    while i < n
      invariant 0 <= out <= i <= n
      invariant forall k :: i <= k < n ==> a[k] == before[k]
      invariant a[..out] == Without(before[..i], node)
    {
      WithoutNext(before, i, node);
      if a[i].node != node {
        a[out] := a[i];
        out := out + 1;
      }
      i := i + 1;
    }
    assert before[..i] == before;
  }

  lemma WithoutNext(tokens: seq<Token>, i: nat, node: string)
    requires i < |tokens|
    ensures Without(tokens[..i + 1], node) ==
            if tokens[i].node != node then Without(tokens[..i], node) + [tokens[i]] else Without(tokens[..i], node)
  {
    assert tokens[..i + 1][..i] == tokens[..i];
  }

  lemma WalkIndex(tokens: seq<Token>, i: nat, k: nat)
    requires i < |tokens| && k < |tokens|
    ensures (tokens[i..] + tokens[..i])[k] == tokens[(i + k) % |tokens|]
  {
    var n := |tokens|;
    if i + k < n {
      assert (i + k) % n == i + k;
    } else {
      assert (i + k) % n == i + k - n;
    }
  }

  // ---------- Histories of a ring ----------

  datatype RingOp = Add(node: string) | Remove(node: string)

  function Members(ops: seq<RingOp>): set<string> {
    if ops == [] then {}
    else
      var before, op := Members(ops[..|ops| - 1]), ops[|ops| - 1];
      if op.Add? then before + {op.node} else before - {op.node}
  }

  ghost predicate RingStep(hash: string -> Hash, vnodes: nat, tokens: seq<Token>, op: RingOp, tokens': seq<Token>) {
    match op
    case Add(node) => AddedTo(hash, vnodes, tokens, node, tokens')
    case Remove(node) => tokens' == Without(tokens, node)
  }

  /** `states` are the token sequences a ring may go through; a node is added only while it is not a member. */
  ghost predicate RingRun(hash: string -> Hash, vnodes: nat, ops: seq<RingOp>, states: seq<seq<Token>>) {
    && |states| == |ops| + 1 && states[0] == []
    && (forall i :: 0 <= i < |ops| ==> RingStep(hash, vnodes, states[i], ops[i], states[i + 1]))
    && (forall i :: 0 <= i < |ops| && ops[i].Add? ==> ops[i].node !in Members(ops[..i]))
  }

  /** Exactly the members' tokens, each node's own ones, sorted. */
  ghost predicate HoldsMembers(hash: string -> Hash, vnodes: nat, members: set<string>, tokens: seq<Token>) {
    && RingOrder.Sorted(tokens)
    && forall t :: multiset(tokens)[t] ==
                   if t.node in members then multiset(NodeTokens(hash, t.node, vnodes))[t] else 0
  }

  lemma {:induction false} StepHolds(hash: string -> Hash, vnodes: nat, members: set<string>, tokens: seq<Token>,
                                     op: RingOp, tokens': seq<Token>)
    requires HoldsMembers(hash, vnodes, members, tokens) && RingStep(hash, vnodes, tokens, op, tokens')
    requires op.Add? ==> op.node !in members
    ensures HoldsMembers(hash, vnodes, if op.Add? then members + {op.node} else members - {op.node}, tokens')
  {
    var members' := if op.Add? then members + {op.node} else members - {op.node};
    if op.Remove? { WithoutSorted(tokens, op.node); }
    forall t
      ensures multiset(tokens')[t] == if t.node in members' then multiset(NodeTokens(hash, t.node, vnodes))[t] else 0
    {
      if op.Remove? {
        WithoutCounts(tokens, op.node, t);
      } else if t.node != op.node {
        assert t !in NodeTokens(hash, op.node, vnodes);
      }
    }
  }

  /** The last operation on the node added it. */
  ghost predicate LastAdded(ops: seq<RingOp>, node: string) {
    exists i :: 0 <= i < |ops| && ops[i] == Add(node) && forall j :: i < j < |ops| ==> ops[j] != Remove(node)
  }

  lemma {:induction false} MembersMean(ops: seq<RingOp>, node: string)
    ensures node in Members(ops) <==> LastAdded(ops, node)
  {
    if ops != [] {
      var n, front := |ops| - 1, ops[..|ops| - 1];
      MembersMean(front, node);
      assert forall i :: 0 <= i < n ==> front[i] == ops[i];
      if LastAdded(front, node) && ops[n] != Remove(node) {
        var i :| 0 <= i < n && front[i] == Add(node) && forall j :: i < j < n ==> front[j] != Remove(node);
        assert ops[i] == Add(node) && forall j :: i < j < |ops| ==> ops[j] != Remove(node);
      }
      if LastAdded(ops, node) && ops[n] != Add(node) {
        var i :| 0 <= i < |ops| && ops[i] == Add(node) && forall j :: i < j < |ops| ==> ops[j] != Remove(node);
        assert front[i] == Add(node) && forall j :: i < j < n ==> front[j] != Remove(node);
      }
    }
  }

  /**
   After any history the ring is sorted and holds a token of every member for each of the node's vnodes labels, and
   nothing else.
   */
  lemma HistoryHolds(hash: string -> Hash, vnodes: nat, ops: seq<RingOp>, states: seq<seq<Token>>)
    requires RingRun(hash, vnodes, ops, states)
    ensures var tokens := states[|ops|];
            && (forall i, j :: 0 <= i < j < |tokens| ==> tokens[i].hash <= tokens[j].hash)
            && forall t :: multiset(tokens)[t] ==
                           if LastAdded(ops, t.node)
                           then |set i: nat | i < vnodes && hash(Label(t.node, i)) == t.hash| else 0
  {
    RunHoldsMembers(hash, vnodes, ops, states);
    forall t
      ensures multiset(states[|ops|])[t] ==
              if LastAdded(ops, t.node) then |set i: nat | i < vnodes && hash(Label(t.node, i)) == t.hash| else 0
    {
      MembersMean(ops, t.node);
      NodeTokensCount(hash, t.node, vnodes, t);
    }
  }

  /** After any history the ring holds exactly vnodes tokens per member, sorted. */
  lemma {:induction false} RunHoldsMembers(hash: string -> Hash, vnodes: nat, ops: seq<RingOp>, states: seq<seq<Token>>)
    requires RingRun(hash, vnodes, ops, states)
    ensures HoldsMembers(hash, vnodes, Members(ops), states[|ops|])
  {
    if ops != [] {
      var n := |ops| - 1;
      forall i | 0 <= i < n && ops[..n][i].Add? ensures ops[..n][i].node !in Members(ops[..n][..i]) {
        assert ops[..n][..i] == ops[..i];
      }
      RunHoldsMembers(hash, vnodes, ops[..n], states[..n + 1]);
      assert RingStep(hash, vnodes, states[n], ops[n], states[n + 1]);
      StepHolds(hash, vnodes, Members(ops[..n]), states[n], ops[n], states[n + 1]);
    }
  }

  /** No two members share a token hash. */
  ghost predicate MembersDistinct(hash: string -> Hash, vnodes: nat, members: set<string>) {
    forall m, n, i: nat, j: nat :: m in members && n in members && m != n && i < vnodes && j < vnodes ==>
      hash(Label(m, i)) != hash(Label(n, j))
  }

  lemma DistinctMembersCollisionFree(hash: string -> Hash, vnodes: nat, members: set<string>, tokens: seq<Token>)
    requires HoldsMembers(hash, vnodes, members, tokens) && MembersDistinct(hash, vnodes, members)
    ensures CollisionFree(tokens)
  {
    forall s, t | s in tokens && t in tokens && s.hash == t.hash ensures s.node == t.node {
      assert multiset(tokens)[s] > 0 && multiset(tokens)[t] > 0;
      assert s in NodeTokens(hash, s.node, vnodes) && t in NodeTokens(hash, t.node, vnodes);
      var i :| 0 <= i < vnodes && NodeTokens(hash, s.node, vnodes)[i] == s;
      var j :| 0 <= j < vnodes && NodeTokens(hash, t.node, vnodes)[j] == t;
    }
  }

  /** Without collisions between members, the ring is a function of its membership, and so is every lookup. */
  lemma {:induction false} MembershipDeterminesRing(
    hash: string -> Hash, vnodes: nat, ops1: seq<RingOp>, states1: seq<seq<Token>>, ops2: seq<RingOp>,
    states2: seq<seq<Token>>)
    requires RingRun(hash, vnodes, ops1, states1) && RingRun(hash, vnodes, ops2, states2)
    requires Members(ops1) == Members(ops2) && MembersDistinct(hash, vnodes, Members(ops1))
    ensures states1[|ops1|] == states2[|ops2|]
  {
    RunHoldsMembers(hash, vnodes, ops1, states1);
    RunHoldsMembers(hash, vnodes, ops2, states2);
    HoldingUnique(hash, vnodes, Members(ops1), states1[|ops1|], states2[|ops2|]);
  }

  lemma HoldingUnique(hash: string -> Hash, vnodes: nat, members: set<string>, a: seq<Token>, b: seq<Token>)
    requires HoldsMembers(hash, vnodes, members, a) && HoldsMembers(hash, vnodes, members, b)
    requires MembersDistinct(hash, vnodes, members)
    ensures a == b
  {
    DistinctMembersCollisionFree(hash, vnodes, members, a);
    assert forall t :: multiset(a)[t] == multiset(b)[t];
    assert multiset(a) == multiset(b);
    SortedUnique(a, b);
  }

  /** On a ring with one member every key prefers that member and nobody else. */
  lemma SoleMember(hash: string -> Hash, vnodes: nat, node: string, tokens: seq<Token>, h: Hash)
    requires vnodes > 0 && HoldsMembers(hash, vnodes, {node}, tokens)
    ensures Preference(tokens, h) == [node]
  {
    var nodes, order := Nodes(Clockwise(tokens, h)), Preference(tokens, h);
    DedupFacts(nodes);
    ClockwiseMembers(tokens, h);
    forall i | 0 <= i < |nodes| ensures nodes[i] == node {
      assert Clockwise(tokens, h)[i] in tokens;
      assert multiset(tokens)[Clockwise(tokens, h)[i]] > 0;
    }
    var t := NodeTokens(hash, node, vnodes)[0];
    assert t in NodeTokens(hash, node, vnodes);
    assert multiset(tokens)[t] > 0 && t in tokens;
    var k :| 0 <= k < |Clockwise(tokens, h)| && Clockwise(tokens, h)[k] == t;
    assert nodes[k] in nodes && node in order;
    forall i | 0 <= i < |order| ensures order[i] == node { assert order[i] in order; }
    assert order[|order| - 1] == order[0];
  }
}

/** Hash rings as sorted token sequences: clockwise walks, first occurrences, and what a lookup must return. */
module RingOrder {
  import opened Prelude
  import opened Sorting

  type Hash = h: int | 0 <= h < 0x1_0000_0000_0000_0000

  datatype Token = Token(hash: Hash, node: string)

  predicate ByHash(a: Token, b: Token) { a.hash < b.hash }

  lemma ByHashIsStrictWeakOrder()
    ensures StrictWeakOrder(ByHash)
  {
  }

  ghost predicate Sorted(tokens: seq<Token>) {
    forall i, j :: 0 <= i < j < |tokens| ==> tokens[i].hash <= tokens[j].hash
  }

  /** The virtual nodes of one node. */
  function NodeTokens(hash: string -> Hash, node: string, vnodes: nat): seq<Token> {
    seq(vnodes, i requires 0 <= i < vnodes => Token(hash(Label(node, i)), node))
  }

  /** How often a token occurs among them: once for every index whose label has its hash. */
  lemma {:induction false} NodeTokensCount(hash: string -> Hash, node: string, vnodes: nat, t: Token)
    ensures multiset(NodeTokens(hash, node, vnodes))[t] ==
            if t.node == node then |set i: nat | i < vnodes && hash(Label(node, i)) == t.hash| else 0
  {
    if vnodes > 0 {
      var n := vnodes - 1;
      NodeTokensCount(hash, node, n, t);
      assert NodeTokens(hash, node, vnodes) == NodeTokens(hash, node, n) + [Token(hash(Label(node, n)), node)];
      var before, now := (set i: nat | i < n && hash(Label(node, i)) == t.hash),
                         (set i: nat | i < vnodes && hash(Label(node, i)) == t.hash);
      assert now == if hash(Label(node, n)) == t.hash then before + {n} else before;
    } else {
      assert (set i: nat | i < 0 && hash(Label(node, i)) == t.hash) == {};
    }
  }

  function Without(tokens: seq<Token>, node: string): seq<Token> {
    if tokens == [] then []
    else
      var last := tokens[|tokens| - 1];
      Without(tokens[..|tokens| - 1], node) + if last.node != node then [last] else []
  }

  function Only(tokens: seq<Token>, node: string): seq<Token> {
    if tokens == [] then []
    else
      var last := tokens[|tokens| - 1];
      Only(tokens[..|tokens| - 1], node) + if last.node == node then [last] else []
  }

  /** Tokens at or after hash `h`, and tokens before it. */
  function From(tokens: seq<Token>, h: Hash): seq<Token> {
    if tokens == [] then []
    else
      var last := tokens[|tokens| - 1];
      From(tokens[..|tokens| - 1], h) + if last.hash >= h then [last] else []
  }

  function Before(tokens: seq<Token>, h: Hash): seq<Token> {
    if tokens == [] then []
    else
      var last := tokens[|tokens| - 1];
      Before(tokens[..|tokens| - 1], h) + if last.hash < h then [last] else []
  }

  /** The walk once around the ring, starting at `h`. */
  function Clockwise(tokens: seq<Token>, h: Hash): seq<Token> {
    From(tokens, h) + Before(tokens, h)
  }

  function Nodes(tokens: seq<Token>): seq<string> {
    seq(|tokens|, i requires 0 <= i < |tokens| => tokens[i].node)
  }

  /** First occurrences, in order. */
  function Dedup(s: seq<string>): seq<string> {
    if s == [] then []
    else
      var d, last := Dedup(s[..|s| - 1]), s[|s| - 1];
      if last in d then d else d + [last]
  }

  function Drop(s: seq<string>, x: string): seq<string> {
    if s == [] then []
    else
      var last := s[|s| - 1];
      Drop(s[..|s| - 1], x) + if last != x then [last] else []
  }

  function Take(s: seq<string>, n: int): seq<string> {
    if n <= 0 then [] else if |s| <= n then s else s[..n]
  }

  /** Every node of the ring, in the order a key hashing to `h` meets them. */
  function Preference(tokens: seq<Token>, h: Hash): seq<string> {
    Dedup(Nodes(Clockwise(tokens, h)))
  }

  ghost predicate NoDuplicates(s: seq<string>) {
    forall i, j :: 0 <= i < j < |s| ==> s[i] != s[j]
  }

  // ---------- The walk from an index is the clockwise walk ----------

  lemma FilterAppend(s: seq<Token>, t: Token, node: string, h: Hash)
    ensures Without(s + [t], node) == if t.node != node then Without(s, node) + [t] else Without(s, node)
    ensures From(s + [t], h) == if t.hash >= h then From(s, h) + [t] else From(s, h)
    ensures Before(s + [t], h) == if t.hash < h then Before(s, h) + [t] else Before(s, h)
  {
    assert (s + [t])[..|s|] == s;
  }

  lemma {:induction false} AllBefore(tokens: seq<Token>, h: Hash)
    requires forall k :: 0 <= k < |tokens| ==> tokens[k].hash < h
    ensures Before(tokens, h) == tokens && From(tokens, h) == []
  {
    if tokens != [] {
      var front, last := tokens[..|tokens| - 1], tokens[|tokens| - 1];
      AllBefore(front, h);
      assert Before(tokens, h) == front + [last] && From(tokens, h) == From(front, h);
    }
  }

  lemma {:induction false} AllFrom(tokens: seq<Token>, h: Hash)
    requires forall k :: 0 <= k < |tokens| ==> tokens[k].hash >= h
    ensures Before(tokens, h) == [] && From(tokens, h) == tokens
  {
    if tokens != [] {
      var front, last := tokens[..|tokens| - 1], tokens[|tokens| - 1];
      AllFrom(front, h);
      assert From(tokens, h) == front + [last] && Before(tokens, h) == Before(front, h);
    }
  }

  lemma {:induction false} SidesConcat(a: seq<Token>, b: seq<Token>, h: Hash)
    ensures From(a + b, h) == From(a, h) + From(b, h)
    ensures Before(a + b, h) == Before(a, h) + Before(b, h)
  {
    if b == [] {
      assert a + b == a;
    } else {
      assert (a + b)[..|a + b| - 1] == a + b[..|b| - 1];
      SidesConcat(a, b[..|b| - 1], h);
    }
  }

  lemma ClockwiseSplit(low: seq<Token>, high: seq<Token>, h: Hash)
    requires forall k :: 0 <= k < |low| ==> low[k].hash < h
    requires forall k :: 0 <= k < |high| ==> high[k].hash >= h
    ensures Clockwise(low + high, h) == high + low
  {
    AllBefore(low, h);
    AllFrom(high, h);
    SidesConcat(low, high, h);
    assert From(low + high, h) == high by { assert [] + high == high; }
    assert Before(low + high, h) == low by { assert low + [] == low; }
  }

  lemma {:induction false} SidesMembers(tokens: seq<Token>, h: Hash)
    ensures forall t :: t in From(tokens, h) <==> t in tokens && t.hash >= h
    ensures forall t :: t in Before(tokens, h) <==> t in tokens && t.hash < h
  {
    if tokens != [] {
      SidesMembers(tokens[..|tokens| - 1], h);
      assert tokens == tokens[..|tokens| - 1] + [tokens[|tokens| - 1]];
    }
  }

  lemma ClockwiseMembers(tokens: seq<Token>, h: Hash)
    ensures forall t :: t in Clockwise(tokens, h) <==> t in tokens
  {
    SidesMembers(tokens, h);
  }

  // ---------- Deduplication ----------

  lemma {:induction false} DedupFacts(s: seq<string>)
    ensures NoDuplicates(Dedup(s))
    ensures forall x :: x in Dedup(s) <==> x in s
    ensures |Dedup(s)| <= |s|
  {
    if s != [] {
      DedupFacts(s[..|s| - 1]);
      assert s == s[..|s| - 1] + [s[|s| - 1]];
    }
  }

  lemma {:induction false} DedupPrefix(s: seq<string>, k: nat)
    requires k <= |s|
    ensures Dedup(s[..k]) <= Dedup(s)
    decreases |s|
  {
    if k == |s| {
      assert s[..k] == s;
    } else {
      assert s[..|s| - 1][..k] == s[..k];
      DedupPrefix(s[..|s| - 1], k);
    }
  }

  /** Entry `j` is the first element of `s` that is not among the entries before it. */
  lemma {:induction false} DedupOrder(s: seq<string>, j: nat)
    requires j < |Dedup(s)|
    ensures exists p :: FirstNew(s, Dedup(s), j, p)
  {
    var front, last, d := s[..|s| - 1], s[|s| - 1], Dedup(s);
    DedupFacts(front);
    if j < |Dedup(front)| {
      DedupOrder(front, j);
      var p :| FirstNew(front, Dedup(front), j, p);
      assert d[..j] == Dedup(front)[..j];
      assert FirstNew(s, d, j, p);
    } else {
      assert d[..j] == Dedup(front);
      assert forall q :: 0 <= q < |front| ==> s[q] == front[q] && front[q] in Dedup(front);
      assert FirstNew(s, d, j, |s| - 1);
    }
  }

  predicate FirstNew(s: seq<string>, d: seq<string>, j: nat, p: int) {
    && j < |d| && 0 <= p < |s| && s[p] == d[j]
    && forall q :: 0 <= q < p ==> s[q] in d[..j]
  }

  lemma {:induction false} DropFacts(s: seq<string>, x: string)
    ensures x !in Drop(s, x)
    ensures forall y :: y in Drop(s, x) <==> y in s && y != x
    ensures x !in s ==> Drop(s, x) == s
  {
    if s != [] {
      DropFacts(s[..|s| - 1], x);
      assert s == s[..|s| - 1] + [s[|s| - 1]];
    }
  }

  lemma DropAppend(s: seq<string>, y: string, x: string)
    ensures Drop(s + [y], x) == if y != x then Drop(s, x) + [y] else Drop(s, x)
  {
    assert (s + [y])[..|s|] == s;
  }

  lemma DedupAppend(s: seq<string>, y: string)
    ensures Dedup(s + [y]) == if y in Dedup(s) then Dedup(s) else Dedup(s) + [y]
  {
    assert (s + [y])[..|s|] == s;
  }

  lemma {:induction false} DedupDrop(s: seq<string>, x: string)
    ensures Dedup(Drop(s, x)) == Drop(Dedup(s), x)
  {
    if s != [] {
      var front, last := s[..|s| - 1], s[|s| - 1];
      DedupDrop(front, x);
      DropFacts(Dedup(front), x);
      DedupAppend(Drop(front, x), last);
      DropAppend(Dedup(front), last, x);
      assert Drop(s, x) == if last != x then Drop(front, x) + [last] else Drop(front, x);
    }
  }

  /** Putting a dropped element back in its place. */
  lemma {:induction false} DropOne(s: seq<string>, p: nat)
    requires NoDuplicates(s) && p < |s|
    ensures Drop(s, s[p]) == s[..p] + s[p + 1..]
  {
    var n := |s| - 1;
    if p == n {
      assert s[n] !in s[..n];
      DropFacts(s[..n], s[n]);
      assert s[n + 1..] == [];
    } else {
      DropOne(s[..n], p);
      assert s[..n][..p] == s[..p] && s[p + 1..] == s[..n][p + 1..] + [s[n]];
    }
  }

  // ---------- Removing a node from the walk ----------

  lemma {:induction false} NodesWithout(tokens: seq<Token>, node: string)
    ensures Nodes(Without(tokens, node)) == Drop(Nodes(tokens), node)
  {
    if tokens != [] {
      var front, last := tokens[..|tokens| - 1], tokens[|tokens| - 1];
      NodesWithout(front, node);
      assert Nodes(tokens)[..|tokens| - 1] == Nodes(front);
      assert Nodes(Without(front, node) + [last]) == Nodes(Without(front, node)) + [last.node];
      assert Without(front, node) + [] == Without(front, node);
    }
  }

  lemma {:induction false} WithoutConcat(a: seq<Token>, b: seq<Token>, node: string)
    ensures Without(a + b, node) == Without(a, node) + Without(b, node)
  {
    if b == [] {
      assert a + b == a;
    } else {
      assert (a + b)[..|a + b| - 1] == a + b[..|b| - 1];
      WithoutConcat(a, b[..|b| - 1], node);
    }
  }

  lemma {:induction false} WithoutCommutes(tokens: seq<Token>, node: string, h: Hash)
    ensures From(Without(tokens, node), h) == Without(From(tokens, h), node)
    ensures Before(Without(tokens, node), h) == Without(Before(tokens, h), node)
  {
    if tokens != [] {
      var front, last := tokens[..|tokens| - 1], tokens[|tokens| - 1];
      assert tokens == front + [last];
      WithoutCommutes(front, node, h);
      FilterAppend(front, last, node, h);
      FilterAppend(Without(front, node), last, node, h);
      FilterAppend(From(front, h), last, node, h);
      FilterAppend(Before(front, h), last, node, h);
    }
  }

  /** Dropping a node's tokens drops exactly that node from every preference order. */
  lemma PreferenceWithout(tokens: seq<Token>, node: string, h: Hash)
    ensures Preference(Without(tokens, node), h) == Drop(Preference(tokens, h), node)
  {
    WithoutCommutes(tokens, node, h);
    WithoutConcat(From(tokens, h), Before(tokens, h), node);
    NodesWithout(Clockwise(tokens, h), node);
    DedupDrop(Nodes(Clockwise(tokens, h)), node);
  }

  // ---------- Sorted rings are determined by their contents ----------

  /** No hash is shared by two different nodes. */
  ghost predicate CollisionFree(tokens: seq<Token>) {
    forall s, t :: s in tokens && t in tokens && s.hash == t.hash ==> s.node == t.node
  }

  lemma SameHead(a: seq<Token>, b: seq<Token>)
    requires Sorted(a) && Sorted(b) && multiset(a) == multiset(b) && CollisionFree(a) && a != [] && b != []
    ensures a[0] == b[0]
  {
    assert a[0] in multiset(b) && b[0] in multiset(a);
    var i :| 0 <= i < |b| && b[i] == a[0];
    var j :| 0 <= j < |a| && a[j] == b[0];
    assert a[0].hash <= a[j].hash && b[0].hash <= b[i].hash;
    assert a[0] in a && a[j] in a;
  }

  lemma WithoutHead(s: seq<Token>)
    requires s != []
    ensures multiset(s[1..]) == multiset(s) - multiset{s[0]} && forall t :: t in s[1..] ==> t in s
  {
    assert s == [s[0]] + s[1..];
  }

  lemma {:induction false} SortedUnique(a: seq<Token>, b: seq<Token>)
    requires Sorted(a) && Sorted(b) && multiset(a) == multiset(b) && CollisionFree(a)
    ensures a == b
  {
    assert |multiset(a)| == |a| && |multiset(b)| == |b|;
    if a != [] {
      SameHead(a, b);
      WithoutHead(a);
      WithoutHead(b);
      SortedUnique(a[1..], b[1..]);
    }
  }

  lemma {:induction false} WithoutMembers(tokens: seq<Token>, node: string)
    ensures forall t :: t in Without(tokens, node) <==> t in tokens && t.node != node
  {
    if tokens != [] {
      WithoutMembers(tokens[..|tokens| - 1], node);
      assert tokens == tokens[..|tokens| - 1] + [tokens[|tokens| - 1]];
    }
  }

  lemma {:induction false} WithoutSorted(tokens: seq<Token>, node: string)
    requires Sorted(tokens)
    ensures Sorted(Without(tokens, node))
  {
    if tokens != [] {
      var front, last := tokens[..|tokens| - 1], tokens[|tokens| - 1];
      WithoutSorted(front, node);
      WithoutMembers(front, node);
      var w := Without(front, node);
      forall i | 0 <= i < |w| ensures w[i].hash <= last.hash { assert w[i] in front; }
    }
  }

  lemma {:induction false} WithoutCounts(tokens: seq<Token>, node: string, t: Token)
    ensures multiset(Without(tokens, node))[t] == if t.node == node then 0 else multiset(tokens)[t]
  {
    if tokens != [] {
      var front, last := tokens[..|tokens| - 1], tokens[|tokens| - 1];
      WithoutCounts(front, node, t);
      assert tokens == front + [last];
    }
  }

  lemma {:induction false} OnlyCounts(tokens: seq<Token>, node: string, t: Token)
    ensures multiset(Only(tokens, node))[t] == if t.node == node then multiset(tokens)[t] else 0
  {
    if tokens != [] {
      var front, last := tokens[..|tokens| - 1], tokens[|tokens| - 1];
      OnlyCounts(front, node, t);
      assert tokens == front + [last];
    }
  }

  lemma {:induction false} OnlySorted(tokens: seq<Token>, node: string)
    requires Sorted(tokens)
    ensures Sorted(Only(tokens, node))
    ensures forall t :: t in Only(tokens, node) ==> t in tokens && t.node == node
  {
    if tokens != [] {
      var front, last := tokens[..|tokens| - 1], tokens[|tokens| - 1];
      OnlySorted(front, node);
      assert tokens == front + [last];
      var o := Only(front, node);
      forall i | 0 <= i < |o| ensures o[i].hash <= last.hash { assert o[i] in front; }
    }
  }

  // ---------- Adding and removing nodes ----------

  /** What AddNode may leave: the old tokens and the node's, sorted, equal hashes in any order. */
  ghost predicate AddedTo(hash: string -> Hash, vnodes: nat, tokens: seq<Token>, node: string, tokens': seq<Token>) {
    Sorted(tokens') && multiset(tokens') == multiset(tokens + NodeTokens(hash, node, vnodes))
  }

  /** The other nodes' tokens survive an addition in their old order, if they did not collide with one another. */
  lemma AddKeepsOthers(hash: string -> Hash, vnodes: nat, tokens: seq<Token>, node: string, tokens': seq<Token>)
    requires Sorted(tokens) && CollisionFree(tokens) && AddedTo(hash, vnodes, tokens, node, tokens')
    ensures Without(tokens', node) == Without(tokens, node)
  {
    WithoutSorted(tokens', node);
    WithoutSorted(tokens, node);
    WithoutMembers(tokens, node);
    forall t ensures multiset(Without(tokens', node))[t] == multiset(Without(tokens, node))[t] {
      WithoutCounts(tokens', node, t);
      WithoutCounts(tokens, node, t);
      if t.node != node { assert t !in NodeTokens(hash, node, vnodes); }
    }
    assert multiset(Without(tokens', node)) == multiset(Without(tokens, node));
    SortedUnique(Without(tokens, node), Without(tokens', node));
  }

  /**
   Adding a new node disturbs each key minimally: every lookup is the old one, or the old one with the new node put in
   at one place and cut back to the replica count.
   */
  lemma {:induction false} AddDisturbsMinimally(
    hash: string -> Hash, vnodes: nat, tokens: seq<Token>, node: string, tokens': seq<Token>, h: Hash, replicas: int)
    requires Sorted(tokens) && CollisionFree(tokens) && AddedTo(hash, vnodes, tokens, node, tokens')
    requires forall t :: t in tokens ==> t.node != node
    ensures Drop(Preference(tokens', h), node) == Preference(tokens, h)
    ensures var before, after := Take(Preference(tokens, h), replicas), Take(Preference(tokens', h), replicas);
            || after == before
            || exists p :: 0 <= p <= |before| && after == Take(before[..p] + [node] + before[p..], replicas)
  {
    AddKeepsOthers(hash, vnodes, tokens, node, tokens');
    WithoutAbsent(tokens, node);
    PreferenceWithout(tokens', node, h);
    var d' := Preference(tokens', h);
    DedupFacts(Nodes(Clockwise(tokens', h)));
    DropFacts(d', node);
    if node in d' {
      var p :| 0 <= p < |d'| && d'[p] == node;
      DropOne(d', p);
      CutInsertion(d', p, replicas);
    }
  }

  /** Cutting commutes with putting an element in. */
  lemma CutInsertion(d: seq<string>, p: nat, replicas: int)
    requires p < |d|
    ensures var rest := d[..p] + d[p + 1..];
            var before := Take(rest, replicas);
            if p < replicas then
              p <= |before| && Take(d, replicas) == Take(before[..p] + [d[p]] + before[p..], replicas)
            else Take(d, replicas) == before
  {
    var rest := d[..p] + d[p + 1..];
    var before := Take(rest, replicas);
    if p < replicas {
      assert before[..p] == d[..p];
      var whole := before[..p] + [d[p]] + before[p..];
      assert forall k :: 0 <= k < |whole| && k < replicas ==> whole[k] == d[k];
    }
  }

  lemma {:induction false} WithoutAbsent(tokens: seq<Token>, node: string)
    requires forall t :: t in tokens ==> t.node != node
    ensures Without(tokens, node) == tokens
  {
    if tokens != [] {
      var front := tokens[..|tokens| - 1];
      assert tokens == front + [tokens[|tokens| - 1]];
      WithoutAbsent(front, node);
    }
  }

  /**
   Removing a node leaves every lookup that lacked it alone; any other loses it and gains at its end the next node of
   the old preference order, if there is one. No assumption on hashes is needed.
   */
  lemma {:induction false} RemoveDisturbsMinimally(tokens: seq<Token>, node: string, h: Hash, replicas: int)
    ensures var order := Preference(tokens, h);
            var before, after := Take(order, replicas), Take(Preference(Without(tokens, node), h), replicas);
            if node !in before then after == before
            else after == Drop(before, node) + if replicas < |order| then [order[replicas]] else []
  {
    PreferenceWithout(tokens, node, h);
    DedupFacts(Nodes(Clockwise(tokens, h)));
    CutDrop(Preference(tokens, h), node, replicas);
  }

  lemma CutDrop(d: seq<string>, x: string, replicas: int)
    requires NoDuplicates(d)
    ensures var before := Take(d, replicas);
            Take(Drop(d, x), replicas) ==
            if x !in before then before
            else Drop(before, x) + if replicas < |d| then [d[replicas]] else []
  {
    var before := Take(d, replicas);
    DropFacts(d, x);
    if x in before {
      var p :| 0 <= p < |before| && before[p] == x;
      assert d[p] == x;
      DropOne(d, p);
      DropOne(before, p);
      CutWithout(d, p, replicas);
    } else if x in d {
      var p :| 0 <= p < |d| && d[p] == x;
      DropOne(d, p);
      assert forall k :: 0 <= k < |before| ==> d[k] == before[k] && before[k] in before;
    }
  }

  lemma CutWithout(d: seq<string>, p: nat, replicas: int)
    requires p < |d| && p < replicas
    ensures var before := Take(d, replicas);
            Take(d[..p] + d[p + 1..], replicas) ==
            before[..p] + before[p + 1..] + if replicas < |d| then [d[replicas]] else []
  {
  }

  /** Adding a node that was not there and removing it again restores the ring. */
  lemma AddThenRemove(hash: string -> Hash, vnodes: nat, tokens: seq<Token>, node: string, tokens': seq<Token>)
    requires Sorted(tokens) && CollisionFree(tokens) && AddedTo(hash, vnodes, tokens, node, tokens')
    requires forall t :: t in tokens ==> t.node != node
    ensures Without(tokens', node) == tokens
  {
    AddKeepsOthers(hash, vnodes, tokens, node, tokens');
    WithoutAbsent(tokens, node);
  }

  /** Lookups are duplicate-free, and asking for one replica more only extends the answer. */
  lemma LookupsNest(tokens: seq<Token>, h: Hash, replicas: int)
    ensures NoDuplicates(Take(Preference(tokens, h), replicas))
    ensures Take(Preference(tokens, h), replicas) <= Take(Preference(tokens, h), replicas + 1)
  {
    DedupFacts(Nodes(Clockwise(tokens, h)));
  }

  /** The tokens before `start` are those with a hash below `h`. */
  predicate Splits(tokens: seq<Token>, h: Hash, start: nat) {
    && start <= |tokens|
    && (forall k :: 0 <= k < start ==> tokens[k].hash < h)
    && (forall k :: start <= k < |tokens| ==> tokens[k].hash >= h)
  }

  /** Entry `j` of `out` is the node at place `p` of the walk, the first that is not among the entries before it. */
  predicate Meets(walk: seq<Token>, out: seq<string>, j: nat, p: int) {
    j < |out| && 0 <= p < |walk| && walk[p].node == out[j] && forall q :: 0 <= q < p ==> walk[q].node in out[..j]
  }

  ghost predicate Met(walk: seq<Token>, out: seq<string>, j: nat) {
    exists p :: Meets(walk, out, j, p)
  }

  /**
   `out` names nodes of the ring, each once, as many as asked for or all there are; each is the first node not yet named
   on the walk from the first token at or after the key's hash to the end, and then from the start.
   */
  ghost predicate NamesFirst(tokens: seq<Token>, h: Hash, replicas: int, out: seq<string>) {
    if replicas <= 0 then out == []
    else
      && |out| <= replicas && NoDuplicates(out)
      && (|out| < replicas ==> forall k :: 0 <= k < |tokens| ==> tokens[k].node in out)
      && exists start: nat ::
           && Splits(tokens, h, start)
           && forall j :: 0 <= j < |out| ==> Met(tokens[start..] + tokens[..start], out, j)
  }

  lemma LookupMeans(tokens: seq<Token>, h: Hash, start: nat, replicas: int)
    requires Splits(tokens, h, start) && replicas > 0
    ensures NamesFirst(tokens, h, replicas, Take(Preference(tokens, h), replicas))
  {
    var walk := tokens[start..] + tokens[..start];
    var order, out := Preference(tokens, h), Take(Preference(tokens, h), replicas);
    assert tokens == tokens[..start] + tokens[start..];
    ClockwiseSplit(tokens[..start], tokens[start..], h);
    DedupFacts(Nodes(walk));
    forall j | 0 <= j < |out| ensures Met(walk, out, j) {
      DedupOrder(Nodes(walk), j);
      var p :| FirstNew(Nodes(walk), order, j, p);
      MeetsHere(walk, order, replicas, j, p);
    }
    forall k | 0 <= k < |tokens| ensures tokens[k].node in order { NodeInOrder(tokens, h, k); }
  }

  lemma MeetsHere(walk: seq<Token>, order: seq<string>, replicas: int, j: nat, p: int)
    requires replicas > 0 && j < |Take(order, replicas)| && FirstNew(Nodes(walk), order, j, p)
    ensures Meets(walk, Take(order, replicas), j, p)
  {
    assert order[..j] == Take(order, replicas)[..j];
    forall q | 0 <= q < p ensures walk[q].node in order[..j] { assert Nodes(walk)[q] in order[..j]; }
  }

  lemma NodeInOrder(tokens: seq<Token>, h: Hash, k: nat)
    requires k < |tokens|
    ensures tokens[k].node in Preference(tokens, h)
  {
    var walk := Clockwise(tokens, h);
    ClockwiseMembers(tokens, h);
    assert tokens[k] in walk;
    var i :| 0 <= i < |walk| && walk[i] == tokens[k];
    assert Nodes(walk)[i] == tokens[k].node;
    DedupFacts(Nodes(walk));
  }
}

/**
 The assignment table of internal/storage/manager.go: one entry per virtual node, labelled by the rank of its hash
 among the node's own hashes. The table is a function of the node IDs and the number of virtual nodes.
 */
module Assignments {
  import opened Prelude
  import opened Sorting
  import opened RingOrder
  import opened HashRing

  datatype Assignment = Assignment(id: string, token: Hash, nodeId: string)

  predicate TableLess(a: Assignment, b: Assignment) {
    a.token < b.token || (a.token == b.token && LexLess(a.id, b.id))
  }

  lemma TableLessTransitive(a: Assignment, b: Assignment, c: Assignment)
    requires TableLess(a, b) && TableLess(b, c)
    ensures TableLess(a, c)
  {
    if a.token == b.token == c.token { LexTransitive(a.id, b.id, c.id); }
  }

  lemma TableLessIsStrictWeakOrder()
    ensures StrictWeakOrder(TableLess)
  {
    forall x: Assignment ensures !TableLess(x, x) { LexIrreflexive(x.id); }
    forall x, y, z | TableLess(x, y) && TableLess(y, z) ensures TableLess(x, z) { TableLessTransitive(x, y, z); }
    forall x, y, z | !TableLess(x, y) && !TableLess(y, z) ensures !TableLess(x, z) {
      if x.token == y.token == z.token {
        LexTotal(x.id, y.id);
        LexTotal(y.id, z.id);
        if LexLess(x.id, z.id) && y.id != z.id && x.id != y.id { LexTransitive(x.id, z.id, y.id); }
      }
    }
  }

  ghost predicate Ascending(table: seq<Assignment>) {
    forall i, j :: 0 <= i < j < |table| ==> TableLess(table[i], table[j])
  }

  lemma {:induction false} AscendingUnique(a: seq<Assignment>, b: seq<Assignment>)
    requires Ascending(a) && Ascending(b)
    requires forall x :: x in a <==> x in b
    ensures a == b
  {
    if a != [] { assert a[0] in b; }
    if b != [] { assert b[0] in a; }
    if a != [] && b != [] {
      if a[0] != b[0] {
        TableLessTransitive(a[0], b[0], a[0]);
        LexIrreflexive(a[0].id);
      }
      forall x ensures x in a[1..] <==> x in b[1..] {
        LexIrreflexive(a[0].id);
        if x in a[1..] { assert x in b; }
        if x in b[1..] { assert x in a; }
      }
      AscendingUnique(a[1..], b[1..]);
    }
  }

  // ---------- The reference table ----------

  function InsertToken(t: Token, s: seq<Token>): seq<Token> {
    if s == [] || t.hash <= s[0].hash then [t] + s else [s[0]] + InsertToken(t, s[1..])
  }

  function SortTokens(s: seq<Token>): seq<Token> {
    if s == [] then [] else InsertToken(s[0], SortTokens(s[1..]))
  }

  lemma {:induction false} InsertTokenKeeps(t: Token, s: seq<Token>)
    ensures multiset(InsertToken(t, s)) == multiset(s) + multiset{t}
    ensures forall x :: x in InsertToken(t, s) ==> x == t || x in s
  {
    if s != [] && t.hash > s[0].hash {
      InsertTokenKeeps(t, s[1..]);
      assert s == [s[0]] + s[1..];
    }
  }

  lemma {:induction false} InsertTokenSorted(t: Token, s: seq<Token>)
    requires RingOrder.Sorted(s)
    ensures RingOrder.Sorted(InsertToken(t, s))
  {
    if s != [] && t.hash > s[0].hash {
      InsertTokenSorted(t, s[1..]);
      InsertTokenKeeps(t, s[1..]);
      var rest := InsertToken(t, s[1..]);
      forall i | 0 <= i < |rest| ensures s[0].hash <= rest[i].hash { assert rest[i] in rest; }
    }
  }

  lemma {:induction false} SortTokensFacts(s: seq<Token>)
    ensures RingOrder.Sorted(SortTokens(s)) && multiset(SortTokens(s)) == multiset(s)
  {
    if s != [] {
      SortTokensFacts(s[1..]);
      InsertTokenKeeps(s[0], SortTokens(s[1..]));
      InsertTokenSorted(s[0], SortTokens(s[1..]));
      assert s == [s[0]] + s[1..];
    }
  }

  /** A node's tokens by ascending hash; position is rank. */
  function ByRank(hash: string -> Hash, vnodes: nat, node: string): (s: seq<Token>)
    ensures |s| == vnodes
  {
    SortTokensFacts(NodeTokens(hash, node, vnodes));
    assert |multiset(SortTokens(NodeTokens(hash, node, vnodes)))| == |multiset(NodeTokens(hash, node, vnodes))|;
    SortTokens(NodeTokens(hash, node, vnodes))
  }

  function CountBelow(s: seq<Token>, x: int): nat {
    if s == [] then 0 else (if s[0].hash < x then 1 else 0) + CountBelow(s[1..], x)
  }

  lemma {:induction false} InsertCounts(t: Token, s: seq<Token>, x: int)
    ensures CountBelow(InsertToken(t, s), x) == CountBelow(s, x) + if t.hash < x then 1 else 0
  {
    if s == [] || t.hash <= s[0].hash {
      assert ([t] + s)[1..] == s;
    } else {
      InsertCounts(t, s[1..], x);
      assert ([s[0]] + InsertToken(t, s[1..]))[1..] == InsertToken(t, s[1..]);
    }
  }

  lemma {:induction false} SortCounts(s: seq<Token>, x: int)
    ensures CountBelow(SortTokens(s), x) == CountBelow(s, x)
  {
    if s != [] {
      SortCounts(s[1..], x);
      InsertCounts(s[0], SortTokens(s[1..]), x);
    }
  }

  lemma {:induction false} CountBelowAppend(s: seq<Token>, t: Token, x: int)
    ensures CountBelow(s + [t], x) == CountBelow(s, x) + if t.hash < x then 1 else 0
  {
    if s == [] {
      assert s + [t] == [t] && [t][1..] == [];
    } else {
      CountBelowAppend(s[1..], t, x);
      assert (s + [t])[1..] == s[1..] + [t];
    }
  }

  lemma OneMoreOwn(hash: string -> Hash, n: nat, node: string, x: int)
    ensures |set i: nat | i < n + 1 && hash(Label(node, i)) < x| ==
            |set i: nat | i < n && hash(Label(node, i)) < x| + if hash(Label(node, n)) < x then 1 else 0
  {
    var before, now := (set i: nat | i < n && hash(Label(node, i)) < x),
                       (set i: nat | i < n + 1 && hash(Label(node, i)) < x);
    assert now == if hash(Label(node, n)) < x then before + {n} else before;
  }

  lemma {:induction false} CountOwn(hash: string -> Hash, vnodes: nat, node: string, x: int)
    ensures CountBelow(NodeTokens(hash, node, vnodes), x) == |set i: nat | i < vnodes && hash(Label(node, i)) < x|
  {
    if vnodes == 0 {
      assert (set i: nat | i < 0 && hash(Label(node, i)) < x) == {};
    } else {
      var n, t := vnodes - 1, Token(hash(Label(node, vnodes - 1)), node);
      CountOwn(hash, n, node, x);
      OneMoreOwn(hash, n, node, x);
      assert NodeTokens(hash, node, vnodes) == NodeTokens(hash, node, n) + [t];
      CountBelowAppend(NodeTokens(hash, node, n), t, x);
    }
  }

  lemma {:induction false} SortedCount(s: seq<Token>, x: int, r: nat)
    requires RingOrder.Sorted(s) && r < |s|
    ensures s[r].hash < x <==> r < CountBelow(s, x)
  {
    if r > 0 {
      SortedCount(s[1..], x, r - 1);
      if s[0].hash >= x && |s| > 1 { SortedCount(s[1..], x, 0); }
    } else if s[0].hash >= x && |s| > 1 {
      SortedCount(s[1..], x, 0);
    }
  }

  /** A hash has a rank among a node's own: no more of them lie below it, and more lie below or at it. */
  ghost predicate HasRank(hash: string -> Hash, vnodes: nat, node: string, rank: nat, token: Hash) {
    && |set i: nat | i < vnodes && hash(Label(node, i)) < token| <= rank
    && rank < |set i: nat | i < vnodes && hash(Label(node, i)) <= token|
  }

  lemma ByRankHasRank(hash: string -> Hash, vnodes: nat, node: string, rank: nat)
    requires rank < vnodes
    ensures HasRank(hash, vnodes, node, rank, ByRank(hash, vnodes, node)[rank].hash)
  {
    var own, s := NodeTokens(hash, node, vnodes), ByRank(hash, vnodes, node);
    var x: int := s[rank].hash;
    SortTokensFacts(own);
    forall y: int ensures CountBelow(s, y) == |set i: nat | i < vnodes && hash(Label(node, i)) < y| {
      SortCounts(own, y);
      CountOwn(hash, vnodes, node, y);
    }
    SortedCount(s, x, rank);
    SortedCount(s, x + 1, rank);
    assert (set i: nat | i < vnodes && hash(Label(node, i)) < x + 1) ==
           (set i: nat | i < vnodes && hash(Label(node, i)) <= x);
  }

  function Entry(hash: string -> Hash, vnodes: nat, node: string, rank: nat): Assignment
    requires rank < vnodes
  {
    Assignment(Label(node, rank), ByRank(hash, vnodes, node)[rank].hash, node)
  }

  ghost function Entries(hash: string -> Hash, vnodes: nat, nodes: set<string>): set<Assignment> {
    set node, rank | node in nodes && 0 <= rank < vnodes :: Entry(hash, vnodes, node, rank)
  }

  /** The table: all entries of all nodes, ascending by (token, id). */
  ghost predicate IsTable(table: seq<Assignment>, hash: string -> Hash, vnodes: nat, nodes: set<string>) {
    Ascending(table) && forall a :: a in table <==> a in Entries(hash, vnodes, nodes)
  }

  lemma EntryLabelsDistinct(hash: string -> Hash, vnodes: nat, nodes: set<string>, a: Assignment, b: Assignment)
    requires a in Entries(hash, vnodes, nodes) && b in Entries(hash, vnodes, nodes) && a.id == b.id
    ensures a == b
  {
    var m: string, i: nat :| m in nodes && i < vnodes && a == Entry(hash, vnodes, m, i);
    var n: string, j: nat :| n in nodes && j < vnodes && b == Entry(hash, vnodes, n, j);
    LabelInjective(m, i, n, j);
  }

  function Insert(a: Assignment, table: seq<Assignment>): seq<Assignment> {
    if table == [] || TableLess(a, table[0]) then [a] + table else [table[0]] + Insert(a, table[1..])
  }

  lemma {:induction false} InsertFacts(a: Assignment, table: seq<Assignment>)
    requires Ascending(table) && forall b :: b in table ==> b.id != a.id
    ensures Ascending(Insert(a, table))
    ensures forall b :: b in Insert(a, table) <==> b == a || b in table
  {
    if table != [] {
      assert table == [table[0]] + table[1..];
      if TableLess(a, table[0]) {
        forall i | 0 <= i < |table| ensures TableLess(a, table[i]) {
          if i > 0 { TableLessTransitive(a, table[0], table[i]); }
        }
      } else {
        InsertFacts(a, table[1..]);
        LexTotal(a.id, table[0].id);
        assert table[0] in table;
        var rest := Insert(a, table[1..]);
        forall i | 0 <= i < |rest| ensures TableLess(table[0], rest[i]) {
          assert rest[i] in rest;
        }
      }
    }
  }

  ghost function SortEntries(entries: set<Assignment>): seq<Assignment> {
    if entries == {} then [] else
      var a :| a in entries;
      Insert(a, SortEntries(entries - {a}))
  }

  lemma {:induction false} SortEntriesFacts(entries: set<Assignment>)
    requires forall a, b :: a in entries && b in entries && a.id == b.id ==> a == b
    ensures Ascending(SortEntries(entries))
    ensures forall a :: a in SortEntries(entries) <==> a in entries
  {
    if entries != {} {
      var a :| a in entries && SortEntries(entries) == Insert(a, SortEntries(entries - {a}));
      SortEntriesFacts(entries - {a});
      InsertFacts(a, SortEntries(entries - {a}));
    }
  }

  ghost function Table(hash: string -> Hash, vnodes: nat, nodes: set<string>): seq<Assignment> {
    SortEntries(Entries(hash, vnodes, nodes))
  }

  lemma TableUnique(table: seq<Assignment>, hash: string -> Hash, vnodes: nat, nodes: set<string>)
    ensures IsTable(table, hash, vnodes, nodes) <==> table == Table(hash, vnodes, nodes)
  {
    var entries := Entries(hash, vnodes, nodes);
    forall a, b | a in entries && b in entries && a.id == b.id ensures a == b {
      EntryLabelsDistinct(hash, vnodes, nodes, a, b);
    }
    SortEntriesFacts(Entries(hash, vnodes, nodes));
    if IsTable(table, hash, vnodes, nodes) { AscendingUnique(table, Table(hash, vnodes, nodes)); }
  }

  // ---------- What the code builds ----------

  /** The counting loop over the ring's tokens: each token gets the number of its node's tokens seen before it. */
  function Ranked(tokens: seq<Token>): seq<Assignment> {
    if tokens == [] then []
    else
      var front, last := tokens[..|tokens| - 1], tokens[|tokens| - 1];
      Ranked(front) + [Assignment(Label(last.node, |Only(front, last.node)|), last.hash, last.node)]
  }

  lemma OnlyAppend(s: seq<Token>, t: Token, node: string)
    ensures Only(s + [t], node) == if t.node == node then Only(s, node) + [t] else Only(s, node)
  {
    assert (s + [t])[..|s|] == s;
  }

  ghost predicate RankedEntry(tokens: seq<Token>, a: Assignment, rank: nat) {
    && rank < |Only(tokens, a.nodeId)|
    && a == Assignment(Label(a.nodeId, rank), Only(tokens, a.nodeId)[rank].hash, a.nodeId)
  }

  lemma {:induction false} RankedMembers(tokens: seq<Token>, a: Assignment)
    ensures a in Ranked(tokens) <==> exists rank: nat :: RankedEntry(tokens, a, rank)
  {
    if tokens != [] {
      var front, last := tokens[..|tokens| - 1], tokens[|tokens| - 1];
      assert tokens == front + [last];
      OnlyAppend(front, last, a.nodeId);
      RankedMembers(front, a);
      var n := |Only(front, last.node)|;
      var newest := Assignment(Label(last.node, n), last.hash, last.node);
      assert Ranked(tokens) == Ranked(front) + [newest];
      if a in Ranked(front) {
        var rank: nat :| RankedEntry(front, a, rank);
        assert RankedEntry(tokens, a, rank);
      } else if a == newest {
        assert RankedEntry(tokens, a, n);
      } else if rank: nat :| RankedEntry(tokens, a, rank) {
        if a.nodeId != last.node || rank < n { assert RankedEntry(front, a, rank); }
      }
    }
  }

  lemma {:induction false} RankedLabelsDistinct(tokens: seq<Token>)
    ensures forall i, j :: 0 <= i < j < |Ranked(tokens)| ==> Ranked(tokens)[i].id != Ranked(tokens)[j].id
  {
    if tokens != [] {
      var front, last := tokens[..|tokens| - 1], tokens[|tokens| - 1];
      RankedLabelsDistinct(front);
      var n := |Only(front, last.node)|;
      forall i | 0 <= i < |Ranked(front)| ensures Ranked(front)[i].id != Label(last.node, n) {
        var a := Ranked(front)[i];
        RankedMembers(front, a);
        var rank: nat :| RankedEntry(front, a, rank);
        if a.id == Label(last.node, n) { LabelInjective(a.nodeId, rank, last.node, n); }
      }
    }
  }

  /** However ties were broken, a member's tokens stand on the ring in rank order. */
  lemma {:induction false} OnlyIsByRank(hash: string -> Hash, vnodes: nat, nodes: set<string>, tokens: seq<Token>,
                                        node: string)
    requires HoldsMembers(hash, vnodes, nodes, tokens)
    ensures Only(tokens, node) == if node in nodes then ByRank(hash, vnodes, node) else []
  {
    var own, o := NodeTokens(hash, node, vnodes), Only(tokens, node);
    OnlySorted(tokens, node);
    forall t ensures multiset(o)[t] == if node in nodes then multiset(own)[t] else 0 {
      OnlyCounts(tokens, node, t);
      if t.node != node { assert t !in own; }
    }
    if node in nodes {
      SortTokensFacts(own);
      assert multiset(o) == multiset(SortTokens(own));
      SortedUnique(o, SortTokens(own));
    } else {
      assert |multiset(o)| == 0;
    }
  }

  /** Sorting the ranked tokens of any ring with these members gives the table, whatever the ring's ties. */
  lemma {:induction false} SortedRankedIsTable(hash: string -> Hash, vnodes: nat, nodes: set<string>,
                                               tokens: seq<Token>, table: seq<Assignment>)
    requires HoldsMembers(hash, vnodes, nodes, tokens)
    requires SortedBy(table, TableLess) && multiset(table) == multiset(Ranked(tokens))
    ensures table == Table(hash, vnodes, nodes)
  {
    RankedLabelsDistinct(tokens);
    forall a ensures a in table <==> a in Entries(hash, vnodes, nodes) {
      assert a in table <==> a in multiset(table);
      assert a in Ranked(tokens) <==> a in multiset(Ranked(tokens));
      RankedMembers(tokens, a);
      OnlyIsByRank(hash, vnodes, nodes, tokens, a.nodeId);
      if a in Ranked(tokens) {
        var rank: nat :| RankedEntry(tokens, a, rank);
        assert a == Entry(hash, vnodes, a.nodeId, rank);
      }
      if a in Entries(hash, vnodes, nodes) {
        var node: string, rank: nat :| node in nodes && rank < vnodes && a == Entry(hash, vnodes, node, rank);
        assert RankedEntry(tokens, a, rank);
      }
    }
    forall i, j | 0 <= i < j < |table| ensures TableLess(table[i], table[j]) {
      assert !TableLess(table[j], table[i]);
      LexTotal(table[i].id, table[j].id);
      if table[i].id == table[j].id {
        assert table[i] in multiset(Ranked(tokens)) && table[j] in multiset(Ranked(tokens));
        OnceInMultiset(Ranked(tokens), table[i]);
        TwiceInMultiset(table, i, j);
      }
    }
    TableUnique(table, hash, vnodes, nodes);
  }

  /**
   Every entry of the table names a node, and the entry with label node#rank carries the hash of that rank among the
   node's own hashes; there is one for every rank, no two share a label, and the table ascends strictly.
   */
  lemma TableContents(hash: string -> Hash, vnodes: nat, nodes: set<string>)
    ensures var table := Table(hash, vnodes, nodes);
            && Ascending(table)
            && (forall i, j :: 0 <= i < j < |table| ==> table[i].id != table[j].id)
            && (forall node, rank: nat :: node in nodes && rank < vnodes ==>
                  Assignment(Label(node, rank), ByRank(hash, vnodes, node)[rank].hash, node) in table)
            && (forall a :: a in table ==>
                  && a.nodeId in nodes
                  && exists rank: nat :: rank < vnodes && a.id == Label(a.nodeId, rank))
  {
    var table := Table(hash, vnodes, nodes);
    TableUnique(table, hash, vnodes, nodes);
    forall i, j | 0 <= i < j < |table| ensures table[i].id != table[j].id {
      if table[i].id == table[j].id {
        assert table[i] in table && table[j] in table;
        EntryLabelsDistinct(hash, vnodes, nodes, table[i], table[j]);
        assert TableLess(table[i], table[j]);
        LexIrreflexive(table[i].id);
      }
    }
    forall node, rank: nat | node in nodes && rank < vnodes
      ensures Assignment(Label(node, rank), ByRank(hash, vnodes, node)[rank].hash, node) in table
    {
      assert Entry(hash, vnodes, node, rank) in Entries(hash, vnodes, nodes);
    }
    forall a | a in table
      ensures a.nodeId in nodes && exists rank: nat :: rank < vnodes && a.id == Label(a.nodeId, rank)
    {
      var node: string, rank: nat :| node in nodes && rank < vnodes && a == Entry(hash, vnodes, node, rank);
    }
  }

  /** An entry for the node's virtual node of that rank. */
  ghost predicate IsEntry(hash: string -> Hash, vnodes: nat, a: Assignment, node: string, rank: nat) {
    && rank < vnodes && a.nodeId == node && a.id == Label(node, rank)
    && HasRank(hash, vnodes, node, rank, a.token)
  }

  ghost predicate Listed(hash: string -> Hash, vnodes: nat, table: seq<Assignment>, node: string, rank: nat) {
    exists i :: 0 <= i < |table| && IsEntry(hash, vnodes, table[i], node, rank)
  }

  ghost predicate Ranks(hash: string -> Hash, vnodes: nat, a: Assignment) {
    exists rank: nat :: IsEntry(hash, vnodes, a, a.nodeId, rank)
  }

  /**
   The table lists one entry for every node and rank, labelled node#rank and carrying the hash of that rank among the
   node's own, and no others; it ascends by token, and by label where tokens are equal.
   */
  lemma TableMeans(hash: string -> Hash, vnodes: nat, nodes: set<string>)
    ensures var table := Table(hash, vnodes, nodes);
            && (forall i, j :: 0 <= i < j < |table| ==>
                  || table[i].token < table[j].token
                  || (table[i].token == table[j].token && LexLess(table[i].id, table[j].id)))
            && (forall i, j :: 0 <= i < j < |table| ==> table[i].id != table[j].id)
            && (forall node, rank: nat :: node in nodes && rank < vnodes ==> Listed(hash, vnodes, table, node, rank))
            && (forall i :: 0 <= i < |table| ==> table[i].nodeId in nodes && Ranks(hash, vnodes, table[i]))
  {
    var table := Table(hash, vnodes, nodes);
    TableContents(hash, vnodes, nodes);
    TableUnique(table, hash, vnodes, nodes);
    forall node, rank: nat | node in nodes && rank < vnodes ensures Listed(hash, vnodes, table, node, rank) {
      EntryListed(hash, vnodes, nodes, node, rank);
    }
    forall i | 0 <= i < |table| ensures table[i].nodeId in nodes && Ranks(hash, vnodes, table[i]) {
      EntryRanks(hash, vnodes, nodes, table[i]);
    }
  }

  lemma EntryListed(hash: string -> Hash, vnodes: nat, nodes: set<string>, node: string, rank: nat)
    requires node in nodes && rank < vnodes
    ensures Listed(hash, vnodes, Table(hash, vnodes, nodes), node, rank)
  {
    var table := Table(hash, vnodes, nodes);
    TableContents(hash, vnodes, nodes);
    ByRankHasRank(hash, vnodes, node, rank);
    var i :| 0 <= i < |table| && table[i] == Entry(hash, vnodes, node, rank);
    assert IsEntry(hash, vnodes, table[i], node, rank);
  }

  lemma EntryRanks(hash: string -> Hash, vnodes: nat, nodes: set<string>, a: Assignment)
    requires a in Table(hash, vnodes, nodes)
    ensures a.nodeId in nodes && Ranks(hash, vnodes, a)
  {
    TableUnique(Table(hash, vnodes, nodes), hash, vnodes, nodes);
    var node: string, rank: nat :| node in nodes && rank < vnodes && a == Entry(hash, vnodes, node, rank);
    ByRankHasRank(hash, vnodes, node, rank);
    assert IsEntry(hash, vnodes, a, node, rank);
  }
}

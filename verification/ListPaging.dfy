/** What a page of ListMetadata contains, and what a walk from page to page can and cannot return. */
module ListPaging {
  import opened Prelude
  import opened Pgxsim

  datatype Page = Page(items: seq<Record>, next: string)

  function Above(items: seq<Record>, token: string): seq<Record> {
    if items == [] then []
    else
      var last := items[|items| - 1];
      Above(items[..|items| - 1], token) + if LexLess(token, last.key) then [last] else []
  }

  /** The rows the page is cut from: the listing's first limit + 1, then those above the token. */
  function Candidates(all: seq<Record>, limit: nat, token: string): seq<Record> {
    var fetched := if |all| > limit + 1 then all[..limit + 1] else all;
    if token == "" then fetched else Above(fetched, token)
  }

  /** The page cut from the sorted listing `all`, and the token naming the first candidate left out. */
  function PageOf(all: seq<Record>, limit: nat, token: string): Page {
    var items := Candidates(all, limit, token);
    if |items| > limit then Page(items[..limit], items[limit].key) else Page(items, "")
  }

  lemma {:induction false} AboveSelects(items: seq<Record>, token: string)
    requires Ascending(items)
    ensures var s := Above(items, token);
            && Ascending(s) && |s| <= |items|
            && (forall r :: r in s <==> r in items && LexLess(token, r.key))
  {
    if items != [] {
      var front := items[..|items| - 1];
      AboveSelects(front, token);
      assert items == front + [items[|items| - 1]];
      forall i | 0 <= i < |Above(front, token)| ensures LexLess(Above(front, token)[i].key, items[|items| - 1].key) {
        assert Above(front, token)[i] in front;
      }
    }
  }

  /**
   Every page is strictly increasing, holds at most `limit` rows of the listing, lies above its token and below its
   next token.
   */
  lemma PageSound(all: seq<Record>, limit: nat, token: string)
    requires Ascending(all) && limit >= 1
    ensures var p := PageOf(all, limit, token);
            && Ascending(p.items) && |p.items| <= limit
            && (forall i :: 0 <= i < |p.items| ==>
                  p.items[i] in all && (token != "" ==> LexLess(token, p.items[i].key)))
            && (p.next != "" ==>
                  && (token != "" ==> LexLess(token, p.next))
                  && |p.items| == limit
                  && forall i :: 0 <= i < |p.items| ==> LexLess(p.items[i].key, p.next))
  {
    var items := Candidates(all, limit, token);
    CandidatesSound(all, limit, token);
    if |items| > limit { CutSound(items, limit, token); }
    if token != "" && |items| > limit { assert LexLess(token, items[limit].key); }
  }

  ghost predicate LiesAbove(items: seq<Record>, token: string) {
    token != "" ==> forall i :: 0 <= i < |items| ==> LexLess(token, items[i].key)
  }

  lemma CandidatesSound(all: seq<Record>, limit: nat, token: string)
    requires Ascending(all)
    ensures var items := Candidates(all, limit, token);
            Ascending(items) && LiesAbove(items, token) && forall i :: 0 <= i < |items| ==> items[i] in all
  {
    var fetched := if |all| > limit + 1 then all[..limit + 1] else all;
    assert forall r :: r in fetched ==> r in all;
    if token != "" {
      AboveSelects(fetched, token);
      var items := Above(fetched, token);
      forall i | 0 <= i < |items| ensures items[i] in all && LexLess(token, items[i].key) {
        assert items[i] in items;
      }
    }
  }

  lemma CutSound(items: seq<Record>, limit: nat, token: string)
    requires Ascending(items) && LiesAbove(items, token) && |items| > limit
    ensures Ascending(items[..limit]) && LiesAbove(items[..limit], token)
    ensures forall i :: 0 <= i < limit ==> LexLess(items[i].key, items[limit].key)
  {
  }

  /** Row `start` is the first above the token. */
  predicate FirstAbove(items: seq<Record>, token: string, start: nat) {
    && start <= |items|
    && (forall i :: 0 <= i < start ==> !LexLess(token, items[i].key))
    && (forall i :: start <= i < |items| ==> LexLess(token, items[i].key))
  }

  lemma {:induction false} AboveIsTail(items: seq<Record>, token: string) returns (start: nat)
    requires Ascending(items)
    ensures FirstAbove(items, token, start) && Above(items, token) == items[start..]
  {
    start := 0;
    if items != [] {
      var front, last := items[..|items| - 1], items[|items| - 1];
      start := AboveIsTail(front, token);
      assert items == front + [last];
      TailMore(front, last, token, start);
      if !LexLess(token, last.key) {
        start := |items|;
      }
    }
  }

  lemma TailMore(front: seq<Record>, last: Record, token: string, start: nat)
    requires FirstAbove(front, token, start) && Ascending(front + [last])
    ensures if LexLess(token, last.key) then
              FirstAbove(front + [last], token, start) && front[start..] + [last] == (front + [last])[start..]
            else start == |front| && FirstAbove(front + [last], token, |front| + 1)
  {
    var items := front + [last];
    assert items[|front|] == last && forall i :: 0 <= i < |front| ==> items[i] == front[i];
    if start < |front| { LexTransitive(token, items[start].key, items[|front|].key); }
  }

  /** The page that a token asks for, row by row: `limit` rows from the first above the token on, out of limit + 1. */
  predicate IsPage(p: Page, fetched: seq<Record>, limit: nat, start: nat) {
    && start <= |fetched|
    && p.items == fetched[start..if start + limit < |fetched| then start + limit else |fetched|]
    && p.next == if start + limit < |fetched| then fetched[start + limit].key else ""
  }

  lemma CutTail(fetched: seq<Record>, limit: nat, start: nat)
    requires start <= |fetched|
    ensures var items := fetched[start..];
            && (|items| > limit <==> start + limit < |fetched|)
            && items[..if |items| > limit then limit else |items|] ==
               fetched[start..if start + limit < |fetched| then start + limit else |fetched|]
  {
  }

  lemma PageExactly(all: seq<Record>, limit: nat, token: string)
    requires Ascending(all) && token != ""
    ensures var fetched := if limit + 1 < |all| then all[..limit + 1] else all;
            exists start ::
              FirstAbove(fetched, token, start) && IsPage(PageOf(all, limit, token), fetched, limit, start)
  {
    var fetched := if limit + 1 < |all| then all[..limit + 1] else all;
    assert Candidates(all, limit, token) == Above(fetched, token);
    var start := AboveIsTail(fetched, token);
    CutTail(fetched, limit, start);
    assert IsPage(PageOf(all, limit, token), fetched, limit, start);
  }

  /** Without a token the page is the smallest min(limit, n) rows, and a next token is set iff n > limit. */
  lemma FirstPage(all: seq<Record>, limit: nat)
    requires Ascending(all) && limit >= 1
    ensures var p := PageOf(all, limit, "");
            && p.items == all[..if |all| > limit then limit else |all|]
            && (p.next != "" <==> |all| > limit)
            && (|all| > limit ==> p.next == all[limit].key)
  {
    if |all| > limit {
      assert LexLess(all[0].key, all[limit].key);
    }
  }

  /** The page holds stored rows of the prefix, ascending, above the token, and no more than the limit. */
  ghost predicate Serves(p: Page, entries: Entries, prefix: string, limit: nat, token: string) {
    && |p.items| <= limit
    && (forall i :: 0 <= i < |p.items| ==>
          var k := p.items[i].key;
          prefix <= k && k in entries && entries[k] == p.items[i] && (token != "" ==> LexLess(token, k)))
    && (forall i, j :: 0 <= i < j < |p.items| ==> LexLess(p.items[i].key, p.items[j].key))
  }

  /** Nothing of the prefix is left out but past a full page, and the next token is the first key left out. */
  ghost predicate LeavesOut(p: Page, entries: Entries, prefix: string, limit: nat) {
    forall k :: k in entries && prefix <= k && entries[k] !in p.items ==>
      |p.items| == limit && p.next != "" && (k == p.next || LexLess(p.next, k))
  }

  lemma PageServes(all: seq<Record>, entries: Entries, prefix: string, limit: nat, token: string)
    requires Keyed(entries) && IsListing(all, entries, prefix) && limit >= 1
    ensures Serves(PageOf(all, limit, token), entries, prefix, limit, token)
    ensures token == "" ==> LeavesOut(PageOf(all, limit, token), entries, prefix, limit)
  {
    var p := PageOf(all, limit, token);
    PageSound(all, limit, token);
    if token == "" {
      FirstPage(all, limit);
      forall k | k in entries && prefix <= k && entries[k] !in p.items
        ensures |p.items| == limit && p.next != "" && (k == p.next || LexLess(p.next, k))
      {
        LeftOut(all, entries, prefix, limit, k);
      }
    }
  }

  lemma LeftOut(all: seq<Record>, entries: Entries, prefix: string, limit: nat, k: string)
    requires Keyed(entries) && IsListing(all, entries, prefix) && limit >= 1 && k in entries && prefix <= k
    requires entries[k] !in all[..if |all| > limit then limit else |all|]
    ensures |all| > limit && (k == all[limit].key || LexLess(all[limit].key, k))
  {
    var n := if |all| > limit then limit else |all|;
    var i := PlaceOf(all, entries, prefix, k);
    InCut(all, n, i);
  }

  lemma PlaceOf(all: seq<Record>, entries: Entries, prefix: string, k: string) returns (i: nat)
    requires Keyed(entries) && IsListing(all, entries, prefix) && k in entries && prefix <= k
    ensures i < |all| && all[i] == entries[k] && all[i].key == k
  {
    assert entries[k] in all;
    i :| 0 <= i < |all| && all[i] == entries[k];
  }

  lemma InCut(all: seq<Record>, n: nat, i: nat)
    requires n <= |all| && i < |all|
    ensures i < n ==> all[i] in all[..n]
  {
    if i < n { assert all[..n][i] == all[i]; }
  }

  // ---------- Walks ----------

  /** One page request of a walk: the listing at that moment and the limit asked for. */
  datatype Visit = Visit(all: seq<Record>, limit: nat)

  /** The tokens of a walk: each page is asked for with the token of the one before. */
  function TokenBefore(visits: seq<Visit>, i: nat): string
    requires i <= |visits|
  {
    if i == 0 then "" else PageOf(visits[i - 1].all, visits[i - 1].limit, TokenBefore(visits, i - 1)).next
  }

  function PageAt(visits: seq<Visit>, i: nat): Page
    requires i < |visits|
  {
    PageOf(visits[i].all, visits[i].limit, TokenBefore(visits, i))
  }

  /** A walk goes on only while there is a next token; limits and store may change from page to page. */
  ghost predicate Walk(visits: seq<Visit>) {
    && (forall i :: 0 <= i < |visits| ==> Ascending(visits[i].all) && visits[i].limit >= 1)
    && (forall i :: 0 < i < |visits| ==> TokenBefore(visits, i) != "")
  }

  lemma {:induction false} TokensRise(visits: seq<Visit>, i: nat, j: nat)
    requires Walk(visits) && 0 < i <= j < |visits|
    ensures i == j || LexLess(TokenBefore(visits, i), TokenBefore(visits, j))
    decreases j
  {
    if i < j {
      TokensRise(visits, i, j - 1);
      PageSound(visits[j - 1].all, visits[j - 1].limit, TokenBefore(visits, j - 1));
      if i < j - 1 {
        LexTransitive(TokenBefore(visits, i), TokenBefore(visits, j - 1), TokenBefore(visits, j));
      }
    }
  }

  lemma ItemBelowNext(visits: seq<Visit>, i: nat, x: nat)
    requires Walk(visits) && i + 1 < |visits| && x < |PageAt(visits, i).items|
    ensures LexLess(PageAt(visits, i).items[x].key, TokenBefore(visits, i + 1))
  {
    PageSound(visits[i].all, visits[i].limit, TokenBefore(visits, i));
  }

  lemma ItemAboveToken(visits: seq<Visit>, j: nat, y: nat)
    requires Walk(visits) && 0 < j < |visits| && y < |PageAt(visits, j).items|
    ensures LexLess(TokenBefore(visits, j), PageAt(visits, j).items[y].key)
  {
    PageSound(visits[j].all, visits[j].limit, TokenBefore(visits, j));
  }

  /** No walk returns a key twice, whatever the limits and the changes to the store between pages. */
  lemma NoKeyTwice(visits: seq<Visit>, i: nat, j: nat, x: nat, y: nat)
    requires Walk(visits) && i < j < |visits|
    requires x < |PageAt(visits, i).items| && y < |PageAt(visits, j).items|
    ensures LexLess(PageAt(visits, i).items[x].key, PageAt(visits, j).items[y].key)
    ensures PageAt(visits, i).items[x].key != PageAt(visits, j).items[y].key
  {
    ItemBelowNext(visits, i, x);
    NextBelowItem(visits, i, j, y);
    LexTransitive(PageAt(visits, i).items[x].key, TokenBefore(visits, i + 1), PageAt(visits, j).items[y].key);
    LexIrreflexive(PageAt(visits, i).items[x].key);
  }

  lemma NextBelowItem(visits: seq<Visit>, i: nat, j: nat, y: nat)
    requires Walk(visits) && i < j < |visits| && y < |PageAt(visits, j).items|
    ensures LexLess(TokenBefore(visits, i + 1), PageAt(visits, j).items[y].key)
  {
    TokensRise(visits, i + 1, j);
    ItemAboveToken(visits, j, y);
    if i + 1 < j {
      LexTransitive(TokenBefore(visits, i + 1), TokenBefore(visits, j), PageAt(visits, j).items[y].key);
    }
  }

  /** All rows a walk returns when the listing does not change. */
  function Returned(all: seq<Record>, limits: seq<nat>, token: string): seq<Record>
    decreases |limits|
  {
    if limits == [] then []
    else
      var p := PageOf(all, limits[0], token);
      p.items + if p.next == "" then [] else Returned(all, limits[1..], p.next)
  }

  /** What the visits of a walk return from the i-th on. */
  function ReturnedFrom(visits: seq<Visit>, i: nat): seq<Record>
    requires i <= |visits|
    decreases |visits| - i
  {
    if i == |visits| then [] else PageAt(visits, i).items + ReturnedFrom(visits, i + 1)
  }

  /** Every visit sees the same listing; the walk ends where the limits do or where there is no next token. */
  ghost predicate OneListing(visits: seq<Visit>, all: seq<Record>, limits: seq<nat>) {
    && |visits| <= |limits|
    && (forall k :: 0 <= k < |visits| ==> visits[k] == Visit(all, limits[k]))
    && (|visits| < |limits| ==> visits != [] && TokenBefore(visits, |visits|) == "")
  }

  /** The walk over an unchanging listing returns what its visits return, page by page. */
  lemma {:induction false} WalkReturns(visits: seq<Visit>, i: nat, all: seq<Record>, limits: seq<nat>)
    requires Walk(visits) && OneListing(visits, all, limits) && i <= |visits|
    requires i == |visits| ==> |visits| == |limits|
    ensures Returned(all, limits[i..], TokenBefore(visits, i)) == ReturnedFrom(visits, i)
    decreases |visits| - i
  {
    if i < |visits| {
      var p := PageAt(visits, i);
      assert limits[i..][0] == limits[i] && limits[i..][1..] == limits[i + 1..];
      assert p == PageOf(all, limits[i], TokenBefore(visits, i)) && p.next == TokenBefore(visits, i + 1);
      if p.next != "" {
        WalkReturns(visits, i + 1, all, limits);
      } else {
        assert i + 1 == |visits|;
      }
    }
  }

  lemma {:induction false} ReturnedAbove(all: seq<Record>, limits: seq<nat>, token: string)
    requires Ascending(all) && token != "" && forall i :: 0 <= i < |limits| ==> limits[i] >= 1
    ensures forall r :: r in Returned(all, limits, token) ==> LexLess(token, r.key)
    decreases |limits|
  {
    if limits != [] {
      var p := PageOf(all, limits[0], token);
      PageSound(all, limits[0], token);
      if p.next != "" {
        ReturnedAbove(all, limits[1..], p.next);
        forall r | r in Returned(all, limits[1..], p.next) ensures LexLess(token, r.key) {
          LexTransitive(token, p.next, r.key);
        }
      }
    }
  }

  /**
   The next token names the first row left out, and later pages start strictly above it. So a walk over an unchanging
   listing returns every row exactly when the first page already does.
   */
  lemma WalkCompleteIff(all: seq<Record>, limits: seq<nat>)
    requires Ascending(all) && limits != [] && forall i :: 0 <= i < |limits| ==> limits[i] >= 1
    ensures (forall r :: r in all ==> r in Returned(all, limits, "")) <==> |all| <= limits[0]
  {
    FirstPage(all, limits[0]);
    if |all| > limits[0] {
      var skipped := all[limits[0]];
      ReturnedAbove(all, limits[1..], skipped.key);
      LexIrreflexive(skipped.key);
      forall i | 0 <= i < limits[0] ensures all[..limits[0]][i] != skipped {
        assert LexLess(all[i].key, skipped.key);
      }
      assert skipped !in Returned(all, limits, "");
    } else {
      assert all[..|all|] == all;
    }
  }

  /** Three rows, one per page: the second row is never returned. */
  lemma WalkSkipsARow(a: Record, b: Record, c: Record)
    requires Ascending([a, b, c])
    ensures b !in Returned([a, b, c], [1, 1, 1], "")
  {
    var all := [a, b, c];
    FirstPage(all, 1);
    assert [1, 1, 1][1..] == [1, 1];
    ReturnedAbove(all, [1, 1], b.key);
    LexIrreflexive(b.key);
    assert LexLess(all[0].key, all[1].key);
  }
}

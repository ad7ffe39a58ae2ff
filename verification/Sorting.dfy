/** The contract of Go's sort.Slice: an unstable sort, so equal elements may end in any order. */
module Sorting {

  ghost predicate StrictWeakOrder<T(!new)>(less: (T, T) -> bool) {
    && (forall x :: !less(x, x))
    && (forall x, y, z :: less(x, y) && less(y, z) ==> less(x, z))
    && (forall x, y, z :: !less(x, y) && !less(y, z) ==> !less(x, z))
  }

  ghost predicate SortedBy<T(!new)>(s: seq<T>, less: (T, T) -> bool) {
    forall i, j :: 0 <= i < j < |s| ==> !less(s[j], s[i])
  }

  method SwapDown<T>(a: array<T>, n: nat, j: nat)
    requires 0 < j < n <= a.Length
    modifies a
    ensures a[j] == old(a[j - 1]) && a[j - 1] == old(a[j])
    ensures forall k :: 0 <= k < a.Length && k != j && k != j - 1 ==> a[k] == old(a[k])
    ensures multiset(a[..n]) == multiset(old(a[..n]))
  {
    ghost var s := a[..n];
    a[j], a[j - 1] := a[j - 1], a[j];
    assert a[..n] == s[j := s[j - 1]][j - 1 := s[j]];
  }

  /** Sorts the first `n` elements of `a` in place; callers learn only that they are sorted and permuted. */
  method SortSlice<T(!new)>(a: array<T>, n: nat, less: (T, T) -> bool)
    requires n <= a.Length && StrictWeakOrder(less)
    modifies a
    ensures SortedBy(a[..n], less)
    ensures multiset(a[..n]) == multiset(old(a[..n]))
    ensures forall k :: n <= k < a.Length ==> a[k] == old(a[k])
  {
    var i := 0;
    while i < n
      invariant 0 <= i <= n
      invariant SortedBy(a[..i], less)
      invariant multiset(a[..n]) == multiset(old(a[..n]))
      invariant forall k :: n <= k < a.Length ==> a[k] == old(a[k])
    {
      Sink(a, n, i, less);
      i := i + 1;
    }
  }

  /** Moves element `i` down into the sorted prefix before it. */
  method Sink<T(!new)>(a: array<T>, n: nat, i: nat, less: (T, T) -> bool)
    requires i < n <= a.Length && StrictWeakOrder(less)
    requires SortedBy(a[..i], less)
    modifies a
    ensures SortedBy(a[..i + 1], less)
    ensures multiset(a[..n]) == multiset(old(a[..n]))
    ensures forall k :: n <= k < a.Length ==> a[k] == old(a[k])
  {
    var j := i;
    while j > 0 && less(a[j], a[j - 1])
      invariant 0 <= j <= i
      invariant forall p, q :: 0 <= p < q <= i && q != j ==> !less(a[q], a[p])
      invariant forall q :: j < q <= i ==> less(a[j], a[q])
      invariant multiset(a[..n]) == multiset(old(a[..n]))
      invariant forall k :: n <= k < a.Length ==> a[k] == old(a[k])
    {
      SwapDown(a, n, j);
      j := j - 1;
    }
  }

  /** sort.Slice applied to a slice held as a value. */
  method Sorted<T(!new)>(s: seq<T>, less: (T, T) -> bool) returns (r: seq<T>)
    requires StrictWeakOrder(less)
    ensures SortedBy(r, less) && multiset(r) == multiset(s)
  {
    var a := new T[|s|](i requires 0 <= i < |s| => s[i]);
    assert a[..|s|] == s;
    SortSlice(a, |s|, less);
    r := a[..|s|];
  }

  lemma {:induction false} OnceInMultiset<T>(s: seq<T>, x: T)
    requires forall i, j :: 0 <= i < j < |s| ==> s[i] != s[j]
    ensures multiset(s)[x] <= 1
  {
    if s != [] {
      assert s == s[..|s| - 1] + [s[|s| - 1]];
      OnceInMultiset(s[..|s| - 1], x);
      if s[|s| - 1] == x {
        assert x !in s[..|s| - 1];
      }
    }
  }

  lemma TwiceInMultiset<T>(s: seq<T>, i: nat, j: nat)
    requires i < j < |s| && s[i] == s[j]
    ensures multiset(s)[s[i]] >= 2
  {
    assert s == s[..j] + s[j..];
    assert s[i] in s[..j] && s[j] in s[j..];
  }
}

/** Small types and string facts shared by all the models. */
module Prelude {

  datatype Option<+T> = None | Some(value: T)

  datatype Result<+T, +E> = Ok(value: T) | Err(error: E)

  /** Go's `<` on strings: lexicographic, a proper prefix coming first. */
  predicate LexLess(a: string, b: string) {
    if b == "" then false
    else if a == "" then true
    else a[0] < b[0] || (a[0] == b[0] && LexLess(a[1..], b[1..]))
  }

  lemma {:induction false} LexIrreflexive(a: string)
    ensures !LexLess(a, a)
  {
    if a != "" {
      LexIrreflexive(a[1..]);
    }
  }

  lemma {:induction false} LexTransitive(a: string, b: string, c: string)
    requires LexLess(a, b) && LexLess(b, c)
    ensures LexLess(a, c)
  {
    if a != "" && a[0] == b[0] == c[0] {
      LexTransitive(a[1..], b[1..], c[1..]);
    }
  }

  lemma {:induction false} LexTotal(a: string, b: string)
    ensures LexLess(a, b) || a == b || LexLess(b, a)
  {
    if a != "" && b != "" && a[0] == b[0] {
      LexTotal(a[1..], b[1..]);
      assert a == [a[0]] + a[1..] && b == [b[0]] + b[1..];
    }
  }

  /** `a` and `b` agree on their first `k` characters; there `a` ends, or has the smaller character. */
  predicate SmallerAt(a: string, b: string, k: nat) {
    k <= |a| && k < |b| && a[..k] == b[..k] && (k == |a| || a[k] < b[k])
  }

  lemma {:induction false} LexLessMeans(a: string, b: string)
    ensures LexLess(a, b) <==> exists k: nat :: SmallerAt(a, b, k)
  {
    if a == "" && b != "" {
      assert SmallerAt(a, b, 0);
    } else if a != "" && b != "" && a[0] < b[0] {
      assert SmallerAt(a, b, 0);
    } else if a != "" && b != "" {
      LexLessMeans(a[1..], b[1..]);
      if k: nat :| SmallerAt(a[1..], b[1..], k) && a[0] == b[0] {
        assert a == [a[0]] + a[1..] && b == [b[0]] + b[1..];
        assert SmallerAt(a, b, k + 1);
      }
      if k: nat :| SmallerAt(a, b, k) {
        assert k > 0 && a[..k][0] == b[..k][0];
        assert a[1..][..k - 1] == a[..k][1..] && b[1..][..k - 1] == b[..k][1..];
        assert SmallerAt(a[1..], b[1..], k - 1);
      }
    }
  }

  predicate IsDigit(c: char) { '0' <= c <= '9' }

  /** Go's strconv.Itoa on a natural number. */
  function Itoa(n: nat): (s: string)
    ensures s != "" && forall i :: 0 <= i < |s| ==> IsDigit(s[i])
  {
    var digit := ('0' as int + n % 10) as char;
    if n < 10 then [digit] else Itoa(n / 10) + [digit]
  }

  lemma {:induction false} ItoaInjective(m: nat, n: nat)
    requires Itoa(m) == Itoa(n)
    ensures m == n
  {
    var a, b := Itoa(m), Itoa(n);
    assert a[|a| - 1] == b[|b| - 1];
    if m >= 10 && n >= 10 {
      assert Itoa(m / 10) == a[..|a| - 1] && Itoa(n / 10) == b[..|b| - 1];
      ItoaInjective(m / 10, n / 10);
    }
  }

  /** The value of a string of digits. */
  function Decimal(s: string): nat
    requires forall i :: 0 <= i < |s| ==> IsDigit(s[i])
  {
    if s == "" then 0
    else
      var last := s[|s| - 1];
      assert IsDigit(last);
      Decimal(s[..|s| - 1]) * 10 + (last as int - '0' as int)
  }

  /** The decimal numeral of `n`, without leading zeros. */
  predicate Spells(s: string, n: nat) {
    && s != "" && (forall i :: 0 <= i < |s| ==> IsDigit(s[i]))
    && Decimal(s) == n && (|s| > 1 ==> s[0] != '0')
  }

  lemma {:induction false} ItoaSpells(n: nat)
    ensures Spells(Itoa(n), n)
  {
    var s := Itoa(n);
    var digit := s[|s| - 1];
    assert digit as int - '0' as int == n % 10;
    if n >= 10 {
      ItoaSpells(n / 10);
      assert s[..|s| - 1] == Itoa(n / 10);
      assert s[0] == Itoa(n / 10)[0];
      if |Itoa(n / 10)| == 1 { assert Decimal(Itoa(n / 10)[..0]) == 0; }
    } else {
      assert s[..0] == "";
    }
  }

  /** The `node#index` label used for ring tokens and for table entries. */
  function Label(node: string, index: nat): string {
    node + "#" + Itoa(index)
  }

  /** The last '#' of a label separates its parts, so labels never collide, even when node IDs contain '#'. */
  lemma LabelInjective(m: string, i: nat, n: string, j: nat)
    requires Label(m, i) == Label(n, j)
    ensures m == n && i == j
  {
    var s, a, b := Label(m, i), Itoa(i), Itoa(j);
    assert s == m + "#" + a && s == n + "#" + b;
    assert s[|m|] == '#' && s[|n|] == '#';
    assert forall k :: |m| < k < |s| ==> s[k] == a[k - |m| - 1];
    assert forall k :: |n| < k < |s| ==> s[k] == b[k - |n| - 1];
    assert |m| == |n|;
    assert m == s[..|m|] && n == s[..|n|];
    assert a == s[|m| + 1..] && b == s[|n| + 1..];
    ItoaInjective(i, j);
  }

  /** A label is the node's ID, '#', and the decimal numeral of the index. */
  lemma LabelSpells(node: string, index: nat)
    ensures var s := Label(node, index);
            |node| < |s| && s[..|node|] == node && s[|node|] == '#' && Spells(s[|node| + 1..], index)
  {
    ItoaSpells(index);
    assert Label(node, index)[|node| + 1..] == Itoa(index);
  }
}

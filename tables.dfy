/**
 * What the store's queries do to rows, independent of any one table: a full
 * scan yields every row once, `ORDER BY c DESC` orders rows by a key,
 * `LIMIT n` keeps a prefix, and `sum(1 for r in rows if p(r))` counts.
 */
module Tables {

  /** Number of rows satisfying p: the value of `sum(1 for r in rows if p(r))`. */
  function Count<T>(s: seq<T>, p: T -> bool): (n: nat)
    ensures n <= |s|
    ensures n == |s| <==> forall i :: 0 <= i < |s| ==> p(s[i])
    ensures n == 0 <==> forall i :: 0 <= i < |s| ==> !p(s[i])
  {
    if s == [] then 0
    else
      var rest := Count(s[1..], p);
      assert forall i :: 1 <= i < |s| ==> s[i] == s[1..][i - 1];
      (if p(s[0]) then 1 else 0) + rest
  }

  lemma {:induction false} CountAppend<T>(a: seq<T>, b: seq<T>, p: T -> bool)
    ensures Count(a + b, p) == Count(a, p) + Count(b, p)
  {
    if a == [] {
      assert a + b == b;
    } else {
      assert (a + b)[1..] == a[1..] + b;
      CountAppend(a[1..], b, p);
    }
  }

  /** A count does not depend on the order in which the rows are scanned. */
  lemma {:induction false} CountPermutation<T>(a: seq<T>, b: seq<T>, p: T -> bool)
    requires multiset(a) == multiset(b)
    ensures Count(a, p) == Count(b, p)
    decreases |a|
  {
    if a == [] {
      assert |b| == |multiset(b)| == 0;
    } else {
      var x := a[0];
      assert x in multiset(b);
      var j :| 0 <= j < |b| && b[j] == x;
      var b' := b[..j] + b[j + 1..];
      assert b == b[..j] + [b[j]] + b[j + 1..];
      assert a == [x] + a[1..];
      assert multiset(b) == multiset(b[..j]) + multiset{x} + multiset(b[j + 1..]);
      assert multiset(a) == multiset{x} + multiset(a[1..]);
      assert multiset(b') == multiset(b[..j]) + multiset(b[j + 1..]);
      calc {
        multiset(a[1..]);
        multiset(a) - multiset{x};
        multiset(b) - multiset{x};
        multiset(b');
      }
      CountPermutation(a[1..], b', p);
      CountAppend(b[..j] + [b[j]], b[j + 1..], p);
      CountAppend(b[..j], [b[j]], p);
      CountAppend(b[..j], b[j + 1..], p);
    }
  }

  /** Rows in the order `ORDER BY key DESC` produces. */
  ghost predicate SortedDesc<T>(s: seq<T>, key: T -> int) {
    forall i, j :: 0 <= i < j < |s| ==> key(s[i]) >= key(s[j])
  }

  function InsertDesc<T>(x: T, s: seq<T>, key: T -> int): (r: seq<T>)
    ensures |r| == |s| + 1
    ensures multiset(r) == multiset(s) + multiset{x}
  {
    if s == [] || key(x) >= key(s[0]) then [x] + s
    else
      assert s == [s[0]] + s[1..];
      [s[0]] + InsertDesc(x, s[1..], key)
  }

  /** The rows of s ordered by key, largest first. */
  function SortDesc<T>(s: seq<T>, key: T -> int): (r: seq<T>)
    ensures |r| == |s|
    ensures multiset(r) == multiset(s)
  {
    if s == [] then []
    else
      assert s == [s[0]] + s[1..];
      InsertDesc(s[0], SortDesc(s[1..], key), key)
  }

  lemma {:induction false} InsertDescSorted<T>(x: T, s: seq<T>, key: T -> int)
    requires SortedDesc(s, key)
    ensures SortedDesc(InsertDesc(x, s, key), key)
  {
    if s == [] || key(x) >= key(s[0]) {
    } else {
      var t := InsertDesc(x, s[1..], key);
      InsertDescSorted(x, s[1..], key);
      forall y | y in t ensures key(y) <= key(s[0]) {
        assert y in multiset(t);
        if y != x {
          assert y in multiset(s[1..]);
          var j :| 0 <= j < |s[1..]| && s[1..][j] == y;
          assert s[j + 1] == y;
        }
      }
      assert InsertDesc(x, s, key) == [s[0]] + t;
    }
  }

  /** SortDesc orders its rows by key, largest first, and loses or adds none. */
  lemma {:induction false} SortDescSorted<T>(s: seq<T>, key: T -> int)
    ensures SortedDesc(SortDesc(s, key), key)
    ensures multiset(SortDesc(s, key)) == multiset(s)
  {
    if s != [] {
      SortDescSorted(s[1..], key);
      InsertDescSorted(s[0], SortDesc(s[1..], key), key);
    }
  }

  /** `LIMIT n` on sorted rows keeps the n rows with the largest keys: none left out is larger. */
  lemma {:induction false} SortedPrefixIsTop<T>(s: seq<T>, key: T -> int, n: nat)
    requires SortedDesc(s, key) && n <= |s|
    ensures multiset(s[..n]) <= multiset(s)
    ensures forall e :: e in multiset(s) - multiset(s[..n]) ==> forall i :: 0 <= i < n ==> key(e) <= key(s[i])
  {
    assert s == s[..n] + s[n..];
    assert multiset(s) == multiset(s[..n]) + multiset(s[n..]);
    forall e | e in multiset(s) - multiset(s[..n])
      ensures forall i :: 0 <= i < n ==> key(e) <= key(s[i])
    {
      assert e in multiset(s[n..]);
      var j :| 0 <= j < |s[n..]| && s[n..][j] == e;
      assert s[n + j] == e;
    }
  }

  /** `ORDER BY key DESC LIMIT n`: at most n rows of s, largest keys first. */
  function TopN<T>(s: seq<T>, key: T -> int, n: nat): (r: seq<T>)
    ensures |r| == if |s| < n then |s| else n
    ensures multiset(r) <= multiset(s)
    ensures forall i, j :: 0 <= i < j < |r| ==> key(r[i]) >= key(r[j])
  {
    SortDescSorted(s, key);
    SortedPrefixIsTop(SortDesc(s, key), key, if |s| < n then |s| else n);
    SortDesc(s, key)[..if |s| < n then |s| else n]
  }

  /** No row that `LIMIT n` leaves out has a larger key than a row it keeps. */
  lemma TopNIsTop<T>(s: seq<T>, key: T -> int, n: nat, e: T, i: nat)
    requires e in multiset(s) - multiset(TopN(s, key, n))
    requires i < |TopN(s, key, n)|
    ensures key(e) <= key(TopN(s, key, n)[i])
  {
    var m := if |s| < n then |s| else n;
    SortDescSorted(s, key);
    SortedPrefixIsTop(SortDesc(s, key), key, m);
  }

  /**
   * A full table scan: returns every (key, row) pair of the table exactly once,
   * in an order the model leaves open.
   */
  method Scan<K, V(==)>(m: map<K, V>) returns (s: seq<(K, V)>)
    ensures multiset(s) == multiset(m.Items)
    ensures |s| == |m|
  {
    s := [];
    var rest := m.Items;
    while rest != {}
      invariant rest <= m.Items
      invariant multiset(s) + multiset(rest) == multiset(m.Items)
      decreases |rest|
    {
      var p :| p in rest;
      assert multiset(rest) == multiset(rest - {p}) + multiset{p};
      s := s + [p];
      rest := rest - {p};
    }
    assert |m.Items| == |m|;
    assert |s| == |multiset(s)| == |multiset(m.Items)| == |m.Items|;
  }
}

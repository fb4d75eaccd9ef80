/** Strict total orders, the lexicographic order built from one, and sorted
    enumerations of finite sets. Rust's `Ord` for slices and iterators, its
    `BTreeSet`/`BTreeMap` iteration order, and `sort` followed by `dedup` are
    all stated in these terms. */
module Order {
  ghost predicate StrictTotal<T(!new)>(less: (T, T) -> bool) {
    && (forall x :: !less(x, x))
    && (forall x, y, z :: less(x, y) && less(y, z) ==> less(x, z))
    && (forall x, y :: x == y || less(x, y) || less(y, x))
  }

  /** Lexicographic order: the first difference decides, a proper prefix comes first. */
  predicate LexLess<T(==)>(less: (T, T) -> bool, a: seq<T>, b: seq<T>) {
    b != [] &&
    (a == [] || less(a[0], b[0]) || (a[0] == b[0] && LexLess(less, a[1..], b[1..])))
  }

  lemma {:induction false} LexIrreflexive<T(!new)>(less: (T, T) -> bool, a: seq<T>)
    requires StrictTotal(less)
    ensures !LexLess(less, a, a)
  {
    if a != [] {
      LexIrreflexive(less, a[1..]);
    }
  }

  lemma {:induction false} LexTransitive<T(!new)>(less: (T, T) -> bool, a: seq<T>, b: seq<T>, c: seq<T>)
    requires StrictTotal(less)
    requires LexLess(less, a, b) && LexLess(less, b, c)
    ensures LexLess(less, a, c)
  {
    if a != [] && a[0] == b[0] && b[0] == c[0] {
      LexTransitive(less, a[1..], b[1..], c[1..]);
    }
  }

  lemma {:induction false} LexConnected<T(!new)>(less: (T, T) -> bool, a: seq<T>, b: seq<T>)
    requires StrictTotal(less)
    ensures a == b || LexLess(less, a, b) || LexLess(less, b, a)
  {
    if a != [] && b != [] && a[0] == b[0] {
      LexConnected(less, a[1..], b[1..]);
      if a[1..] == b[1..] {
        assert a == [a[0]] + a[1..] && b == [b[0]] + b[1..];
      }
    }
  }

  // ----- The lexicographic order of numbers, spelled out -----

  /** `a` comes before `b`, decided at position `i`: there `a` ends or has the smaller number. */
  predicate AscendsAt(a: seq<int>, b: seq<int>, i: nat) {
    && i <= |a| && i <= |b| && a[..i] == b[..i]
    && if i == |a| then |a| < |b| else i < |b| && a[i] < b[i]
  }

  ghost predicate Ascends(a: seq<int>, b: seq<int>) { exists i: nat :: AscendsAt(a, b, i) }

  lemma EqualPrefixes<T>(a: seq<T>, b: seq<T>, i: nat)
    ensures 0 < i <= |a| && i <= |b| && a[..i] == b[..i] ==> a[0] == b[0]
  {
    if 0 < i <= |a| && i <= |b| && a[..i] == b[..i] {
      assert a[0] == a[..i][0] == b[..i][0] == b[0];
    }
  }

  lemma {:induction false} LexIsAscent(less: (int, int) -> bool, a: seq<int>, b: seq<int>)
    requires forall x, y :: less(x, y) <==> x < y
    ensures LexLess(less, a, b) <==> Ascends(a, b)
  {
    if a == [] || b == [] || a[0] != b[0] {
      if LexLess(less, a, b) {
        assert AscendsAt(a, b, 0);
      }
      if i: nat :| AscendsAt(a, b, i) {
        EqualPrefixes(a, b, i);
      }
    } else {
      LexIsAscent(less, a[1..], b[1..]);
      if i: nat :| AscendsAt(a[1..], b[1..], i) {
        assert a[..i + 1] == [a[0]] + a[1..][..i] && b[..i + 1] == [b[0]] + b[1..][..i];
        assert AscendsAt(a, b, i + 1);
      }
      if i: nat :| AscendsAt(a, b, i) {
        assert i > 0 && a[..i][1..] == a[1..][..i - 1] && b[..i][1..] == b[1..][..i - 1];
        assert AscendsAt(a[1..], b[1..], i - 1);
      }
    }
  }

  // ----- Orders built from it -----

  /** A predicate that agrees with the lexicographic order is a strict total order. */
  lemma LexStrictTotal<T(!new)>(less: (T, T) -> bool, lex: (seq<T>, seq<T>) -> bool)
    requires StrictTotal(less)
    requires forall a, b :: lex(a, b) == LexLess(less, a, b)
    ensures StrictTotal(lex)
  {
    forall a ensures !lex(a, a) { LexIrreflexive(less, a); }
    forall a, b, c | lex(a, b) && lex(b, c) ensures lex(a, c) { LexTransitive(less, a, b, c); }
    forall a, b ensures a == b || lex(a, b) || lex(b, a) { LexConnected(less, a, b); }
  }

  ghost predicate Sorted<T>(less: (T, T) -> bool, s: seq<T>) {
    forall i, j :: 0 <= i < j < |s| ==> less(s[i], s[j])
  }

  predicate IsLeast<T(==)>(less: (T, T) -> bool, m: T, s: set<T>) {
    m in s && forall y :: y in s ==> y == m || less(m, y)
  }

  lemma {:induction false} LeastExists<T(!new)>(less: (T, T) -> bool, s: set<T>)
    requires StrictTotal(less) && s != {}
    ensures exists m :: IsLeast(less, m, s)
  {
    var x :| x in s;
    var rest := s - {x};
    assert s == rest + {x};
    if rest == {} {
      assert IsLeast(less, x, s);
    } else {
      LeastExists(less, rest);
      var m :| IsLeast(less, m, rest);
      assert IsLeast(less, if less(x, m) then x else m, s);
    }
  }

  /** The elements of a set in increasing order, as a BTreeSet yields them. */
  function Enumerate<T(==, !new)>(less: (T, T) -> bool, s: set<T>): (r: seq<T>)
    requires StrictTotal(less)
    ensures Sorted(less, r)
    ensures forall x :: x in r <==> x in s
    ensures |r| == |s|
  {
    if s == {} then []
    else
      LeastExists(less, s);
      var m :| IsLeast(less, m, s);
      [m] + Enumerate(less, s - {m})
  }

  /** A strictly sorted sequence is determined by its elements. */
  lemma {:induction false} SortedUnique<T(!new)>(less: (T, T) -> bool, a: seq<T>, b: seq<T>)
    requires StrictTotal(less) && Sorted(less, a) && Sorted(less, b)
    requires forall x :: x in a <==> x in b
    ensures a == b
  {
    if a == [] {
      assert forall i :: 0 <= i < |b| ==> b[i] in a;
    } else {
      assert a[0] in b && b[0] in a;
      assert a[0] == b[0];
      var a', b' := a[1..], b[1..];
      forall x ensures x in a' <==> x in b' {
        assert x in a' ==> x in a && x != a[0];
        assert x in b' ==> x in b && x != b[0];
      }
      SortedUnique(less, a', b');
      assert a == [a[0]] + a' && b == [b[0]] + b';
    }
  }

  lemma SortedIsDistinct<T(!new)>(less: (T, T) -> bool, s: seq<T>, i: nat)
    requires StrictTotal(less) && Sorted(less, s) && i < |s|
    ensures s[i] !in s[..i] && s[..i + 1] == s[..i] + [s[i]]
  {
    assert forall k :: 0 <= k < i ==> less(s[k], s[i]);
  }
}

/** `sort_by` followed by `dedup_by`, on sequences of keyed values. */
module Sorting {
  import opened Order

  /** Insert after every element whose key is not greater: what keeps a sort stable. */
  function Insert<T, K(==)>(less: (K, K) -> bool, key: T -> K, s: seq<T>, x: T): (r: seq<T>) {
    if s == [] || less(key(x), key(s[0])) then [x] + s
    else [s[0]] + Insert(less, key, s[1..], x)
  }

  function SortBy<T, K(==)>(less: (K, K) -> bool, key: T -> K, s: seq<T>): seq<T> {
    if s == [] then [] else Insert(less, key, SortBy(less, key, s[..|s| - 1]), s[|s| - 1])
  }

  /** Keeps the first element of each run of equal keys. */
  function DedupBy<T, K(==)>(key: T -> K, s: seq<T>): seq<T>
    decreases |s|
  {
    if |s| <= 1 then s
    else if key(s[0]) == key(s[1]) then DedupBy(key, [s[0]] + s[2..])
    else [s[0]] + DedupBy(key, s[1..])
  }

  function SortDedup<T, K(==)>(less: (K, K) -> bool, key: T -> K, s: seq<T>): seq<T> {
    DedupBy(key, SortBy(less, key, s))
  }

  /** No later key is below an earlier one. */
  ghost predicate Ascending<T, K>(less: (K, K) -> bool, key: T -> K, s: seq<T>) {
    forall i, j :: 0 <= i < j < |s| ==> !less(key(s[j]), key(s[i]))
  }

  ghost predicate StrictlyAscending<T, K>(less: (K, K) -> bool, key: T -> K, s: seq<T>) {
    forall i, j :: 0 <= i < j < |s| ==> less(key(s[i]), key(s[j]))
  }

  ghost predicate HasKey<T, K>(key: T -> K, s: seq<T>, k: K) {
    exists i :: 0 <= i < |s| && key(s[i]) == k
  }

  lemma {:induction false} InsertKeepsOrder<T(!new), K(!new)>(less: (K, K) -> bool, key: T -> K, s: seq<T>, x: T)
    requires StrictTotal(less) && Ascending(less, key, s)
    ensures Ascending(less, key, Insert(less, key, s, x))
    ensures forall y :: y in Insert(less, key, s, x) <==> y == x || y in s
  {
    if s == [] || less(key(x), key(s[0])) {
      assert forall i :: 0 < i < |s| ==> !less(key(s[i]), key(s[0]));
    } else {
      var rest := Insert(less, key, s[1..], x);
      InsertKeepsOrder(less, key, s[1..], x);
      forall y | y in rest ensures !less(key(y), key(s[0])) {
        if y != x {
          assert y in s[1..];
        }
      }
      assert s == [s[0]] + s[1..];
    }
  }

  lemma {:induction false} SortByOrders<T(!new), K(!new)>(less: (K, K) -> bool, key: T -> K, s: seq<T>)
    requires StrictTotal(less)
    ensures Ascending(less, key, SortBy(less, key, s))
    ensures forall y :: y in SortBy(less, key, s) <==> y in s
  {
    if s != [] {
      var front := s[..|s| - 1];
      SortByOrders(less, key, front);
      InsertKeepsOrder(less, key, SortBy(less, key, front), s[|s| - 1]);
      assert s == front + [s[|s| - 1]];
    }
  }

  lemma {:induction false} DedupByOrders<T(!new), K(!new)>(less: (K, K) -> bool, key: T -> K, s: seq<T>)
    requires StrictTotal(less) && Ascending(less, key, s)
    ensures StrictlyAscending(less, key, DedupBy(key, s))
    ensures forall y :: y in DedupBy(key, s) ==> y in s
    ensures forall k :: HasKey(key, s, k) <==> HasKey(key, DedupBy(key, s), k)
    ensures s != [] ==> DedupBy(key, s) != [] && DedupBy(key, s)[0] == s[0]
    decreases |s|
  {
    if |s| > 1 {
      if key(s[0]) == key(s[1]) {
        var t := [s[0]] + s[2..];
        assert forall i :: 0 < i < |t| ==> t[i] == s[i + 1];
        DedupByOrders(less, key, t);
        forall k ensures HasKey(key, s, k) <==> HasKey(key, t, k) {
          if HasKey(key, s, k) {
            var i :| 0 <= i < |s| && key(s[i]) == k;
            assert key(t[if i <= 1 then 0 else i - 1]) == k;
          }
          if HasKey(key, t, k) {
            var i :| 0 <= i < |t| && key(t[i]) == k;
            assert key(s[if i == 0 then 0 else i + 1]) == k;
          }
        }
      } else {
        var t := s[1..];
        DedupByOrders(less, key, t);
        var d := DedupBy(key, t);
        DedupHead(less, key, s, d);
      }
    }
  }

  lemma DedupHead<T(!new), K(!new)>(less: (K, K) -> bool, key: T -> K, s: seq<T>, d: seq<T>)
    requires StrictTotal(less) && Ascending(less, key, s) && |s| > 1 && key(s[0]) != key(s[1])
    requires StrictlyAscending(less, key, d) && d != [] && d[0] == s[1]
    requires forall k :: HasKey(key, s[1..], k) <==> HasKey(key, d, k)
    ensures StrictlyAscending(less, key, [s[0]] + d)
    ensures forall k :: HasKey(key, s, k) <==> HasKey(key, [s[0]] + d, k)
  {
    var r := [s[0]] + d;
    assert less(key(s[0]), key(s[1]));
    forall i, j | 0 <= i < j < |r| ensures less(key(r[i]), key(r[j])) {
      if i == 0 && j > 1 {
        assert less(key(d[0]), key(d[j - 1]));
      }
    }
    forall k ensures HasKey(key, s, k) <==> HasKey(key, r, k) {
      if HasKey(key, s, k) {
        var i :| 0 <= i < |s| && key(s[i]) == k;
        if i == 0 {
          assert key(r[0]) == k;
        } else {
          assert key(s[1..][i - 1]) == k;
          assert HasKey(key, s[1..], k);
          var m :| 0 <= m < |d| && key(d[m]) == k;
          assert key(r[m + 1]) == k;
        }
      }
      if HasKey(key, r, k) {
        var i :| 0 <= i < |r| && key(r[i]) == k;
        if i == 0 {
          assert key(s[0]) == k;
        } else {
          assert key(d[i - 1]) == k;
          assert HasKey(key, d, k);
          var m :| 0 <= m < |s[1..]| && key(s[1..][m]) == k;
          assert key(s[m + 1]) == k;
        }
      }
    }
  }

  /** Strictly increasing keys, drawn from the input, none lost. */
  lemma SortDedupFacts<T(!new), K(!new)>(less: (K, K) -> bool, key: T -> K, s: seq<T>)
    requires StrictTotal(less)
    ensures StrictlyAscending(less, key, SortDedup(less, key, s))
    ensures forall y :: y in SortDedup(less, key, s) ==> y in s
    ensures forall y :: y in s ==> HasKey(key, SortDedup(less, key, s), key(y))
    ensures s != [] ==> SortDedup(less, key, s) != []
  {
    var t := SortBy(less, key, s);
    SortByOrders(less, key, s);
    DedupByOrders(less, key, t);
    forall y | y in s ensures HasKey(key, t, key(y)) {
      assert y in t;
    }
    if s != [] {
      assert s[0] in t;
    }
  }

  function Self<K>(k: K): K { k }

  /** Sorting and deduplicating plain values depends only on which values occur. */
  lemma SortDedupIgnoresOrderAndRepeats<K(!new)>(less: (K, K) -> bool, a: seq<K>, b: seq<K>)
    requires StrictTotal(less)
    requires forall x :: x in a <==> x in b
    ensures SortDedup(less, Self, a) == SortDedup(less, Self, b)
  {
    SortDedupFacts(less, Self, a);
    SortDedupFacts(less, Self, b);
    var a', b' := SortDedup(less, Self, a), SortDedup(less, Self, b);
    assert Sorted(less, a') by {
      forall i, j | 0 <= i < j < |a'| ensures less(a'[i], a'[j]) {
        assert less(Self(a'[i]), Self(a'[j]));
      }
    }
    assert Sorted(less, b') by {
      forall i, j | 0 <= i < j < |b'| ensures less(b'[i], b'[j]) {
        assert less(Self(b'[i]), Self(b'[j]));
      }
    }
    forall x ensures x in a' <==> x in a {
      if x in a { assert HasKey(Self, a', Self(x)); }
    }
    forall x ensures x in b' <==> x in b {
      if x in b { assert HasKey(Self, b', Self(x)); }
    }
    SortedUnique(less, a', b');
  }

  ghost predicate DistinctKeys<T, K>(key: T -> K, s: seq<T>) {
    forall i, j :: 0 <= i < j < |s| ==> key(s[i]) != key(s[j])
  }

  lemma {:induction false} InsertStrict<T(!new), K(!new)>(less: (K, K) -> bool, key: T -> K, s: seq<T>, x: T)
    requires StrictTotal(less) && StrictlyAscending(less, key, s) && forall i :: 0 <= i < |s| ==> key(s[i]) != key(x)
    ensures StrictlyAscending(less, key, Insert(less, key, s, x))
    ensures forall y :: y in Insert(less, key, s, x) <==> y == x || y in s
  {
    if s != [] && !less(key(x), key(s[0])) {
      InsertStrict(less, key, s[1..], x);
      var r := Insert(less, key, s[1..], x);
      assert s == [s[0]] + s[1..];
      forall y | y in r ensures less(key(s[0]), key(y)) {
        if y != x {
          assert y in s[1..];
        }
      }
    }
  }

  /** Sorting values with distinct keys orders them strictly. */
  lemma {:induction false} SortStrict<T(!new), K(!new)>(less: (K, K) -> bool, key: T -> K, s: seq<T>)
    requires StrictTotal(less) && DistinctKeys(key, s)
    ensures StrictlyAscending(less, key, SortBy(less, key, s))
    ensures forall y :: y in SortBy(less, key, s) <==> y in s
  {
    if s != [] {
      var front, last := s[..|s| - 1], s[|s| - 1];
      SortStrict(less, key, front);
      assert s == front + [last];
      var t := SortBy(less, key, front);
      forall i | 0 <= i < |t| ensures key(t[i]) != key(last) {
        assert t[i] in front;
      }
      InsertStrict(less, key, t, last);
    }
  }

  /** Strictly ordered values are determined by their elements. */
  lemma {:induction false} StrictUnique<T(!new), K(!new)>(less: (K, K) -> bool, key: T -> K, a: seq<T>, b: seq<T>)
    requires StrictTotal(less) && StrictlyAscending(less, key, a) && StrictlyAscending(less, key, b)
    requires forall x :: x in a <==> x in b
    ensures a == b
  {
    if a == [] {
      assert forall i :: 0 <= i < |b| ==> b[i] in a;
    } else {
      assert a[0] in b && b[0] in a;
      assert a[0] == b[0];
      var a', b' := a[1..], b[1..];
      forall x ensures x in a' <==> x in b' {
        assert x in a' ==> x in a && x != a[0];
        assert x in b' ==> x in b && x != b[0];
      }
      StrictUnique(less, key, a', b');
      assert a == [a[0]] + a' && b == [b[0]] + b';
    }
  }
}

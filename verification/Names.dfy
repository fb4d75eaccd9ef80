/** Domain names as crates/adns-wire/src/name.rs keeps them: at most 255 wire
    octets, labels of 1 to 63 octets already folded to lower case. A name is
    written here root first, so "is a subdomain of" is "has as prefix" and the
    canonical order of section 6.1 of RFC 4034 is the lexicographic order. */
module Names {
  import opened Basics
  import opened Order

  type Octets = seq<int>
  type Label = Octets
  type Name = seq<Label>

  const MAX_NAME_LEN := 255
  const WILDCARD: Label := [42]

  predicate ValidLabel(l: Label) {
    1 <= |l| <= 63 && forall o :: o in l ==> 0 <= o < 256
  }

  /** What `push_label` guarantees of every name the service holds. */
  predicate ValidName(n: Name) {
    (forall l :: l in n ==> ValidLabel(l)) && WireLength(n) <= MAX_NAME_LEN
  }

  /** Octets of the uncompressed wire form, with the root's terminating zero. */
  function WireLength(n: Name): nat {
    if n == [] then 1 else WireLength(n[..|n| - 1]) + 1 + |n[|n| - 1]|
  }

  predicate OctetLess(a: int, b: int) { a < b }

  predicate OctetsLess(a: Octets, b: Octets) { LexLess(OctetLess, a, b) }

  predicate NameLess(a: Name, b: Name) { LexLess(OctetsLess, a, b) }

  lemma OctetsOrder()
    ensures StrictTotal<Octets>(OctetsLess)
  {
    LexStrictTotal(OctetLess, OctetsLess);
  }

  lemma NameOrder()
    ensures StrictTotal<Name>(NameLess)
  {
    OctetsOrder();
    LexStrictTotal(OctetsLess, NameLess);
  }

  predicate IsSubdomain(n: Name, of: Name) { of <= n }

  predicate StrictlyBelow(n: Name, of: Name) { of < n }

  function PrependLabel(n: Name, l: Label): Option<Name> {
    if WireLength(n) + 1 + |l| <= MAX_NAME_LEN then Some(n + [l]) else None
  }

  /** `prepend_wildcard`. */
  function Wildcard(n: Name): Option<Name> { PrependLabel(n, WILDCARD) }

  lemma {:induction false} WireLengthOfPrefix(p: Name, n: Name)
    requires p <= n && forall l :: l in n ==> |l| >= 1
    ensures WireLength(p) + 2 * (|n| - |p|) <= WireLength(n)
    decreases |n|
  {
    if |p| < |n| {
      assert p <= n[..|n| - 1];
      WireLengthOfPrefix(p, n[..|n| - 1]);
    } else {
      assert p == n;
    }
  }

  /** The wildcard child of any proper ancestor of a name fits 255 octets. */
  lemma WildcardFits(ancestor: Name, n: Name)
    requires ancestor < n && ValidName(n)
    ensures Wildcard(ancestor) == Some(ancestor + [WILDCARD])
  {
    WireLengthOfPrefix(ancestor, n);
  }

  /** Subtrees are contiguous in canonical order: a name outside the subtree of
      `top` compares alike with all names inside it. */
  lemma {:induction false} SubtreeContiguous(top: Name, x: Name, y: Name, e: Name)
    requires top <= x && top <= y && !(top <= e)
    ensures NameLess(e, x) == NameLess(e, y)
    ensures NameLess(x, e) == NameLess(y, e)
    decreases |top|
  {
    OctetsOrder();
    if e != [] && e[0] == top[0] {
      var top', x', y', e' := top[1..], x[1..], y[1..], e[1..];
      assert top == [top[0]] + top' && e == [e[0]] + e';
      SubtreeContiguous(top', x', y', e');
    }
  }
}

/** The orders of octets, names and keys, spelled out: section 6 of RFC 4034. */
module CanonicalOrder {
  import opened Order
  import opened Names
  import opened Zone

  lemma OctetsAscend(a: Octets, b: Octets)
    ensures OctetsLess(a, b) <==> Ascends(a, b)
  {
    LexIsAscent(OctetLess, a, b);
  }

  /** `a` comes before `b`, decided at label `i` counted from the root. */
  ghost predicate NameAscendsAt(a: Name, b: Name, i: nat) {
    && i <= |a| && i <= |b| && a[..i] == b[..i]
    && if i == |a| then |a| < |b| else i < |b| && Ascends(a[i], b[i])
  }

  ghost predicate NameAscends(a: Name, b: Name) { exists i: nat :: NameAscendsAt(a, b, i) }

  /** Names compare label by label from the root, labels octet by octet, what ends first being smaller. */
  lemma {:induction false} NamesAscend(a: Name, b: Name)
    ensures NameLess(a, b) <==> NameAscends(a, b)
  {
    hide OctetsLess, Ascends;
    if a != [] && b != [] {
      OctetsAscend(a[0], b[0]);
    }
    if a == [] || b == [] || a[0] != b[0] {
      if NameLess(a, b) {
        assert NameAscendsAt(a, b, 0);
      }
      if i: nat :| NameAscendsAt(a, b, i) {
        EqualPrefixes(a, b, i);
      }
    } else {
      OctetsOrder();
      NamesAscend(a[1..], b[1..]);
      if i: nat :| NameAscendsAt(a[1..], b[1..], i) {
        assert a[..i + 1] == [a[0]] + a[1..][..i] && b[..i + 1] == [b[0]] + b[1..][..i];
        assert NameAscendsAt(a, b, i + 1);
      }
      if i: nat :| NameAscendsAt(a, b, i) {
        assert i > 0;
        assert a[..i][1..] == a[1..][..i - 1] && b[..i][1..] == b[1..][..i - 1];
        assert NameAscendsAt(a[1..], b[1..], i - 1);
      }
    }
  }

  /** The zone's names, hashes and RRsets are enumerated in that order. */
  lemma EnumerationsAscend(names: set<Name>, hashes: set<Octets>, keys: set<SetKey>)
    ensures var s := SortedNames(names); forall i, j :: 0 <= i < j < |s| ==> NameAscends(s[i], s[j])
    ensures var s := SortedHashes(hashes); forall i, j :: 0 <= i < j < |s| ==> Ascends(s[i], s[j])
    ensures var s := SortedKeys(keys);
            forall i, j :: 0 <= i < j < |s| ==> NameAscends(s[i].0, s[j].0) || (s[i].0 == s[j].0 && s[i].1 < s[j].1)
  {
    hide NameLess, OctetsLess, NameAscends, Ascends;
    forall a, b ensures NameLess(a, b) <==> NameAscends(a, b) { NamesAscend(a, b); }
    forall a, b ensures OctetsLess(a, b) <==> Ascends(a, b) { OctetsAscend(a, b); }
  }
}

/** Base32hex as crates/adns-wire/src/encoding.rs writes it, folded to lower
    case by `push_label`: five octets become eight five-bit digits. */
module Base32 {
  import opened Names

  ghost predicate IsDigest(h: Octets) {
    |h| == 20 && forall i :: 0 <= i < |h| ==> 0 <= h[i] < 256
  }

  function Digits(v: int, k: nat): (r: seq<int>)
    ensures |r| == k && forall i :: 0 <= i < k ==> 0 <= r[i] < 32
    decreases k
  {
    if k == 0 then [] else Digits(v / 32, k - 1) + [v % 32]
  }

  function Symbol(d: int): int { if d < 10 then 48 + d else 97 + d - 10 }

  function GroupValue(g: Octets): int
    requires |g| == 5
  {
    (((g[0] * 256 + g[1]) * 256 + g[2]) * 256 + g[3]) * 256 + g[4]
  }

  function Group(g: Octets): (r: Octets)
    requires |g| == 5
    ensures |r| == 8
  {
    var d := Digits(GroupValue(g), 8);
    seq(8, i requires 0 <= i < 8 => Symbol(d[i]))
  }

  /** The owner label of the NSEC3 record for a digest. */
  function HashLabel(h: Octets): Label {
    if |h| < 5 then [] else Group(h[..5]) + HashLabel(h[5..])
  }

  ghost function Power(k: nat): nat { if k == 0 then 1 else 32 * Power(k - 1) }

  lemma {:induction false} DigitsInjective(v: nat, w: nat, k: nat)
    requires v < Power(k) && w < Power(k) && Digits(v, k) == Digits(w, k)
    ensures v == w
  {
    if k > 0 {
      var a, b := Digits(v / 32, k - 1), Digits(w / 32, k - 1);
      assert Digits(v, k)[..k - 1] == a && Digits(w, k)[..k - 1] == b;
      assert Digits(v, k)[k - 1] == v % 32 && Digits(w, k)[k - 1] == w % 32;
      DigitsInjective(v / 32, w / 32, k - 1);
    }
  }

  lemma OctetPairInjective(x: int, y: int, p: int, q: int)
    requires 0 <= y < 256 && 0 <= q < 256 && x * 256 + y == p * 256 + q
    ensures x == p && y == q
  {
  }

  lemma GroupValueInjective(a: Octets, b: Octets)
    requires |a| == 5 && |b| == 5 && GroupValue(a) == GroupValue(b)
    requires forall i :: 0 <= i < 5 ==> 0 <= a[i] < 256 && 0 <= b[i] < 256
    ensures a == b
  {
    var a1, b1 := a[0] * 256 + a[1], b[0] * 256 + b[1];
    var a2, b2 := a1 * 256 + a[2], b1 * 256 + b[2];
    var a3, b3 := a2 * 256 + a[3], b2 * 256 + b[3];
    OctetPairInjective(a3, a[4], b3, b[4]);
    OctetPairInjective(a2, a[3], b2, b[3]);
    OctetPairInjective(a1, a[2], b1, b[2]);
    OctetPairInjective(a[0], a[1], b[0], b[1]);
  }

  lemma GroupValueBound(a: Octets)
    requires |a| == 5 && forall i :: 0 <= i < 5 ==> 0 <= a[i] < 256
    ensures 0 <= GroupValue(a) < Power(8)
  {
    assert Power(4) == 1048576;
    assert Power(8) == 1048576 * 1048576;
  }

  lemma GroupInjective(a: Octets, b: Octets)
    requires |a| == 5 && |b| == 5 && Group(a) == Group(b)
    requires forall i :: 0 <= i < 5 ==> 0 <= a[i] < 256 && 0 <= b[i] < 256
    ensures a == b
  {
    GroupValueBound(a);
    GroupValueBound(b);
    var v, w := GroupValue(a), GroupValue(b);
    assert v == w by {
      var d, e := Digits(v, 8), Digits(w, 8);
      forall i | 0 <= i < 8 ensures d[i] == e[i] {
        assert Group(a)[i] == Symbol(d[i]) && Group(b)[i] == Symbol(e[i]);
      }
      assert d == e;
      DigitsInjective(v, w, 8);
    }
    GroupValueInjective(a, b);
  }

  lemma ConcatInjective(a: Octets, x: Octets, b: Octets, y: Octets)
    requires |a| == |b| && a + x == b + y
    ensures a == b && x == y
  {
    assert (a + x)[..|a|] == a && (b + y)[..|b|] == b;
    assert (a + x)[|a|..] == x && (b + y)[|b|..] == y;
  }

  lemma {:induction false} HashLabelInjective(a: Octets, b: Octets, groups: nat)
    requires |a| == |b| == 5 * groups && HashLabel(a) == HashLabel(b)
    requires forall i :: 0 <= i < |a| ==> 0 <= a[i] < 256 && 0 <= b[i] < 256
    ensures a == b
    decreases groups
  {
    if groups > 0 {
      ConcatInjective(Group(a[..5]), HashLabel(a[5..]), Group(b[..5]), HashLabel(b[5..]));
      GroupInjective(a[..5], b[..5]);
      HashLabelInjective(a[5..], b[5..], groups - 1);
      assert a == a[..5] + a[5..] && b == b[..5] + b[5..];
    }
  }

  // ----- Reading a label back -----

  /** The value of a symbol of the extended hexadecimal alphabet 0 to 9, a to v. */
  function SymbolValue(c: int): int {
    if 48 <= c <= 57 then c - 48 else if 97 <= c <= 118 then c - 87 else -1
  }

  /** A number by place value, most significant digit first. */
  function Number(s: seq<int>, base: int): int {
    if s == [] then 0 else Number(s[..|s| - 1], base) * base + s[|s| - 1]
  }

  function SymbolValues(s: seq<int>): (r: seq<int>)
    ensures |r| == |s| && forall i :: 0 <= i < |s| ==> r[i] == SymbolValue(s[i])
  {
    if s == [] then [] else SymbolValues(s[..|s| - 1]) + [SymbolValue(s[|s| - 1])]
  }

  lemma {:induction false} DigitsNumber(v: nat, k: nat)
    requires v < Power(k)
    ensures Number(Digits(v, k), 32) == v
  {
    if k > 0 {
      DigitsNumber(v / 32, k - 1);
      assert Digits(v, k)[..k - 1] == Digits(v / 32, k - 1);
    }
  }

  lemma GroupNumber(g: Octets)
    requires |g| == 5
    ensures Number(g, 256) == GroupValue(g)
  {
    var a, b, c, d := g[..4], g[..3], g[..2], g[..1];
    assert a[..3] == b && b[..2] == c && c[..1] == d && d[..0] == [];
    assert Number(d, 256) == g[0];
    assert Number(c, 256) == g[0] * 256 + g[1];
    assert Number(b, 256) == (g[0] * 256 + g[1]) * 256 + g[2];
    assert Number(a, 256) == ((g[0] * 256 + g[1]) * 256 + g[2]) * 256 + g[3];
  }

  lemma GroupReadsBack(g: Octets)
    requires |g| == 5 && forall i :: 0 <= i < 5 ==> 0 <= g[i] < 256
    ensures forall c :: c in Group(g) ==> 0 <= SymbolValue(c) < 32
    ensures Number(SymbolValues(Group(g)), 32) == Number(g, 256)
  {
    hide Digits, GroupValue, Power, Number;
    GroupValueBound(g);
    var d := Digits(GroupValue(g), 8);
    assert SymbolValues(Group(g)) == d;
    DigitsNumber(GroupValue(g), 8);
    GroupNumber(g);
  }

  /** Eight symbols of the label for every five octets of the digest, standing for
      the same number; only the symbols 0 to 9 and a to v occur. */
  lemma {:induction false} HashLabelReadsBack(h: Octets, groups: nat, g: nat)
    requires |h| == 5 * groups && g < groups && forall i :: 0 <= i < |h| ==> 0 <= h[i] < 256
    ensures |HashLabel(h)| == 8 * groups
    ensures forall c :: c in HashLabel(h)[8 * g..8 * g + 8] ==> 0 <= SymbolValue(c) < 32
    ensures Number(SymbolValues(HashLabel(h)[8 * g..8 * g + 8]), 32) == Number(h[5 * g..5 * g + 5], 256)
    decreases groups
  {
    hide Group, Number, SymbolValues;
    var first, rest := h[..5], h[5..];
    var label_ := HashLabel(h);
    LabelLength(rest, groups - 1);
    assert label_ == Group(first) + HashLabel(rest);
    if g == 0 {
      GroupReadsBack(first);
      assert label_[..8] == Group(first) && h[0..5] == first && label_[0..8] == label_[..8];
    } else {
      HashLabelReadsBack(rest, groups - 1, g - 1);
      assert label_[8 * g..8 * g + 8] == HashLabel(rest)[8 * (g - 1)..8 * (g - 1) + 8];
      assert h[5 * g..5 * g + 5] == rest[5 * (g - 1)..5 * (g - 1) + 5];
    }
  }

  lemma {:induction false} LabelLength(h: Octets, groups: nat)
    requires |h| == 5 * groups
    ensures |HashLabel(h)| == 8 * groups
    decreases groups
  {
    hide Group;
    if groups > 0 {
      LabelLength(h[5..], groups - 1);
    }
  }
}

/** Which octets a signature covers, read back as a resolver reads them: labels by
    their length octet, numbers by place value, most significant octet first
    (section 3.1.8.1 of RFC 4034). */
module SignedOctets {
  import opened Basics
  import opened Order
  import opened Sorting
  import opened Names
  import opened Records
  import opened Signing
  import opened CanonicalOrder

  // ----- Reading -----

  function TwoOctets(s: Octets, i: nat): int
    requires i + 2 <= |s|
  {
    256 * s[i] + s[i + 1]
  }

  function FourOctets(s: Octets, i: nat): int
    requires i + 4 <= |s|
  {
    0x100_0000 * s[i] + 0x1_0000 * s[i + 1] + 0x100 * s[i + 2] + s[i + 3]
  }

  /** A name up to its zero octet, deepest label first on the wire, and what follows it. */
  function ReadName(s: Octets): (r: Option<(Name, Octets)>)
    ensures r.Some? ==> |r.value.1| < |s|
  {
    if s == [] then None
    else if s[0] == 0 then Some(([], s[1..]))
    else if !(1 <= s[0] <= 63 && s[0] < |s|) then None
    else match ReadName(s[1 + s[0]..])
      case None => None
      case Some((parent, rest)) => Some((parent + [s[1..1 + s[0]]], rest))
  }

  datatype Form = Form(owner: Name, rtype: int, rclass: int, ttl: int, data: Octets)

  /** Records to the end: owner, type, class, TTL, length, RDATA. */
  function ReadForms(s: Octets): Option<seq<Form>>
    decreases |s|
  {
    if s == [] then Some([])
    else match ReadName(s)
      case None => None
      case Some((owner, rest)) =>
        if |rest| < 10 || !(0 <= TwoOctets(rest, 8) <= |rest| - 10) then None
        else
          var end := 10 + TwoOctets(rest, 8);
          var form := Form(owner, TwoOctets(rest, 0), TwoOctets(rest, 2), FourOctets(rest, 4), rest[10..end]);
          match ReadForms(rest[end..])
          case None => None
          case Some(forms) => Some([form] + forms)
  }

  // ----- What was written -----

  lemma Written16(v: int)
    requires 0 <= v < 0x1_0000
    ensures |BigEndian(v, 2)| == 2 && TwoOctets(BigEndian(v, 2), 0) == v
  {
    assert BigEndian(v, 2) == BigEndian(v / 256, 1) + [v % 256];
    assert BigEndian(v / 256, 1) == BigEndian(v / 256 / 256, 0) + [v / 256 % 256];
  }

  lemma Written32(v: int)
    requires 0 <= v < 0x1_0000_0000
    ensures |BigEndian(v, 4)| == 4 && FourOctets(BigEndian(v, 4), 0) == v
  {
    var a := v / 256;
    var b := a / 256;
    var c := b / 256;
    assert BigEndian(v, 4) == BigEndian(a, 3) + [v % 256];
    assert BigEndian(a, 3) == BigEndian(b, 2) + [a % 256];
    assert BigEndian(b, 2) == BigEndian(c, 1) + [b % 256];
    assert BigEndian(c, 1) == BigEndian(c / 256, 0) + [c % 256];
    assert BigEndian(v, 4) == [c, b % 256, a % 256, v % 256];
  }

  lemma {:induction false} WrittenName(n: Name, rest: Octets)
    requires forall l :: l in n ==> 1 <= |l| <= 63
    ensures ReadName(NameWire(n) + rest) == Some((n, rest))
  {
    hide ReadName, NameWire;
    WireOfName(n);
    if n == [] {
      WrittenRoot(rest);
    } else {
      var parent, last := n[..|n| - 1], n[|n| - 1];
      WrittenName(parent, rest);
      WrittenLabel(last, NameWire(parent), rest);
      assert parent + [last] == n;
    }
  }

  lemma WireOfName(n: Name)
    ensures NameWire(n)
            == if n == [] then [0] else [|n[|n| - 1]|] + n[|n| - 1] + NameWire(n[..|n| - 1])
  {
  }

  lemma WrittenRoot(rest: Octets)
    ensures ReadName([0] + rest) == Some(([], rest))
  {
    assert ([0] + rest)[1..] == rest;
  }

  lemma WrittenLabel(l: Label, wire: Octets, rest: Octets)
    requires 1 <= |l| <= 63
    ensures ReadName([|l|] + l + wire + rest)
            == match ReadName(wire + rest)
               case None => None
               case Some((parent, more)) => Some((parent + [l], more))
  {
    var s := [|l|] + l + wire + rest;
    assert s[0] == |l| && s[1..1 + |l|] == l && s[1 + |l|..] == wire + rest;
  }

  lemma WrittenFields(t: Octets, c: Octets, l: Octets, k: Octets, data: Octets, rest: Octets)
    requires |t| == 2 && |c| == 2 && |l| == 4 && |k| == 2
    ensures var s := t + c + l + k + data + rest;
            && TwoOctets(s, 0) == TwoOctets(t, 0) && TwoOctets(s, 2) == TwoOctets(c, 0)
            && FourOctets(s, 4) == FourOctets(l, 0) && TwoOctets(s, 8) == TwoOctets(k, 0)
            && s[10..10 + |data|] == data && s[10 + |data|..] == rest
  {
    var s := t + c + l + k + data + rest;
    assert s[0] == t[0] && s[1] == t[1] && s[2] == c[0] && s[3] == c[1];
    assert s[4] == l[0] && s[5] == l[1] && s[6] == l[2] && s[7] == l[3];
    assert s[8] == k[0] && s[9] == k[1];
  }

  lemma WrittenForm(owner: Name, rtype: RType, ttl: int, data: Octets, rest: Octets)
    requires forall l :: l in owner ==> 1 <= |l| <= 63
    requires 0 <= rtype < 0x1_0000 && 0 <= ttl < 0x1_0000_0000 && |data| < 0x1_0000
    ensures ReadForms(rest).Some? ==>
              ReadForms(RecordForm(owner, rtype, ttl, data) + rest)
              == Some([Form(owner, rtype, 1, ttl, data)] + ReadForms(rest).value)
  {
    hide BigEndian, NameWire, ReadName, TwoOctets, FourOctets;
    Written16(rtype);
    Written16(CLASS_IN);
    Written32(ttl);
    Written16(|data|);
    var t, c, l, k := BigEndian(rtype, 2), BigEndian(CLASS_IN, 2), BigEndian(ttl, 4), BigEndian(|data|, 2);
    var tail := t + c + l + k + data + rest;
    var s := RecordForm(owner, rtype, ttl, data) + rest;
    assert s == NameWire(owner) + tail;
    WrittenName(owner, tail);
    WrittenFields(t, c, l, k, data, rest);
    assert ReadName(s) == Some((owner, tail)) && s != [];
  }

  /** What reading the forms of `datas` gives. */
  ghost predicate AreForms(forms: seq<Form>, owner: Name, rtype: RType, ttl: int, datas: seq<Octets>) {
    |forms| == |datas| && forall i :: 0 <= i < |datas| ==> forms[i] == Form(owner, rtype, 1, ttl, datas[i])
  }

  lemma {:induction false} WrittenForms(owner: Name, rtype: RType, ttl: int, datas: seq<Octets>, rest: Octets)
    returns (forms: seq<Form>)
    requires forall l :: l in owner ==> 1 <= |l| <= 63
    requires 0 <= rtype < 0x1_0000 && 0 <= ttl < 0x1_0000_0000
    requires RecordForms(owner, rtype, ttl, datas).Ok? && ReadForms(rest).Some?
    ensures AreForms(forms, owner, rtype, ttl, datas)
    ensures ReadForms(RecordForms(owner, rtype, ttl, datas).value + rest) == Some(forms + ReadForms(rest).value)
    decreases |datas|
  {
    hide RecordForm, ReadForms;
    var octets := RecordForms(owner, rtype, ttl, datas).value;
    if datas == [] {
      forms := [];
      assert octets + rest == rest && forms + ReadForms(rest).value == ReadForms(rest).value;
    } else {
      var front, last := datas[..|datas| - 1], datas[|datas| - 1];
      var written := RecordForm(owner, rtype, ttl, last);
      WrittenForm(owner, rtype, ttl, last, rest);
      var init := WrittenForms(owner, rtype, ttl, front, written + rest);
      var form := Form(owner, rtype, 1, ttl, last);
      forms := init + [form];
      assert init + ([form] + ReadForms(rest).value) == forms + ReadForms(rest).value;
      assert octets + rest == RecordForms(owner, rtype, ttl, front).value + (written + rest);
    }
  }

  lemma {:induction false} RecordFormsOkIff(owner: Name, rtype: RType, ttl: int, datas: seq<Octets>)
    ensures RecordForms(owner, rtype, ttl, datas).Ok? <==> forall d :: d in datas ==> |d| < 0x1_0000
  {
    hide RecordForm;
    if datas != [] {
      var front, last := datas[..|datas| - 1], datas[|datas| - 1];
      RecordFormsOkIff(owner, rtype, ttl, front);
      assert datas == front + [last];
    }
  }

  lemma SortedDatas(wires: seq<Octets>)
    ensures var s := SortDedup(OctetsLess, Self, wires);
            && (forall i, j :: 0 <= i < j < |s| ==> Ascends(s[i], s[j]))
            && (forall w :: w in s <==> w in wires)
  {
    hide OctetsLess, Ascends, SortDedup;
    OctetsOrder();
    SortDedupFacts(OctetsLess, Self, wires);
    var s := SortDedup(OctetsLess, Self, wires);
    forall i, j | 0 <= i < j < |s| ensures Ascends(s[i], s[j]) {
      assert OctetsLess(Self(s[i]), Self(s[j]));
      OctetsAscend(s[i], s[j]);
    }
    forall w | w in wires ensures w in s {
      assert HasKey(Self, s, Self(w));
    }
  }

  // ----- The theorems -----

  /** The owner under which the RRset was signed: one with more labels than the
      signature counts came from the wildcard below its labelled ancestor. */
  function CoveredOwner(name: Name, labels: int): Name {
    if 0 <= labels < |name| then name[..labels] + [[42]] else name
  }

  lemma OwnerIs(name: Name, labels: int)
    requires ValidName(name)
    ensures SignedOwner(name, labels).Ok? ==>
              SignedOwner(name, labels).value == CoveredOwner(name, labels)
    ensures SignedOwner(name, labels).Err? <==> 0 <= labels < |name| && WireLength(name[..labels]) + 2 > 255
    ensures forall l :: l in CoveredOwner(name, labels) ==> 1 <= |l| <= 63
  {
    forall l | l in CoveredOwner(name, labels) ensures 1 <= |l| <= 63 {
      assert l in name ==> ValidLabel(l);
      assert l in name || l == [42];
    }
  }

  /** The signed octets are the signature's own fields without the signature bits,
      followed by one record for each distinct RDATA in ascending order, each with
      the signed owner, the covered type, class IN and the original TTL. */
  lemma SignedOctetsAre(env: Env, rrset: seq<RR>, sig: Sig) returns (header: Octets, body: Octets, forms: seq<Form>)
    requires SignatureInput(env, rrset, sig).Ok? && ValidName(rrset[0].name)
    requires 0 <= rrset[0].rtype < 0x1_0000 && 0 <= sig.originalTtl < 0x1_0000_0000
    ensures SignatureInput(env, rrset, sig).value == header + body
    ensures env.wire(Rrsig(sig.(signature := []))) == Some(header)
    ensures ReadForms(body) == Some(forms)
    ensures forall f :: f in forms ==>
              && f.owner == CoveredOwner(rrset[0].name, sig.labels)
              && f.rtype == rrset[0].rtype == sig.typeCovered && f.rclass == 1 && f.ttl == sig.originalTtl
    ensures forall w :: (exists f :: f in forms && f.data == w)
                        <==> exists r :: r in rrset && env.wire(r.rdata) == Some(w)
    ensures forall i, j :: 0 <= i < j < |forms| ==> Ascends(forms[i].data, forms[j].data)
  {
    hide SignedOwner, RdataWires, RecordForms, SortDedup, CoveredOwner, Ascends, ReadForms;
    var first := rrset[0];
    var owner := SignedOwner(first.name, sig.labels).value;
    OwnerIs(first.name, sig.labels);
    header := env.wire(Rrsig(sig.(signature := []))).value;
    var wires := RdataWires(env, rrset, first, sig.typeCovered).value;
    RdataWiresElements(env, rrset, first, sig.typeCovered);
    assert first in rrset;
    var datas := SortDedup(OctetsLess, Self, wires);
    SortedDatas(wires);
    body := RecordForms(owner, first.rtype, sig.originalTtl, datas).value;
    assert ReadForms([]) == Some([]) by { NothingToRead(); }
    forms := WrittenForms(owner, first.rtype, sig.originalTtl, datas, []);
    assert body + [] == body && forms + [] == forms;
    forall w ensures (exists f :: f in forms && f.data == w) <==> w in datas {
      if w in datas {
        var i :| 0 <= i < |datas| && datas[i] == w;
        assert forms[i] in forms && forms[i].data == w;
      }
    }
  }

  lemma NothingToRead()
    ensures ReadForms([]) == Some([])
  {
  }

  /** Which RRsets can be signed at all. */
  lemma SignatureInputOkIff(env: Env, rrset: seq<RR>, sig: Sig)
    requires sig.labels >= 0 && (rrset != [] ==> ValidName(rrset[0].name))
    ensures SignatureInput(env, rrset, sig).Ok?
            <==> && rrset != [] && sig.labels <= |rrset[0].name|
                 && (sig.labels < |rrset[0].name| ==> WireLength(rrset[0].name[..sig.labels]) + 2 <= 255)
                 && env.wire(Rrsig(sig.(signature := []))).Some?
                 && forall r :: r in rrset ==>
                      && r.name == rrset[0].name && r.rtype == sig.typeCovered && r.rclass == 1
                      && r.ttl == rrset[0].ttl && env.wire(r.rdata).Some? && |env.wire(r.rdata).value| < 0x1_0000
  {
    hide SignedOwner, RdataWires, RecordForms, SortDedup, CoveredOwner, Ascends;
    if rrset != [] && sig.labels <= |rrset[0].name| && env.wire(Rrsig(sig.(signature := []))).Some? {
      var first := rrset[0];
      assert first in rrset;
      OwnerIs(first.name, sig.labels);
      var read := RdataWires(env, rrset, first, sig.typeCovered);
      if forall r :: r in rrset ==> Consistent(r, first, sig.typeCovered) && env.wire(r.rdata).Some? {
        RdataWiresOk(env, rrset, first, sig.typeCovered);
      }
      if read.Ok? {
        RdataWiresElements(env, rrset, first, sig.typeCovered);
        SortedDatas(read.value);
        if SignedOwner(first.name, sig.labels).Ok? {
          RecordFormsOkIff(SignedOwner(first.name, sig.labels).value, first.rtype, sig.originalTtl,
                           SortDedup(OctetsLess, Self, read.value));
        }
        forall r | r in rrset ensures env.wire(r.rdata).Some? && env.wire(r.rdata).value in read.value {
          assert env.wire(r.rdata) == Some(env.wire(r.rdata).value);
        }
      }
    }
  }

  /** A signature carries the set's own owner, type and TTL, counts the owner's
      labels without a leftmost asterisk, and is the key's over those octets. */
  lemma SignatureFields(env: Env, key: Key, rrset: seq<RR>, signer: Name, flags: int, now: int, validity: int)
    requires SignRrset(env, key, rrset, signer, flags, now, validity).Ok?
    ensures rrset != [] && 300 < validity < 0x7fff_ffff - 300
    ensures var r := SignRrset(env, key, rrset, signer, flags, now, validity).value;
            && r.rdata.Rrsig? && r.name == rrset[0].name && r.rclass == 1 && r.rtype == 46 && r.ttl == rrset[0].ttl
            && var sig, n := r.rdata.sig, rrset[0].name;
               && sig.typeCovered == rrset[0].rtype && sig.algorithm == 14 && sig.originalTtl == rrset[0].ttl
               && sig.labels == (if |n| > 0 && n[|n| - 1] == [42] then |n| - 1 else |n|)
               && sig.inception == (now - 300) % 0x1_0000_0000 && sig.expiration == (now + validity) % 0x1_0000_0000
               && env.keyTag(key, flags) == Some(sig.keyTag) && sig.signer == signer && |sig.signature| == 96
               && SignatureInput(env, rrset, sig).Ok?
               && env.sign(key, SignatureInput(env, rrset, sig).value) == Some(sig.signature)
  {
    hide RdataWires, RecordForms, SignedOwner, SortDedup;
  }
}

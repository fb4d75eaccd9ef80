/** RRset signatures: crates/adns-dnssec/src/sign.rs. */
module Signing {
  import opened Basics
  import opened Sorting
  import opened Names
  import opened Records

  const CIRCLE := 0x1_0000_0000
  const HALF := 0x8000_0000

  // ----- The signed octets (section 3.1.8.1 of RFC 4034) -----

  function NameWire(n: Name): Octets {
    if n == [] then [0]
    else [|n[|n| - 1]|] + n[|n| - 1] + NameWire(n[..|n| - 1])
  }

  function BigEndian(v: int, width: nat): Octets
    decreases width
  {
    if width == 0 then [] else BigEndian(v / 256, width - 1) + [v % 256]
  }

  /** The owner the signature covers: a name with more labels than the signature
      counts was expanded from the wildcard below its labelled ancestor. */
  function SignedOwner(name: Name, labels: int): Result<Name> {
    if 0 <= labels < |name| then
      match Wildcard(name[..labels])
      case Some(w) => Ok(w)
      case None => Err(Wire)
    else Ok(name)
  }

  predicate Consistent(rr: RR, first: RR, covered: RType) {
    && rr.name == first.name && rr.rtype == first.rtype && rr.rtype == covered
    && rr.rclass == first.rclass && rr.ttl == first.ttl && rr.rclass == CLASS_IN
  }

  /** The RDATA of every record, or the first failure. */
  function RdataWires(env: Env, rrset: seq<RR>, first: RR, covered: RType): Result<seq<Octets>> {
    if rrset == [] then Ok([])
    else
      var front :- RdataWires(env, rrset[..|rrset| - 1], first, covered);
      var rr := rrset[|rrset| - 1];
      if !Consistent(rr, first, covered) then Err(InvalidRrset)
      else match env.wire(rr.rdata)
        case None => Err(Wire)
        case Some(w) => Ok(front + [w])
  }

  function RecordForm(owner: Name, rtype: RType, ttl: int, data: Octets): Octets {
    NameWire(owner) + BigEndian(rtype, 2) + BigEndian(CLASS_IN, 2) + BigEndian(ttl, 4)
    + BigEndian(|data|, 2) + data
  }

  function RecordForms(owner: Name, rtype: RType, ttl: int, datas: seq<Octets>): Result<Octets> {
    if datas == [] then Ok([])
    else
      var front :- RecordForms(owner, rtype, ttl, datas[..|datas| - 1]);
      var data := datas[|datas| - 1];
      if |data| >= 65536 then Err(InvalidRrset)
      else Ok(front + RecordForm(owner, rtype, ttl, data))
  }

  /** `signature_input`. */
  function SignatureInput(env: Env, rrset: seq<RR>, sig: Sig): Result<Octets> {
    if rrset == [] || |rrset[0].name| < sig.labels then Err(InvalidRrset)
    else
      var owner :- SignedOwner(rrset[0].name, sig.labels);
      match env.wire(Rrsig(sig.(signature := [])))
      case None => Err(Wire)
      case Some(header) =>
        var wires :- RdataWires(env, rrset, rrset[0], sig.typeCovered);
        var body :- RecordForms(owner, rrset[0].rtype, sig.originalTtl, SortDedup(OctetsLess, Self, wires));
        Ok(header + body)
  }

  /** The owner is walked up to the counted labels and given the wildcard label. */
  method FindSignedOwner(name: Name, labels: int) returns (r: Result<Name>)
    requires 0 <= labels <= |name|
    ensures r == SignedOwner(name, labels)
  {
    var owner := name;
    if |owner| > labels {
      while |owner| > labels
        invariant labels <= |owner| <= |name|
        invariant owner == name[..|owner|]
      {
        owner := owner[..|owner| - 1];
      }
      match Wildcard(owner) {
        case None => return Err(Wire);
        case Some(w) => return Ok(w);
      }
    }
    return Ok(owner);
  }

  method CollectWires(env: Env, rrset: seq<RR>, first: RR, covered: RType) returns (r: Result<seq<Octets>>)
    ensures r == RdataWires(env, rrset, first, covered)
  {
    hide Consistent;
    var wires: seq<Octets> := [];
    for i := 0 to |rrset|
      invariant RdataWires(env, rrset[..i], first, covered) == Ok(wires)
    {
      assert rrset[..i + 1][..i] == rrset[..i];
      var data := env.wire(rrset[i].rdata);
      if !Consistent(rrset[i], first, covered) || data.None? {
        RdataWiresFailure(env, rrset, i + 1, first, covered);
        return Err(if Consistent(rrset[i], first, covered) then Wire else InvalidRrset);
      }
      wires := wires + [data.value];
    }
    assert rrset[..|rrset|] == rrset;
    return Ok(wires);
  }

  method AppendRecords(owner: Name, rtype: RType, ttl: int, wires: seq<Octets>) returns (r: Result<Octets>)
    ensures r == RecordForms(owner, rtype, ttl, wires)
  {
    hide RecordForm;
    var body: Octets := [];
    for i := 0 to |wires|
      invariant RecordForms(owner, rtype, ttl, wires[..i]) == Ok(body)
    {
      assert wires[..i + 1][..i] == wires[..i];
      if |wires[i]| >= 65536 {
        RecordFormsFailure(owner, rtype, ttl, wires, i + 1);
        return Err(InvalidRrset);
      }
      body := body + RecordForm(owner, rtype, ttl, wires[i]);
    }
    assert wires[..|wires|] == wires;
    return Ok(body);
  }

  /** `signature_input` as its loops run, against the function above. */
  method ComputeSignatureInput(env: Env, rrset: seq<RR>, sig: Sig) returns (r: Result<Octets>)
    requires sig.labels >= 0
    ensures r == SignatureInput(env, rrset, sig)
  {
    hide SignedOwner, RdataWires, RecordForms, SortDedup;
    if rrset == [] || |rrset[0].name| < sig.labels {
      return Err(InvalidRrset);
    }
    var owner :- FindSignedOwner(rrset[0].name, sig.labels);
    var header := env.wire(Rrsig(sig.(signature := [])));
    if header.None? {
      return Err(Wire);
    }
    var wires :- CollectWires(env, rrset, rrset[0], sig.typeCovered);
    var body :- AppendRecords(owner, rrset[0].rtype, sig.originalTtl, SortDedup(OctetsLess, Self, wires));
    return Ok(header.value + body);
  }

  lemma {:induction false} RdataWiresFailure(env: Env, rrset: seq<RR>, i: nat, first: RR, covered: RType)
    requires i <= |rrset| && RdataWires(env, rrset[..i], first, covered).Err?
    ensures RdataWires(env, rrset, first, covered) == RdataWires(env, rrset[..i], first, covered)
    decreases |rrset|
  {
    if i < |rrset| {
      var front := rrset[..|rrset| - 1];
      assert front[..i] == rrset[..i];
      RdataWiresFailure(env, front, i, first, covered);
    } else {
      assert rrset[..i] == rrset;
    }
  }

  lemma {:induction false} RecordFormsFailure(owner: Name, rtype: RType, ttl: int, datas: seq<Octets>, i: nat)
    requires i <= |datas| && RecordForms(owner, rtype, ttl, datas[..i]).Err?
    ensures RecordForms(owner, rtype, ttl, datas) == RecordForms(owner, rtype, ttl, datas[..i])
    decreases |datas|
  {
    if i < |datas| {
      var front := datas[..|datas| - 1];
      assert front[..i] == datas[..i];
      RecordFormsFailure(owner, rtype, ttl, front, i);
    } else {
      assert datas[..i] == datas;
    }
  }

  lemma {:induction false} RdataWiresElements(env: Env, rrset: seq<RR>, first: RR, covered: RType)
    requires RdataWires(env, rrset, first, covered).Ok?
    ensures forall r :: r in rrset ==> Consistent(r, first, covered) && env.wire(r.rdata).Some?
    ensures forall w :: w in RdataWires(env, rrset, first, covered).value
                        <==> exists r :: r in rrset && env.wire(r.rdata) == Some(w)
  {
    hide Consistent;
    if rrset != [] {
      var front, last := rrset[..|rrset| - 1], rrset[|rrset| - 1];
      RdataWiresElements(env, front, first, covered);
      assert rrset == front + [last];
      var wires, w := RdataWires(env, front, first, covered).value, env.wire(last.rdata).value;
      assert RdataWires(env, rrset, first, covered).value == wires + [w];
      forall x ensures x in wires + [w] <==> exists r :: r in rrset && env.wire(r.rdata) == Some(x) {
        if x in wires {
          var r :| r in front && env.wire(r.rdata) == Some(x);
          assert r in rrset;
        } else if x == w {
          assert last in rrset;
        }
      }
    }
  }

  lemma {:induction false} RdataWiresOk(env: Env, rrset: seq<RR>, first: RR, covered: RType)
    requires forall r :: r in rrset ==> Consistent(r, first, covered) && env.wire(r.rdata).Some?
    ensures RdataWires(env, rrset, first, covered).Ok?
  {
    if rrset != [] {
      RdataWiresOk(env, rrset[..|rrset| - 1], first, covered);
    }
  }

  /** Every record of `a` occurs in `b` once its owner is replaced. */
  ghost predicate OwnerReplaced(a: seq<RR>, b: seq<RR>, owner: Name) {
    forall r :: r in a ==> r.(name := owner) in b
  }

  /** Expanding a wildcard keeps the signed octets: any records equal to the
      stored ones but for one deeper owner, in any order and with any repeats,
      give the same signature input under the stored signature. */
  lemma WildcardExpansionKeepsInput(env: Env, encloser: Name, stored: seq<RR>, qname: Name, expanded: seq<RR>, sig: Sig)
    requires stored != [] && expanded != []
    requires forall r :: r in stored ==> r.name == encloser + [WILDCARD]
    requires forall r :: r in expanded ==> r.name == qname
    requires encloser < qname && sig.labels == |encloser|
    requires OwnerReplaced(stored, expanded, qname) && OwnerReplaced(expanded, stored, encloser + [WILDCARD])
    requires SignatureInput(env, stored, sig).Ok?
    ensures SignatureInput(env, expanded, sig) == SignatureInput(env, stored, sig)
  {
    var s, e, wildcard := stored[0], expanded[0], encloser + [WILDCARD];
    assert stored[0] in stored && expanded[0] in expanded;
    assert s.name[..sig.labels] == encloser && e.name[..sig.labels] == encloser;
    RdataWiresElements(env, stored, s, sig.typeCovered);
    assert e.(name := wildcard) in stored;
    forall r | r in expanded ensures Consistent(r, e, sig.typeCovered) && env.wire(r.rdata).Some? {
      assert r.(name := wildcard) in stored;
    }
    RdataWiresOk(env, expanded, e, sig.typeCovered);
    RdataWiresElements(env, expanded, e, sig.typeCovered);
    var ws := RdataWires(env, stored, s, sig.typeCovered).value;
    var we := RdataWires(env, expanded, e, sig.typeCovered).value;
    forall w ensures w in ws <==> w in we {
      if w in ws {
        var r :| r in stored && env.wire(r.rdata) == Some(w);
        assert r.(name := qname) in expanded;
        assert env.wire(r.(name := qname).rdata) == Some(w);
      }
      if w in we {
        var r :| r in expanded && env.wire(r.rdata) == Some(w);
        assert r.(name := wildcard) in stored;
        assert env.wire(r.(name := wildcard).rdata) == Some(w);
      }
    }
    OctetsOrder();
    SortDedupIgnoresOrderAndRepeats(OctetsLess, ws, we);
  }

  // ----- Making a signature -----

  /** `sign_rrset`. */
  function SignRrset(env: Env, key: Key, rrset: seq<RR>, signer: Name, flags: int, now: int,
          validity: int): Result<RR> {
    if validity <= 300 || validity >= 0x7fff_ffff - 300 then Err(InvalidValidity)
    else if rrset == [] then Err(InvalidRrset)
    else
      var first := rrset[0];
      match env.keyTag(key, flags)
      case None => Err(Wire)
      case Some(tag) =>
        var sig := Sig(first.rtype, ALGORITHM, CountedLabels(first.name), first.ttl,
                       (now + validity) % CIRCLE, (now - 300) % CIRCLE, tag, signer, []);
        var data :- SignatureInput(env, rrset, sig);
        match env.sign(key, data)
        case None => Err(Crypto)
        case Some(bits) =>
          if |bits| != 96 then Err(Crypto)
          else Ok(NewRecord(first.name, first.ttl, Rrsig(sig.(signature := bits))))
  }

  /** Labels of the owner, not counting a leftmost asterisk. */
  function CountedLabels(n: Name): int {
    if n != [] && n[|n| - 1] == WILDCARD then |n| - 1 else |n|
  }

  // ----- The validity window (32-bit serial time) -----

  /** The time test of `verify_rrset`. */
  predicate TimeAccepted(inception: int, expiration: int, now: int) {
    (now - inception) % CIRCLE < HALF && (expiration - now) % CIRCLE < HALF
  }

  /** A signature made at `t` is accepted at exactly the instants from five
      minutes before `t` to `t + validity`, on the 32-bit circle. */
  lemma WindowIsExact(t: int, validity: int, now: int)
    requires 300 < validity < 0x7fff_ffff - 300
    ensures TimeAccepted((t - 300) % CIRCLE, (t + validity) % CIRCLE, now)
            <==> (now - (t - 300)) % CIRCLE <= validity + 300
  {
    var w := validity + 300;
    var d := (now - (t - 300)) % CIRCLE;
    ModDifference(now, t - 300);
    ModDifferenceLeft(t + validity, now);
    assert (t + validity - now) % CIRCLE == (w - d) % CIRCLE by {
      var q := (now - (t - 300)) / CIRCLE;
      assert now - (t - 300) == q * CIRCLE + d;
      assert t + validity - now == w - d + (-q) * CIRCLE;
      ModAddMultiple(w - d, -q);
    }
  }

  lemma ModAddMultiple(x: int, q: int)
    ensures (x + q * CIRCLE) % CIRCLE == x % CIRCLE
  {
  }

  lemma ModDifference(x: int, y: int)
    ensures (x - y % CIRCLE) % CIRCLE == (x - y) % CIRCLE
  {
    assert y == (y / CIRCLE) * CIRCLE + y % CIRCLE;
    ModAddMultiple(x - y, y / CIRCLE);
  }

  lemma ModDifferenceLeft(x: int, y: int)
    ensures (x % CIRCLE - y) % CIRCLE == (x - y) % CIRCLE
  {
    assert x == (x / CIRCLE) * CIRCLE + x % CIRCLE;
    ModAddMultiple(x % CIRCLE - y, x / CIRCLE);
  }
}

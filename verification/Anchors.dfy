/** The anchor log of crates/adns-server/src/anchors.rs: rows and heads share
    one key space and are told apart by their encoded keys. */
module Anchors {
  import opened Basics
  import opened App
  import opened JsonText

  const MAX_ANCHORS := 65536

  datatype Anchor = Anchor(
    grantId: string, registration: string, zone: string, subject: string, sequence: nat, digest: string,
    anchoredAt: int)

  datatype Head = Head(sequence: nat, digest: string, anchoredAt: int, count: nat)

  datatype Row = AnchorRow(anchor: Anchor) | HeadRow(head: Head)

  type Table = map<string, Row>

  // ----- Keys -----

  predicate IdentifierChar(c: char) {
    'a' <= c <= 'z' || 'A' <= c <= 'Z' || '0' <= c <= '9' || c == '-' || c == '_' || c == ':' || c == '.'
  }

  /** `validate_identifier`. */
  predicate IsIdentifier(s: string) {
    0 < |s| <= 128 && forall i :: 0 <= i < |s| ==> IdentifierChar(s[i])
  }

  function Zeros(n: nat): string { if n == 0 then "" else "0" + Zeros(n - 1) }

  /** A number in at least twenty digits. */
  function Padded(n: nat): string {
    var d := Digits(n);
    (if |d| < 20 then Zeros(20 - |d|) else "") + d
  }

  function AnchorKey(registration: string, subject: string, sequence: nat): string {
    "anchor/" + registration + "/" + subject + "/" + Padded(sequence)
  }

  function HeadKey(registration: string, subject: string): string {
    "anchor-head/" + registration + "/" + subject
  }

  lemma {:induction false} ZerosPadNothing(k: nat, s: string)
    requires AllDigits(s)
    ensures AllDigits(Zeros(k) + s) && ValueOf(Zeros(k) + s, 0) == ValueOf(s, 0)
  {
    if k == 0 {
      assert Zeros(k) + s == s;
    } else {
      ZerosPadNothing(k - 1, s);
      var u := Zeros(k - 1) + s;
      assert Zeros(k) + s == "0" + u;
      LeadingZero(u);
    }
  }

  lemma LeadingZero(u: string)
    requires AllDigits(u)
    ensures AllDigits("0" + u) && ValueOf("0" + u, 0) == ValueOf(u, 0)
  {
    hide ValueOf;
    var t := "0" + u;
    assert t[1..] == u && t[0] == '0';
    ValueFromFront(t, 0);
  }

  lemma PaddedInjective(m: nat, n: nat)
    requires Padded(m) == Padded(n)
    ensures m == n
  {
    DigitsFacts(m);
    DigitsFacts(n);
    ZerosPadNothing(if |Digits(m)| < 20 then 20 - |Digits(m)| else 0, Digits(m));
    ZerosPadNothing(if |Digits(n)| < 20 then 20 - |Digits(n)| else 0, Digits(n));
  }

  ghost predicate NoSlash(s: string) { '/' !in s }

  lemma IdentifierNoSlash(s: string)
    requires IsIdentifier(s)
    ensures NoSlash(s)
  {
    assert !IdentifierChar('/');
  }

  /** The first slash separates. */
  lemma {:induction false} SplitAtSlash(a: string, b: string, x: string, y: string)
    requires NoSlash(a) && NoSlash(b) && a + "/" + x == b + "/" + y
    ensures a == b && x == y
  {
    var s, t := a + "/" + x, b + "/" + y;
    assert s[|a|] == '/' && t[|b|] == '/';
    assert forall i :: 0 <= i < |a| ==> s[i] == a[i] != '/';
    assert forall i :: 0 <= i < |b| ==> t[i] == b[i] != '/';
    assert a == s[..|a|] && b == t[..|b|] && x == s[|a| + 1..] && y == t[|b| + 1..];
  }

  lemma StripPrefix(p: string, a: string, b: string)
    requires p + a == p + b
    ensures a == b
  {
    assert (p + a)[|p|..] == a && (p + b)[|p|..] == b;
  }

  /** Different logs and different sequence numbers have different keys. */
  lemma AnchorKeyInjective(r: string, s: string, n: nat, r': string, s': string, n': nat)
    requires IsIdentifier(r) && IsIdentifier(s) && IsIdentifier(r') && IsIdentifier(s')
    requires AnchorKey(r, s, n) == AnchorKey(r', s', n')
    ensures r == r' && s == s' && n == n'
  {
    hide Padded, IsIdentifier;
    IdentifierNoSlash(r);
    IdentifierNoSlash(s);
    IdentifierNoSlash(r');
    IdentifierNoSlash(s');
    var x, y := s + "/" + Padded(n), s' + "/" + Padded(n');
    assert AnchorKey(r, s, n) == "anchor/" + (r + "/" + x);
    assert AnchorKey(r', s', n') == "anchor/" + (r' + "/" + y);
    StripPrefix("anchor/", r + "/" + x, r' + "/" + y);
    SplitAtSlash(r, r', x, y);
    SplitAtSlash(s, s', Padded(n), Padded(n'));
    PaddedInjective(n, n');
  }

  lemma HeadKeyInjective(r: string, s: string, r': string, s': string)
    requires IsIdentifier(r) && IsIdentifier(r') && HeadKey(r, s) == HeadKey(r', s')
    ensures r == r' && s == s'
  {
    hide IsIdentifier;
    IdentifierNoSlash(r);
    IdentifierNoSlash(r');
    assert HeadKey(r, s) == "anchor-head/" + (r + "/" + s);
    assert HeadKey(r', s') == "anchor-head/" + (r' + "/" + s');
    StripPrefix("anchor-head/", r + "/" + s, r' + "/" + s');
    SplitAtSlash(r, r', s, s');
  }

  lemma KeysApart(r: string, s: string, n: nat, r': string, s': string)
    ensures AnchorKey(r, s, n) != HeadKey(r', s')
  {
    assert AnchorKey(r, s, n)[6] == '/' && HeadKey(r', s')[6] == '-';
  }

  // ----- The operation -----

  datatype Proposal = Proposal(registration: string, subject: string, sequence: nat, digest: string)

  function AnchorAt(t: Table, key: string): Option<Anchor> {
    if key in t && t[key].AnchorRow? then Some(t[key].anchor) else None
  }

  function HeadAt(t: Table, key: string): Option<Head> {
    if key in t && t[key].HeadRow? then Some(t[key].head) else None
  }

  /** `anchor` for an active registration that owns the request: the table and the stored claims. */
  function Anchored(t: Table, p: Proposal, grantId: string, zone: string, now: int): Outcome<(Table, Anchor)> {
    var key, headKey := AnchorKey(p.registration, p.subject, p.sequence), HeadKey(p.registration, p.subject);
    match AnchorAt(t, key)
    case Some(existing) =>
      if existing.digest != p.digest then Refused(Conflict) else Done((t, existing))
    case None =>
      var head := HeadAt(t, headKey);
      if head.Some? && p.sequence <= head.value.sequence then Refused(Conflict)
      else if head.Some? && head.value.count >= MAX_ANCHORS then Refused(Limit)
      else
        var a := Anchor(grantId, p.registration, zone, p.subject, p.sequence, p.digest, now);
        var h := Head(p.sequence, p.digest, now, (if head.Some? then head.value.count else 0) + 1);
        Done((t[key := AnchorRow(a)][headKey := HeadRow(h)], a))
  }

  /** `read_anchor`. */
  function ReadAnchor(t: Table, registration: string, subject: string, sequence: Option<nat>): Outcome<Anchor> {
    if !IsIdentifier(registration) || !IsIdentifier(subject) then Refused(Invalid)
    else
      var head := HeadAt(t, HeadKey(registration, subject));
      if sequence.None? && head.None? then Refused(NotFound)
      else
        var n := if sequence.Some? then sequence.value else head.value.sequence;
        match AnchorAt(t, AnchorKey(registration, subject, n))
        case None => Refused(NotFound)
        case Some(a) => Done(a)
  }

  // ----- The invariant -----

  ghost predicate Stored(t: Table, r: string, s: string, n: nat) { AnchorKey(r, s, n) in t }

  ghost predicate IsAnchorKey(k: string, r: string, s: string) { exists n: nat :: k == AnchorKey(r, s, n) }

  /** The keys of one log. */
  ghost function LogKeys(t: Table, r: string, s: string): set<string> {
    set k | k in t && IsAnchorKey(k, r, s)
  }

  /** One log: rows under their own keys, and a head that names the greatest. */
  ghost predicate LogValid(t: Table, r: string, s: string) {
    var hk := HeadKey(r, s);
    && (forall n: nat :: Stored(t, r, s, n) ==>
          && t[AnchorKey(r, s, n)].AnchorRow?
          && t[AnchorKey(r, s, n)].anchor.sequence == n
          && hk in t)
    && (hk in t ==>
          && t[hk].HeadRow?
          && var h := t[hk].head;
             && Stored(t, r, s, h.sequence) && t[AnchorKey(r, s, h.sequence)].AnchorRow?
             && t[AnchorKey(r, s, h.sequence)].anchor.digest == h.digest
             && (forall n: nat :: Stored(t, r, s, n) ==> n <= h.sequence)
             && h.count == |LogKeys(t, r, s)|)
  }

  ghost predicate Valid(t: Table) {
    forall r, s :: IsIdentifier(r) && IsIdentifier(s) ==> LogValid(t, r, s)
  }

  lemma EmptyIsValid()
    ensures Valid(map[])
  {
  }

  /** An accepted anchor leaves other logs alone. */
  lemma OtherLogKept(t: Table, p: Proposal, grantId: string, zone: string, now: int, r: string, s: string)
    requires IsIdentifier(p.registration) && IsIdentifier(p.subject) && IsIdentifier(r) && IsIdentifier(s)
    requires Anchored(t, p, grantId, zone, now).Done? && LogValid(t, r, s) && (r != p.registration || s != p.subject)
    ensures LogValid(Anchored(t, p, grantId, zone, now).value.0, r, s)
  {
    hide AnchorKey, HeadKey, IsIdentifier, LogValid;
    var t' := Anchored(t, p, grantId, zone, now).value.0;
    forall n: nat ensures SameRow(t, t', AnchorKey(r, s, n)) {
      UntouchedKeys(p, r, s, n);
    }
    UntouchedKeys(p, r, s, 0);
    LogFrame(t, t', r, s);
  }

  ghost predicate SameRow(t: Table, t': Table, k: string) {
    (k in t' <==> k in t) && (k in t ==> t'[k] == t[k])
  }

  /** A log depends on its own rows only. */
  lemma LogFrame(t: Table, t': Table, r: string, s: string)
    requires LogValid(t, r, s) && SameRow(t, t', HeadKey(r, s)) && forall n: nat :: SameRow(t, t', AnchorKey(r, s, n))
    ensures LogValid(t', r, s)
  {
    hide AnchorKey, HeadKey;
    forall k | IsAnchorKey(k, r, s) ensures k in t <==> k in t' {
      var n: nat :| k == AnchorKey(r, s, n);
      assert SameRow(t, t', AnchorKey(r, s, n));
    }
    assert LogKeys(t', r, s) == LogKeys(t, r, s);
    forall n: nat | Stored(t', r, s, n) ensures Stored(t, r, s, n) && t'[AnchorKey(r, s, n)] == t[AnchorKey(r, s, n)] {
      assert SameRow(t, t', AnchorKey(r, s, n));
    }
    if HeadKey(r, s) in t {
      assert SameRow(t, t', AnchorKey(r, s, t[HeadKey(r, s)].head.sequence));
    }
  }

  /** The keys an anchor writes, seen from another log. */
  lemma UntouchedKeys(p: Proposal, r: string, s: string, n: nat)
    requires IsIdentifier(p.registration) && IsIdentifier(p.subject) && IsIdentifier(r) && IsIdentifier(s)
    requires r != p.registration || s != p.subject
    ensures AnchorKey(r, s, n) != AnchorKey(p.registration, p.subject, p.sequence)
    ensures AnchorKey(r, s, n) != HeadKey(p.registration, p.subject)
    ensures HeadKey(r, s) != AnchorKey(p.registration, p.subject, p.sequence)
    ensures HeadKey(r, s) != HeadKey(p.registration, p.subject)
  {
    hide AnchorKey, HeadKey, IsIdentifier;
    if AnchorKey(r, s, n) == AnchorKey(p.registration, p.subject, p.sequence) {
      AnchorKeyInjective(r, s, n, p.registration, p.subject, p.sequence);
    }
    if HeadKey(r, s) == HeadKey(p.registration, p.subject) {
      HeadKeyInjective(r, s, p.registration, p.subject);
    }
    KeysApart(r, s, n, p.registration, p.subject);
    KeysApart(p.registration, p.subject, p.sequence, r, s);
  }

  /** The log that grew. */
  lemma OwnLogGrows(t: Table, p: Proposal, grantId: string, zone: string, now: int)
    requires IsIdentifier(p.registration) && IsIdentifier(p.subject) && LogValid(t, p.registration, p.subject)
    requires Anchored(t, p, grantId, zone, now).Done?
    ensures LogValid(Anchored(t, p, grantId, zone, now).value.0, p.registration, p.subject)
  {
    hide AnchorKey, HeadKey, IsIdentifier;
    var r, s := p.registration, p.subject;
    var key, hk := AnchorKey(r, s, p.sequence), HeadKey(r, s);
    var t' := Anchored(t, p, grantId, zone, now).value.0;
    if AnchorAt(t, key).None? {
      assert key !in t;
      KeysApart(r, s, p.sequence, r, s);
      forall n: nat ensures AnchorKey(r, s, n) in t' <==> AnchorKey(r, s, n) in t || n == p.sequence {
        KeysApart(r, s, n, r, s);
        if AnchorKey(r, s, n) == key {
          AnchorKeyInjective(r, s, n, r, s, p.sequence);
        }
      }
      forall n: nat | AnchorKey(r, s, n) in t && n != p.sequence
        ensures t'[AnchorKey(r, s, n)] == t[AnchorKey(r, s, n)]
      {
        KeysApart(r, s, n, r, s);
        if AnchorKey(r, s, n) == key {
          AnchorKeyInjective(r, s, n, r, s, p.sequence);
        }
      }
      LogKeysGrow(t, t', r, s, p.sequence);
      if hk !in t {
        NoHeadNoKeys(t, r, s);
      } else {
        var h := t[hk].head;
        assert HeadAt(t, hk) == Some(h) && forall n: nat :: Stored(t, r, s, n) ==> n <= h.sequence;
      }
      assert t'[hk].head.sequence == p.sequence && t'[key].anchor.digest == t'[hk].head.digest;
      forall n: nat | Stored(t', r, s, n)
        ensures n <= p.sequence && t'[AnchorKey(r, s, n)].AnchorRow? && t'[AnchorKey(r, s, n)].anchor.sequence == n
      {
        if n != p.sequence {
          assert Stored(t, r, s, n) && t'[AnchorKey(r, s, n)] == t[AnchorKey(r, s, n)];
        }
      }
      assert Stored(t', r, s, p.sequence);
    }
  }

  lemma LogKeysGrow(t: Table, t': Table, r: string, s: string, m: nat)
    requires AnchorKey(r, s, m) !in t && AnchorKey(r, s, m) in t'
    requires forall n: nat ::
               AnchorKey(r, s, n) in t' <==> AnchorKey(r, s, n) in t || AnchorKey(r, s, n) == AnchorKey(r, s, m)
    ensures |LogKeys(t', r, s)| == |LogKeys(t, r, s)| + 1
  {
    hide AnchorKey;
    assert IsAnchorKey(AnchorKey(r, s, m), r, s);
    forall k ensures k in LogKeys(t', r, s) <==> k in LogKeys(t, r, s) || k == AnchorKey(r, s, m) {
      if IsAnchorKey(k, r, s) {
        var n: nat :| k == AnchorKey(r, s, n);
      }
    }
    assert LogKeys(t', r, s) == LogKeys(t, r, s) + {AnchorKey(r, s, m)};
  }

  lemma NoHeadNoKeys(t: Table, r: string, s: string)
    requires LogValid(t, r, s) && HeadKey(r, s) !in t
    ensures LogKeys(t, r, s) == {} && forall n: nat :: !Stored(t, r, s, n)
  {
    hide AnchorKey, HeadKey;
    forall n: nat ensures !Stored(t, r, s, n) {}
    forall k | IsAnchorKey(k, r, s) ensures k !in t {
      var n: nat :| k == AnchorKey(r, s, n);
      assert !Stored(t, r, s, n);
    }
  }

  // ----- Every run -----

  /** Every accepted anchor keeps every log valid. */
  lemma AnchorKeepsValid(t: Table, p: Proposal, grantId: string, zone: string, now: int)
    requires Valid(t) && IsIdentifier(p.registration) && IsIdentifier(p.subject)
    requires Anchored(t, p, grantId, zone, now).Done?
    ensures Valid(Anchored(t, p, grantId, zone, now).value.0)
  {
    hide Anchored, LogValid, IsIdentifier;
    var t' := Anchored(t, p, grantId, zone, now).value.0;
    forall r, s | IsIdentifier(r) && IsIdentifier(s) ensures LogValid(t', r, s) {
      if r == p.registration && s == p.subject {
        OwnLogGrows(t, p, grantId, zone, now);
      } else {
        OtherLogKept(t, p, grantId, zone, now, r, s);
      }
    }
  }

  /** An accepted anchor changes no stored anchor; a new one lies above all
      earlier ones of its log; the answer is what is stored under its number. */
  lemma AnchorAppends(t: Table, p: Proposal, grantId: string, zone: string, now: int)
    requires Valid(t) && IsIdentifier(p.registration) && IsIdentifier(p.subject)
    requires Anchored(t, p, grantId, zone, now).Done?
    ensures var r := Anchored(t, p, grantId, zone, now).value;
            && Kept(t, r.0)
            && (r.0 != t ==> forall n: nat :: Stored(t, p.registration, p.subject, n) ==> n < p.sequence)
            && AnchorAt(r.0, AnchorKey(p.registration, p.subject, p.sequence)) == Some(r.1) && r.1.digest == p.digest
            && (AnchorAt(t, AnchorKey(p.registration, p.subject, p.sequence)) == None ==>
                  r.1 == Anchor(grantId, p.registration, zone, p.subject, p.sequence, p.digest, now))
  {
    hide AnchorKey, HeadKey, IsIdentifier, LogKeys;
    var key, hk := AnchorKey(p.registration, p.subject, p.sequence), HeadKey(p.registration, p.subject);
    assert LogValid(t, p.registration, p.subject);
    KeysApart(p.registration, p.subject, p.sequence, p.registration, p.subject);
    forall r, s, n: nat | Stored(t, r, s, n) ensures AnchorKey(r, s, n) != hk {
      KeysApart(r, s, n, p.registration, p.subject);
    }
  }

  /** Every anchor of `t` is in `t'`, unchanged. */
  ghost predicate Kept(t: Table, t': Table) {
    forall r, s, n: nat :: Stored(t, r, s, n) && AnchorAt(t, AnchorKey(r, s, n)).Some? ==>
      AnchorAt(t', AnchorKey(r, s, n)) == AnchorAt(t, AnchorKey(r, s, n))
  }

  datatype Request = Request(proposal: Proposal, grantId: string, zone: string, now: int)

  /** Requests with malformed identifiers never reach the log. */
  function Step(t: Table, q: Request): Table {
    if !IsIdentifier(q.proposal.registration) || !IsIdentifier(q.proposal.subject) then t
    else match Anchored(t, q.proposal, q.grantId, q.zone, q.now)
      case Done(r) => r.0
      case Refused(_) => t
  }

  function After(t: Table, requests: seq<Request>): Table {
    if requests == [] then t else Step(After(t, requests[..|requests| - 1]), requests[|requests| - 1])
  }

  lemma StepFacts(t: Table, q: Request)
    requires Valid(t)
    ensures Valid(Step(t, q)) && Kept(t, Step(t, q))
  {
    hide Valid, Kept, Anchored, IsIdentifier;
    var p := q.proposal;
    if IsIdentifier(p.registration) && IsIdentifier(p.subject) && Anchored(t, p, q.grantId, q.zone, q.now).Done? {
      AnchorKeepsValid(t, p, q.grantId, q.zone, q.now);
      AnchorAppends(t, p, q.grantId, q.zone, q.now);
    } else {
      KeptSelf(t);
    }
  }

  lemma KeptSelf(t: Table)
    ensures Kept(t, t)
  {
  }

  lemma KeptTrans(a: Table, b: Table, c: Table)
    requires Kept(a, b) && Kept(b, c)
    ensures Kept(a, c)
  {
    hide AnchorKey;
    forall r, s, n: nat | Stored(a, r, s, n) && AnchorAt(a, AnchorKey(r, s, n)).Some?
      ensures AnchorAt(c, AnchorKey(r, s, n)) == AnchorAt(a, AnchorKey(r, s, n))
    {
      assert AnchorAt(b, AnchorKey(r, s, n)) == AnchorAt(a, AnchorKey(r, s, n));
      assert Stored(b, r, s, n);
    }
  }

  /** Over every run the logs stay valid and only grow: no stored anchor ever changes. */
  lemma {:induction false} LogsOnlyGrow(t: Table, requests: seq<Request>)
    requires Valid(t)
    ensures Valid(After(t, requests)) && Kept(t, After(t, requests))
  {
    hide Valid, Kept, Step;
    if requests == [] {
      KeptSelf(t);
    } else {
      var front := After(t, requests[..|requests| - 1]);
      LogsOnlyGrow(t, requests[..|requests| - 1]);
      StepFacts(front, requests[|requests| - 1]);
      KeptTrans(t, front, After(t, requests));
    }
  }

  /** In every reachable table a head read returns the anchor with the greatest
      number of its log, with the head's digest, or finds the log empty. */
  lemma HeadReadIsLatest(t: Table, r: string, s: string)
    requires Valid(t) && IsIdentifier(r) && IsIdentifier(s)
    ensures match ReadAnchor(t, r, s, None)
            case Done(a) =>
              && Stored(t, r, s, a.sequence) && (forall n: nat :: Stored(t, r, s, n) ==> n <= a.sequence)
              && HeadAt(t, HeadKey(r, s)).Some? && HeadAt(t, HeadKey(r, s)).value.digest == a.digest
              && HeadAt(t, HeadKey(r, s)).value.count == |LogKeys(t, r, s)|
            case Refused(e) => e == NotFound && forall n: nat :: !Stored(t, r, s, n)
  {
    hide AnchorKey, HeadKey, IsIdentifier, LogKeys;
    assert LogValid(t, r, s);
  }

  // ----- The store -----

  class AnchorStore {
    var lifecycle: Table

    constructor ()
      ensures Valid(lifecycle) && lifecycle == map[]
    {
      lifecycle := map[];
      new;
      EmptyIsValid();
    }

    /** `anchor`, once the registration is active and owned by the request. */
    method Store(p: Proposal, grantId: string, zone: string, now: int) returns (r: Outcome<Anchor>)
      requires Valid(lifecycle) && IsIdentifier(p.registration) && IsIdentifier(p.subject)
      modifies this
      ensures Valid(lifecycle) && Kept(old(lifecycle), lifecycle)
      ensures match Anchored(old(lifecycle), p, grantId, zone, now)
              case Done(d) => r == Done(d.1) && lifecycle == d.0
              case Refused(e) => r == Refused(e) && lifecycle == old(lifecycle)
    {
      hide Valid, Kept, IsIdentifier, AnchorKey, HeadKey;
      StepFacts(lifecycle, Request(p, grantId, zone, now));
      KeptSelf(lifecycle);
      var key := AnchorKey(p.registration, p.subject, p.sequence);
      var existing := AnchorAt(lifecycle, key);
      if existing.Some? {
        if existing.value.digest != p.digest {
          return Refused(Conflict);
        }
        return Done(existing.value);
      }
      var headKey := HeadKey(p.registration, p.subject);
      var head := HeadAt(lifecycle, headKey);
      if head.Some? {
        if p.sequence <= head.value.sequence {
          return Refused(Conflict);
        }
        if head.value.count >= MAX_ANCHORS {
          return Refused(Limit);
        }
      }
      var a := Anchor(grantId, p.registration, zone, p.subject, p.sequence, p.digest, now);
      lifecycle := lifecycle[key := AnchorRow(a)];
      var count := (if head.Some? then head.value.count else 0) + 1;
      lifecycle := lifecycle[headKey := HeadRow(Head(p.sequence, p.digest, now, count))];
      return Done(a);
    }
  }
}

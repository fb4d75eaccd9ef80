/** Canonical text stands for one meaning: injective up to property order, and
    read back by the strict parser. */
module JsonProofs {
  import opened Basics
  import opened Sorting
  import opened JsonText
  import FieldText
  import opened Json
  import opened JsonRoundTrip

  // ----- Fields as a set -----

  ghost predicate SameFields(a: seq<Field>, b: seq<Field>) { forall f :: f in a <==> f in b }

  lemma {:induction false} WellFormedByMember(fields: seq<Field>)
    ensures FieldsWellFormed(fields) <==> DistinctKeys(KeyOf, fields) && forall f :: f in fields ==> WellFormed(f.value)
  {
    if fields != [] {
      var head, tail := fields[0], fields[1..];
      WellFormedByMember(tail);
      assert fields == [head] + tail;
      if FieldsWellFormed(fields) {
        KeysDistinct(fields);
      }
      if DistinctKeys(KeyOf, fields) {
        forall i, j | 0 <= i < j < |tail| ensures KeyOf(tail[i]) != KeyOf(tail[j]) {
          assert KeyOf(fields[i + 1]) != KeyOf(fields[j + 1]);
        }
        forall i | 0 <= i < |tail| ensures tail[i].key != head.key {
          assert KeyOf(fields[0]) != KeyOf(fields[i + 1]);
        }
      }
    }
  }

  lemma {:induction false} SupportedByMember(fields: seq<Field>)
    ensures FieldsSupported(fields) <==> forall f :: f in fields ==> Supported(f.value)
  {
    if fields != [] {
      SupportedByMember(fields[1..]);
      assert fields == [fields[0]] + fields[1..];
    }
  }

  lemma {:induction false} DepthByMember(fields: seq<Field>, d: nat)
    ensures FieldsDepth(fields) <= d <==> forall f :: f in fields ==> Depth(f.value) <= d
  {
    if fields != [] {
      DepthByMember(fields[1..], d);
      assert fields == [fields[0]] + fields[1..];
    }
  }

  lemma {:induction false} MeaningByMember(fields: seq<Field>)
    requires DistinctKeys(KeyOf, fields)
    ensures var m := FieldMeanings(fields);
            && (forall k :: k in m <==> HasField(fields, k))
            && (forall f :: f in fields ==> f.key in m && m[f.key] == Meaning(f.value))
  {
    if fields != [] {
      hide Meaning, HasField, DistinctKeys;
      var head, tail := fields[0], fields[1..];
      assert fields == [head] + tail;
      TailKeys(fields);
      MeaningByMember(tail);
      forall k ensures HasField(fields, k) <==> k == head.key || HasField(tail, k) {
        HasFieldStep(fields, k);
      }
    }
  }

  lemma TailKeys(fields: seq<Field>)
    requires fields != [] && DistinctKeys(KeyOf, fields)
    ensures DistinctKeys(KeyOf, fields[1..]) && forall f :: f in fields[1..] ==> f.key != fields[0].key
  {
    var tail := fields[1..];
    forall i, j | 0 <= i < j < |tail| ensures KeyOf(tail[i]) != KeyOf(tail[j]) {
      assert KeyOf(fields[i + 1]) != KeyOf(fields[j + 1]);
    }
    forall i | 0 <= i < |tail| ensures tail[i].key != fields[0].key {
      assert KeyOf(fields[0]) != KeyOf(fields[i + 1]);
    }
  }

  lemma HasFieldStep(fields: seq<Field>, k: string)
    requires fields != []
    ensures HasField(fields, k) <==> k == fields[0].key || HasField(fields[1..], k)
  {
    var tail := fields[1..];
    if HasField(tail, k) {
      var i :| 0 <= i < |tail| && tail[i].key == k;
      assert fields[i + 1].key == k;
    }
    if HasField(fields, k) && k != fields[0].key {
      var i :| 0 <= i < |fields| && fields[i].key == k;
      assert tail[i - 1].key == k;
    }
  }

  lemma FieldExists(fields: seq<Field>, k: string) returns (f: Field)
    requires HasField(fields, k)
    ensures f in fields && f.key == k
  {
    var i :| 0 <= i < |fields| && fields[i].key == k;
    f := fields[i];
  }

  lemma HasFieldSame(a: seq<Field>, b: seq<Field>, k: string)
    requires SameFields(a, b) && HasField(a, k)
    ensures HasField(b, k)
  {
    var f := FieldExists(a, k);
    assert f in b;
  }

  lemma SameFieldsSameMeaning(a: seq<Field>, b: seq<Field>)
    requires DistinctKeys(KeyOf, a) && DistinctKeys(KeyOf, b) && SameFields(a, b)
    ensures FieldMeanings(a) == FieldMeanings(b)
  {
    hide FieldMeanings, HasField;
    MeaningByMember(a);
    MeaningByMember(b);
    var m, n := FieldMeanings(a), FieldMeanings(b);
    forall k ensures k in m <==> k in n {
      if k in m { HasFieldSame(a, b, k); }
      if k in n { HasFieldSame(b, a, k); }
    }
    forall k | k in m ensures m[k] == n[k] {
      var f := FieldExists(a, k);
      assert f in b;
    }
  }

  lemma StrictKeysDistinct(fields: seq<Field>)
    requires StrictlyAscending(KeyLess, KeyOf, fields)
    ensures DistinctKeys(KeyOf, fields)
  {
    KeyOrder();
  }

  /** Sorting the properties changes none of the things that matter. */
  lemma SortedFieldsFacts(fields: seq<Field>)
    requires FieldsWellFormed(fields)
    ensures var t := SortBy(KeyLess, KeyOf, fields);
            && StrictlyAscending(KeyLess, KeyOf, t) && SameFields(t, fields)
            && FieldsWellFormed(t) && FieldsSupported(t) == FieldsSupported(fields)
            && FieldsDepth(t) == FieldsDepth(fields) && FieldMeanings(t) == FieldMeanings(fields)
  {
    hide SortBy, FieldMeanings, FieldsDepth, FieldsSupported, FieldsWellFormed, KeyLess;
    KeysDistinct(fields);
    KeyOrder();
    SortStrict(KeyLess, KeyOf, fields);
    var t := SortBy(KeyLess, KeyOf, fields);
    StrictKeysDistinct(t);
    WellFormedByMember(fields);
    WellFormedByMember(t);
    SupportedByMember(fields);
    SupportedByMember(t);
    DepthByMember(fields, FieldsDepth(t));
    DepthByMember(t, FieldsDepth(t));
    DepthByMember(fields, FieldsDepth(fields));
    DepthByMember(t, FieldsDepth(fields));
    SameFieldsSameMeaning(t, fields);
  }

  // ----- The normal form -----

  ghost predicate Alike(v: Value, w: Value) {
    WellFormed(w) && Supported(w) == Supported(v) && Depth(w) == Depth(v) && Meaning(w) == Meaning(v)
  }

  lemma {:induction false} NormalIsAlike(v: Value)
    requires WellFormed(v)
    ensures Alike(v, Normal(v))
    decreases v
  {
    hide NormalItems, NormalFields, SortBy;
    match v
    case Array(items) => NormalItemsAlike(items);
    case Object(fields) =>
      NormalFieldsAlike(fields);
      SortedFieldsFacts(NormalFields(fields));
    case _ =>
  }

  lemma {:induction false} NormalItemsAlike(items: seq<Value>)
    requires ItemsWellFormed(items)
    ensures var t := NormalItems(items);
            && ItemsWellFormed(t) && ItemsSupported(t) == ItemsSupported(items)
            && ItemsDepth(t) == ItemsDepth(items) && ItemMeanings(t) == ItemMeanings(items)
    decreases items
  {
    if items != [] {
      NormalIsAlike(items[0]);
      NormalItemsAlike(items[1..]);
      assert NormalItems(items)[1..] == NormalItems(items[1..]);
    }
  }

  lemma {:induction false} NormalFieldsAlike(fields: seq<Field>)
    requires FieldsWellFormed(fields)
    ensures var t := NormalFields(fields);
            && FieldsWellFormed(t) && FieldsSupported(t) == FieldsSupported(fields)
            && FieldsDepth(t) == FieldsDepth(fields) && FieldMeanings(t) == FieldMeanings(fields)
    decreases fields
  {
    if fields != [] {
      NormalIsAlike(fields[0].value);
      NormalFieldsAlike(fields[1..]);
      var t := NormalFields(fields);
      assert t[1..] == NormalFields(fields[1..]);
      assert forall i :: 0 <= i < |t[1..]| ==> t[1..][i].key == fields[1..][i].key;
    }
  }

  /** A normalized field comes from a field with the same key. */
  lemma {:induction false} NormalFieldsMembers(fields: seq<Field>, g: Field)
    ensures g in NormalFields(fields) <==> exists f :: f in fields && g == Field(f.key, Normal(f.value))
  {
    hide SortBy, NormalItems;
    if fields != [] {
      var first, rest := fields[0], fields[1..];
      NormalFieldsMembers(rest, g);
      assert NormalFields(fields) == [Field(first.key, Normal(first.value))] + NormalFields(rest);
      assert forall f :: f in fields <==> f == first || f in rest;
    }
  }

  /** Values with one meaning have one normal form. */
  lemma {:induction false} OneNormalForm(v: Value, w: Value)
    requires WellFormed(v) && WellFormed(w) && Meaning(v) == Meaning(w)
    ensures Normal(v) == Normal(w)
    decreases v
  {
    hide NormalFields, NormalItems, SortBy, FieldMeanings;
    match v
    case Array(items) => OneNormalItems(items, w.items);
    case Object(fields) => OneNormalFields(fields, w.fields);
    case _ =>
  }

  lemma {:induction false} OneNormalItems(items: seq<Value>, others: seq<Value>)
    requires ItemsWellFormed(items) && ItemsWellFormed(others) && ItemMeanings(items) == ItemMeanings(others)
    ensures NormalItems(items) == NormalItems(others)
    decreases items
  {
    if items != [] {
      var m, n := ItemMeanings(items), ItemMeanings(others);
      assert m[0] == Meaning(items[0]) && n[0] == Meaning(others[0]);
      assert m[1..] == ItemMeanings(items[1..]) && n[1..] == ItemMeanings(others[1..]);
      OneNormalForm(items[0], others[0]);
      OneNormalItems(items[1..], others[1..]);
    }
  }

  lemma {:induction false} OneNormalFields(fields: seq<Field>, others: seq<Field>)
    requires FieldsWellFormed(fields) && FieldsWellFormed(others) && FieldMeanings(fields) == FieldMeanings(others)
    ensures SortBy(KeyLess, KeyOf, NormalFields(fields)) == SortBy(KeyLess, KeyOf, NormalFields(others))
    decreases fields
  {
    hide SortBy, NormalFields, FieldMeanings, KeyLess, FieldsWellFormed, Normal, Meaning, HasField;
    KeysDistinct(fields);
    KeysDistinct(others);
    MeaningByMember(fields);
    MeaningByMember(others);
    WellFormedByMember(fields);
    WellFormedByMember(others);
    var m := FieldMeanings(fields);
    forall f | f in fields ensures Field(f.key, Normal(f.value)) in NormalFields(others) {
      var g := FieldExists(others, f.key);
      OneNormalForm(f.value, g.value);
      NormalFieldsMembers(others, Field(f.key, Normal(f.value)));
    }
    forall g | g in others ensures Field(g.key, Normal(g.value)) in NormalFields(fields) {
      var f := FieldExists(fields, g.key);
      OneNormalForm(f.value, g.value);
      NormalFieldsMembers(fields, Field(g.key, Normal(g.value)));
    }
    forall x ensures x in NormalFields(fields) <==> x in NormalFields(others) {
      NormalFieldsMembers(fields, x);
      NormalFieldsMembers(others, x);
    }
    NormalFieldsAlike(fields);
    NormalFieldsAlike(others);
    SortedFieldsFacts(NormalFields(fields));
    SortedFieldsFacts(NormalFields(others));
    KeyOrder();
    StrictUnique(KeyLess, KeyOf, SortBy(KeyLess, KeyOf, NormalFields(fields)),
                 SortBy(KeyLess, KeyOf, NormalFields(others)));
  }

  // ----- The main results -----

  /** Strict parsing of canonical text returns the same value, its properties in
      canonical order, exactly when the text fits the byte limit and the value
      the nesting limit. */
  lemma CanonicalParsesBack(v: Value)
    requires WellFormed(v) && Supported(v)
    ensures Canonical(v).Some? && Meaning(Normal(v)) == Meaning(v)
    ensures Parse(Canonical(v).value)
            == if Utf8Length(Canonical(v).value) <= MAX_REQUEST_BYTES && Depth(v) <= MAX_DEPTH
               then Some(Normal(v)) else None
  {
    hide Text, Normal, ReadValue, Depth, Meaning;
    NormalIsAlike(v);
    var n := Normal(v);
    ValueReadsBack(n, "", MAX_DEPTH);
    assert Text(n) + "" == Text(n);
  }

  /** Canonical texts are equal exactly when the values are equal up to the order of properties. */
  lemma CanonicalIsInjective(v: Value, w: Value)
    requires WellFormed(v) && WellFormed(w) && Supported(v) && Supported(w)
    ensures Canonical(v) == Canonical(w) <==> Meaning(v) == Meaning(w)
  {
    hide Text, Normal, ReadValue, Depth, Meaning;
    NormalIsAlike(v);
    NormalIsAlike(w);
    if Meaning(v) == Meaning(w) {
      OneNormalForm(v, w);
    }
    if Canonical(v) == Canonical(w) {
      var d := Greater(Depth(v), Depth(w));
      ValueReadsBack(Normal(v), "", d);
      ValueReadsBack(Normal(w), "", d);
    }
  }

  // ----- What the parser returns -----

  ghost predicate Sound(v: Value, depth: nat) { WellFormed(v) && Supported(v) && Depth(v) <= depth }

  lemma {:induction false} ReadIsSound(s: string, depth: nat)
    requires ReadValue(s, depth).Some?
    ensures Sound(ReadValue(s, depth).value.0, depth)
    decreases |s|, 2
  {
    hide ReadItems, ReadFields, ReadString, ReadNumber;
    var t := SkipSpace(s);
    if t[0] == '[' {
      ReadItemsIsSound(t[1..], depth - 1, true);
    } else if t[0] == '{' {
      ReadFieldsIsSound(t[1..], depth - 1, true);
      var fields := ReadFields(t[1..], depth - 1, true).value.0;
      assert DistinctKeys(KeyOf, fields);
      FieldsSound(fields, depth - 1);
    } else if ReadNumber(t).Some? {
      NumberIsSafe(t);
    }
  }

  lemma NumberIsSafe(t: string)
    requires ReadNumber(t).Some?
    ensures ReadNumber(t).value.0 <= MAX_SAFE_INTEGER
  {
  }

  lemma FieldsSound(fields: seq<Field>, depth: nat)
    requires DistinctKeys(KeyOf, fields) && forall f :: f in fields ==> Sound(f.value, depth)
    ensures FieldsWellFormed(fields) && FieldsSupported(fields) && FieldsDepth(fields) <= depth
  {
    WellFormedByMember(fields);
    SupportedByMember(fields);
    DepthByMember(fields, depth);
  }

  lemma {:induction false} ReadItemsIsSound(s: string, depth: nat, first: bool)
    requires ReadItems(s, depth, first).Some?
    ensures var items := ReadItems(s, depth, first).value.0;
            ItemsWellFormed(items) && ItemsSupported(items) && ItemsDepth(items) <= depth
    decreases |s|, 4
  {
    hide ReadValue;
    var t := SkipSpace(s);
    if t[0] != ']' {
      var u := if first then t else SkipSpace(t[1..]);
      var v := ReadValue(u, depth).value;
      ReadIsSound(u, depth);
      ReadItemsIsSound(v.1, depth, false);
      var rest := ReadItems(v.1, depth, false).value.0;
      assert ([v.0] + rest)[1..] == rest;
    }
  }

  lemma {:induction false} ReadFieldsIsSound(s: string, depth: nat, first: bool)
    requires ReadFields(s, depth, first).Some?
    ensures forall f :: f in ReadFields(s, depth, first).value.0 ==> Sound(f.value, depth)
    decreases |s|, 4
  {
    hide ReadValue, ReadString, Sound;
    var t := SkipSpace(s);
    if t[0] != '}' {
      var u := if first then t else SkipSpace(t[1..]);
      var after := SkipSpace(ReadString(u[1..]).value.1);
      var v := ReadValue(after[1..], depth).value;
      ReadIsSound(after[1..], depth);
      ReadFieldsIsSound(v.1, depth, false);
    }
  }

  /** What strict parsing accepts is well formed and has canonical text. */
  lemma ParsedIsCanonicalizable(s: string)
    requires Parse(s).Some?
    ensures var v := Parse(s).value; WellFormed(v) && Supported(v) && Depth(v) <= MAX_DEPTH && Canonical(v).Some?
  {
    hide ReadValue, Depth, WellFormed, Supported;
    ReadIsSound(s, MAX_DEPTH);
  }

  // ----- Signed messages -----

  function MessageValue(action: Value, nonce: string, expires: int, intent: string): Value {
    Object([Field("action", action), Field("nonce", Str(nonce)), Field("nonce_expires_at", Number(expires)),
            Field("intent_hash", Str(intent))])
  }

  /** `signed_message`; `actionOk` is the validation of the action's fields. */
  function SignedMessage(actionOk: Value -> bool, action: Value, nonce: string, expires: nat,
          intent: string): Option<string> {
    if !actionOk(action) || !FieldText.IsHexDigest(nonce) || !FieldText.IsHexDigest(intent) then None
    else if expires > MAX_SAFE_INTEGER then None
    else Canonical(MessageValue(action, nonce, expires, intent))
  }

  ghost predicate FourKeys(a: string, b: string, c: string, d: string) {
    a != b && a != c && a != d && b != c && b != d && c != d
  }

  lemma FourFields(a: Field, b: Field, c: Field, d: Field)
    requires FourKeys(a.key, b.key, c.key, d.key)
    requires WellFormed(a.value) && WellFormed(b.value) && WellFormed(c.value) && WellFormed(d.value)
    ensures var f := [a, b, c, d];
            && FieldsWellFormed(f)
            && (FieldsSupported(f)
                <==> Supported(a.value) && Supported(b.value) && Supported(c.value) && Supported(d.value))
            && FieldMeanings(f) == map[a.key := Meaning(a.value), b.key := Meaning(b.value), c.key := Meaning(c.value),
                                       d.key := Meaning(d.value)]
  {
    hide WellFormed, Supported, Meaning;
    var f := [a, b, c, d];
    assert DistinctKeys(KeyOf, f);
    WellFormedByMember(f);
    SupportedByMember(f);
    assert f[0] in f && f[1] in f && f[2] in f && f[3] in f;
    assert f[1..] == [b, c, d] && [b, c, d][1..] == [c, d] && [c, d][1..] == [d] && [d][1..] == [];
    FieldMeaningsStep([d]);
    FieldMeaningsStep([c, d]);
    FieldMeaningsStep([b, c, d]);
    FieldMeaningsStep(f);
  }

  lemma FieldMeaningsStep(f: seq<Field>)
    requires f != []
    ensures FieldMeanings(f) == FieldMeanings(f[1..])[f[0].key := Meaning(f[0].value)]
  {
  }

  lemma MessageKeys()
    ensures FourKeys("action", "nonce", "nonce_expires_at", "intent_hash")
  {
    assert |"action"| == 6 && |"nonce"| == 5 && |"nonce_expires_at"| == 16 && |"intent_hash"| == 11;
  }

  lemma MessageFacts(action: Value, nonce: string, expires: nat, intent: string)
    requires WellFormed(action) && expires <= MAX_SAFE_INTEGER
    ensures var v := MessageValue(action, nonce, expires, intent);
            && WellFormed(v) && Supported(v) == Supported(action)
            && Meaning(v) == TreeObject(map["action" := Meaning(action), "nonce" := TreeStr(nonce),
                                            "nonce_expires_at" := TreeNumber(expires),
                                            "intent_hash" := TreeStr(intent)])
  {
    hide FourKeys, FieldMeanings, FieldsWellFormed, FieldsSupported;
    MessageKeys();
    FourFields(Field("action", action), Field("nonce", Str(nonce)), Field("nonce_expires_at", Number(expires)),
               Field("intent_hash", Str(intent)));
  }

  /** Equal signed messages carry the same action, nonce, expiry and intent. */
  lemma SignedMessageBindsEverything(
    actionOk: Value -> bool,
    action: Value, nonce: string, expires: nat, intent: string,
    action': Value, nonce': string, expires': nat, intent': string)
    requires WellFormed(action) && WellFormed(action')
    requires SignedMessage(actionOk, action, nonce, expires, intent).Some?
    requires SignedMessage(actionOk, action, nonce, expires, intent)
             == SignedMessage(actionOk, action', nonce', expires', intent')
    ensures Meaning(action) == Meaning(action') && nonce == nonce' && expires == expires' && intent == intent'
  {
    hide Canonical, Supported, WellFormed, Meaning, MessageValue, FieldText.IsHexDigest, FourKeys;
    MessageKeys();
    MessageFacts(action, nonce, expires, intent);
    MessageFacts(action', nonce', expires', intent');
    var v, w := MessageValue(action, nonce, expires, intent), MessageValue(action', nonce', expires', intent');
    HasCanonical(v);
    HasCanonical(w);
    CanonicalIsInjective(v, w);
    var m, n := Meaning(v).fields, Meaning(w).fields;
    assert m["action"] == n["action"] && m["nonce"] == n["nonce"];
    assert m["nonce_expires_at"] == n["nonce_expires_at"] && m["intent_hash"] == n["intent_hash"];
  }

  lemma HasCanonical(v: Value)
    ensures Canonical(v).Some? <==> Supported(v)
  {
  }
}

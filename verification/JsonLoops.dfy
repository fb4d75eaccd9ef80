/** `canonical_json` as it runs: a recursive writer that appends to a growing buffer. */
module JsonLoops {
  import opened Basics
  import opened Sorting
  import opened JsonText
  import opened Json
  import opened JsonProofs

  lemma {:induction false} InsertNormal(s: seq<Field>, x: Field)
    ensures NormalFields(Insert(KeyLess, KeyOf, s, x))
            == Insert(KeyLess, KeyOf, NormalFields(s), Field(x.key, Normal(x.value)))
  {
    hide KeyLess, Normal;
    var t, y := NormalFields(s), Field(x.key, Normal(x.value));
    if s == [] || KeyLess(x.key, s[0].key) {
      assert ([x] + s)[1..] == s;
    } else {
      InsertNormal(s[1..], x);
      assert t[1..] == NormalFields(s[1..]);
      var r := Insert(KeyLess, KeyOf, s[1..], x);
      assert ([s[0]] + r)[1..] == r;
    }
  }

  lemma NormalFieldsAppend(s: seq<Field>, x: Field)
    ensures NormalFields(s + [x]) == NormalFields(s) + [Field(x.key, Normal(x.value))]
  {
    hide Normal;
    if s == [] {
      assert s + [x] == [x];
    } else {
      assert (s + [x])[1..] == s[1..] + [x];
      NormalFieldsAppend(s[1..], x);
    }
  }

  /** Sorting the keys first and writing the values after is sorting normal fields. */
  lemma {:induction false} SortNormal(s: seq<Field>)
    ensures NormalFields(SortBy(KeyLess, KeyOf, s)) == SortBy(KeyLess, KeyOf, NormalFields(s))
  {
    hide KeyLess, Normal, NormalFields;
    if s == [] {
      NoFields();
    } else {
      var front, last := s[..|s| - 1], s[|s| - 1];
      SortNormal(front);
      InsertNormal(SortBy(KeyLess, KeyOf, front), last);
      NormalFieldsAppend(front, last);
      assert s == front + [last];
      var t := NormalFields(s);
      assert t[..|t| - 1] == NormalFields(front);
    }
  }

  lemma NoFields()
    ensures NormalFields([]) == []
  {
  }

  lemma {:induction false} ItemsTextAppend(items: seq<Value>, v: Value, first: bool)
    ensures ItemsText(items + [v], first) == ItemsText(items, first) + Comma(first && items == []) + Text(v)
  {
    hide Text;
    if items == [] {
      assert items + [v] == [v] && [v][1..] == [];
    } else {
      assert (items + [v])[1..] == items[1..] + [v];
      ItemsTextAppend(items[1..], v, false);
    }
  }

  lemma {:induction false} FieldsTextAppend(fields: seq<Field>, f: Field, first: bool)
    ensures FieldsText(fields + [f], first)
            == FieldsText(fields, first) + Comma(first && fields == []) + Quoted(f.key) + ":" + Text(f.value)
  {
    hide Text, Quoted;
    if fields == [] {
      assert fields + [f] == [f] && [f][1..] == [];
    } else {
      var tail := fields[1..];
      assert (fields + [f])[1..] == tail + [f];
      FieldsTextAppend(tail, f, false);
      var head := Comma(first) + Quoted(fields[0].key) + ":" + Text(fields[0].value);
      Regroup(head, FieldsText(tail, false), Comma(false), Quoted(f.key), Text(f.value));
    }
  }

  lemma Regroup(head: string, a: string, b: string, c: string, d: string)
    ensures head + (a + b + c + ":" + d) == (head + a) + b + c + ":" + d
  {
  }

  lemma NormalItemsAppend(items: seq<Value>, v: Value)
    ensures NormalItems(items + [v]) == NormalItems(items) + [Normal(v)]
  {
    hide Normal;
    if items == [] {
      assert items + [v] == [v];
    } else {
      assert (items + [v])[1..] == items[1..] + [v];
      NormalItemsAppend(items[1..], v);
    }
  }

  lemma {:induction false} ItemsSupportedByIndex(items: seq<Value>)
    ensures ItemsSupported(items) <==> forall i :: 0 <= i < |items| ==> Supported(items[i])
  {
    if items != [] {
      ItemsSupportedByIndex(items[1..]);
      assert forall i :: 0 < i < |items| ==> items[i] == items[1..][i - 1];
      assert forall i :: 0 <= i < |items| - 1 ==> items[1..][i] == items[i + 1];
    }
  }

  /** Appends the canonical text of a value, or gives up on an unsupported number. */
  method Append(v: Value, buffer: string) returns (r: Option<string>)
    ensures r == match Canonical(v) case None => None case Some(text) => Some(buffer + text)
    decreases v, 1
  {
    match v {
      case Null => r := Some(buffer + "null");
      case Bool(b) => r := Some(buffer + if b then "true" else "false");
      case Number(n) =>
        if n < 0 || n > MAX_SAFE_INTEGER {
          return None;
        }
        r := Some(buffer + Digits(n));
      case OtherNumber => r := None;
      case Str(s) => r := Some(buffer + Quoted(s));
      case Array(items) => r := AppendItems(v, buffer);
      case Object(fields) => r := AppendFields(v, buffer);
    }
  }

  method AppendItems(v: Value, buffer: string) returns (r: Option<string>)
    requires v.Array?
    ensures r == match Canonical(v) case None => None case Some(text) => Some(buffer + text)
    decreases v, 0
  {
    hide Text, Normal, Supported, ItemsText, NormalItems, ItemsSupported;
    var items := v.items;
    ItemsSupportedByIndex(items);
    ArrayIs(items);
    var out := buffer + "[";
    NoItems();
    for i := 0 to |items|
      invariant forall j :: 0 <= j < i ==> Supported(items[j])
      invariant out == buffer + "[" + ItemsText(NormalItems(items[..i]), true)
    {
      assert items[..i + 1] == items[..i] + [items[i]];
      NormalItemsAppend(items[..i], items[i]);
      ItemsTextAppend(NormalItems(items[..i]), Normal(items[i]), true);
      if i != 0 {
        out := out + ",";
      }
      var next := Append(items[i], out);
      if next.None? {
        return None;
      }
      out := next.value;
    }
    assert items[..|items|] == items;
    assert out + "]" == buffer + ("[" + ItemsText(NormalItems(items), true) + "]");
    return Some(out + "]");
  }

  lemma NoItems()
    ensures ItemsText(NormalItems([]), true) == "" && FieldsText(NormalFields([]), true) == ""
  {
  }

  lemma ArrayIs(items: seq<Value>)
    ensures Canonical(Array(items))
            == if ItemsSupported(items) then Some("[" + ItemsText(NormalItems(items), true) + "]") else None
  {
  }

  lemma ObjectIs(fields: seq<Field>)
    ensures Canonical(Object(fields))
            == if FieldsSupported(fields)
               then Some("{" + FieldsText(NormalFields(SortBy(KeyLess, KeyOf, fields)), true) + "}") else None
  {
    SortNormal(fields);
  }

  /** The text of one more field, as the writer appends it. */
  lemma FieldStep(start: string, keys: seq<Field>, i: nat)
    requires i < |keys|
    ensures var f := keys[i];
            start + FieldsText(NormalFields(keys[..i + 1]), true)
            == start + FieldsText(NormalFields(keys[..i]), true) + Comma(i == 0) + Quoted(f.key) + ":"
               + Text(Normal(f.value))
  {
    hide Text, Normal, FieldsText, NormalFields, Quoted;
    var f := keys[i];
    assert keys[..i + 1] == keys[..i] + [f];
    NormalFieldsAppend(keys[..i], f);
    FieldsTextAppend(NormalFields(keys[..i]), Field(f.key, Normal(f.value)), true);
  }

  method AppendFields(v: Value, buffer: string) returns (r: Option<string>)
    requires v.Object?
    ensures r == match Canonical(v) case None => None case Some(text) => Some(buffer + text)
    decreases v, 0
  {
    hide Text, Normal, Supported, FieldsText, NormalFields, FieldsSupported, SortBy, KeyLess, Quoted;
    KeyOrder();
    SortByOrders(KeyLess, KeyOf, v.fields);
    ObjectIs(v.fields);
    SupportedByMember(v.fields);
    var keys := SortBy(KeyLess, KeyOf, v.fields);
    var out := buffer + "{";
    NoItems();
    for i := 0 to |keys|
      invariant forall j :: 0 <= j < i ==> Supported(keys[j].value)
      invariant out == buffer + "{" + FieldsText(NormalFields(keys[..i]), true)
    {
      var f := keys[i];
      assert f in v.fields;
      FieldStep(buffer + "{", keys, i);
      if i != 0 {
        out := out + ",";
      }
      out := out + Quoted(f.key) + ":";
      var next := Append(f.value, out);
      if next.None? {
        return None;
      }
      out := next.value;
    }
    assert keys[..|keys|] == keys;
    forall f | f in v.fields ensures Supported(f.value) {
      assert f in keys;
      var j :| 0 <= j < |keys| && keys[j] == f;
    }
    assert out + "}" == buffer + ("{" + FieldsText(NormalFields(keys), true) + "}");
    return Some(out + "}");
  }
}

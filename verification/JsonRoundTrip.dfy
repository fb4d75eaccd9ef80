/** Reading back the text of a value. */
module JsonRoundTrip {
  import opened Basics
  import opened Sorting
  import opened JsonText
  import opened Json

  /** The text of a supported value starts with a character of its own. */
  lemma TextStarts(v: Value)
    requires Supported(v)
    ensures Text(v) != [] && !IsSpace(Text(v)[0]) && Text(v)[0] != ']' && Text(v)[0] != '}' && Text(v)[0] != ','
    ensures v.Number? ==> IsDigit(Text(v)[0])
  {
    if v.Number? {
      DigitsFacts(v.n);
      assert IsDigit(Digits(v.n)[0]);
    }
  }

  lemma SkipNothing(s: string)
    requires s != [] && !IsSpace(s[0])
    ensures SkipSpace(s) == s
  {
  }

  ghost predicate ReadsBack(v: Value, rest: string, depth: nat) {
    ReadValue(Text(v) + rest, depth) == if Depth(v) <= depth then Some((v, rest)) else None
  }

  lemma ScalarReadsBack(v: Value, rest: string, depth: nat)
    requires Supported(v) && !v.Array? && !v.Object? && Delimited(rest)
    ensures ReadsBack(v, rest, depth)
  {
    match v
    case Null => LiteralReadsBack("null", Null, rest);
    case Bool(b) => LiteralReadsBack(if b then "true" else "false", v, rest);
    case Number(n) => NumberReadsBack(n, rest, depth);
    case Str(t) => StringReadsBack(t, rest, depth);
    case OtherNumber =>
    case Array(_) =>
    case Object(_) =>
  }

  lemma LiteralReadsBack(text: string, v: Value, rest: string)
    requires text != [] && !IsSpace(text[0])
    ensures Literal(text + rest, text, v) == Some((v, rest)) && SkipSpace(text + rest) == text + rest
  {
    SkipNothing(text + rest);
    assert (text + rest)[..|text|] == text && (text + rest)[|text|..] == rest;
  }

  lemma NumberReadsBack(n: nat, rest: string, depth: nat)
    requires n <= MAX_SAFE_INTEGER && Delimited(rest)
    ensures ReadsBack(Number(n), rest, depth)
  {
    hide ReadNumber, ReadItems, ReadFields, ReadString, Literal, Digits;
    TextStarts(Number(n));
    NumberRoundTrip(n, rest);
    var s := Digits(n) + rest;
    SkipNothing(s);
    assert s[0] == Digits(n)[0] && IsDigit(s[0]);
  }

  lemma StringReadsBack(t: string, rest: string, depth: nat)
    ensures ReadsBack(Str(t), rest, depth)
  {
    hide ReadNumber, ReadItems, ReadFields, ReadString, Literal, EscapedAll;
    StringRoundTrip(t, rest);
    var s := Quoted(t) + rest;
    SkipNothing(s);
    assert s[1..] == EscapedAll(t) + "\"" + rest;
  }

  /** Inside a container the text of a value is followed by a comma or the closing bracket. */
  lemma ItemsDelimit(items: seq<Value>, rest: string)
    ensures Delimited(ItemsText(items, false) + "]" + rest)
  {
    if items != [] {
      assert ItemsText(items, false)[0] == ',';
    }
  }

  lemma FieldsDelimit(fields: seq<Field>, rest: string)
    ensures Delimited(FieldsText(fields, false) + "}" + rest)
  {
    if fields != [] {
      assert FieldsText(fields, false)[0] == ',';
    }
  }

  lemma {:induction false} KeysDistinct(fields: seq<Field>)
    requires FieldsWellFormed(fields)
    ensures DistinctKeys(KeyOf, fields) && !Repeats(fields)
  {
    if fields != [] {
      var tail := fields[1..];
      KeysDistinct(tail);
      forall i, j | 0 <= i < j < |fields| ensures fields[i].key != fields[j].key {
        if i == 0 {
          assert tail[j - 1].key == fields[j].key;
        } else {
          assert KeyOf(tail[i - 1]) != KeyOf(tail[j - 1]);
        }
      }
      forall i, j | 0 <= i < j < |fields| ensures KeyOf(fields[i]) != KeyOf(fields[j]) {}
    }
  }

  /** Strict parsing of the text of a value, followed by anything that can
      follow it, returns that value exactly when the nesting is allowed. */
  lemma {:induction false} ValueReadsBack(v: Value, rest: string, depth: nat)
    requires Supported(v) && WellFormed(v) && Delimited(rest)
    ensures ReadsBack(v, rest, depth)
    decreases v
  {
    hide ReadItems, ReadFields, ItemsText, FieldsText;
    match v
    case Array(items) =>
      var s := Text(v) + rest;
      SkipNothing(s);
      assert s[1..] == ItemsText(items, true) + "]" + rest;
      if depth > 0 {
        ItemsReadBack(items, rest, depth - 1, true);
      }
    case Object(fields) =>
      var s := Text(v) + rest;
      SkipNothing(s);
      assert s[1..] == FieldsText(fields, true) + "}" + rest;
      if depth > 0 {
        FieldsReadBack(fields, rest, depth - 1, true);
        KeysDistinct(fields);
      }
    case _ => ScalarReadsBack(v, rest, depth);
  }

  /** Reading past the separator reaches the first element. */
  lemma ItemsEntry(items: seq<Value>, rest: string, depth: nat, first: bool)
    requires items != [] && Supported(items[0])
    ensures ReadItems(ItemsText(items, first) + "]" + rest, depth, first)
            == ReadMoreItems(Text(items[0]) + (ItemsText(items[1..], false) + "]" + rest), depth)
  {
    hide ReadMoreItems, Text, SkipSpace;
    TextStarts(items[0]);
    var tail := ItemsText(items[1..], false) + "]" + rest;
    var s := ItemsText(items, first) + "]" + rest;
    var u := Text(items[0]) + tail;
    RegroupItems(Comma(first), Text(items[0]), ItemsText(items[1..], false), rest);
    assert s == Comma(first) + u;
    SkipNothing(u);
    if first {
      assert s == u;
    } else {
      SkipNothing(s);
      assert s[1..] == u;
    }
  }

  lemma RegroupItems(a: string, b: string, c: string, rest: string)
    ensures (a + b + c) + "]" + rest == a + (b + (c + "]" + rest))
  {
  }

  lemma {:induction false} ItemsReadBack(items: seq<Value>, rest: string, depth: nat, first: bool)
    requires ItemsSupported(items) && ItemsWellFormed(items)
    ensures ReadItems(ItemsText(items, first) + "]" + rest, depth, first)
            == if ItemsDepth(items) <= depth then Some((items, rest)) else None
    decreases items
  {
    hide ReadValue, Text;
    if items == [] {
      var s := ItemsText(items, first) + "]" + rest;
      assert s == "]" + rest;
      SkipNothing(s);
      assert s[1..] == rest;
    } else {
      var tail := ItemsText(items[1..], false) + "]" + rest;
      ItemsEntry(items, rest, depth, first);
      ItemsDelimit(items[1..], rest);
      ValueReadsBack(items[0], tail, depth);
      ItemsReadBack(items[1..], rest, depth, false);
      assert items == [items[0]] + items[1..];
    }
  }

  lemma FieldsEntry(fields: seq<Field>, rest: string, depth: nat, first: bool)
    requires fields != []
    ensures ReadFields(FieldsText(fields, first) + "}" + rest, depth, first)
            == ReadMoreFields(
                 Quoted(fields[0].key) + ":" + (Text(fields[0].value) + (FieldsText(fields[1..], false) + "}" + rest)),
                 depth)
  {
    hide ReadMoreFields, Text, Quoted;
    var tail := FieldsText(fields[1..], false) + "}" + rest;
    var u := Quoted(fields[0].key) + ":" + (Text(fields[0].value) + tail);
    var s := FieldsText(fields, first) + "}" + rest;
    QuotedStarts(fields[0].key);
    Regroup(Comma(first), Quoted(fields[0].key), Text(fields[0].value), FieldsText(fields[1..], false), rest);
    assert s == Comma(first) + u;
    SkipNothing(u);
    if first {
      assert s == u;
    } else {
      SkipNothing(s);
      assert s[1..] == u;
    }
  }

  lemma QuotedStarts(key: string)
    ensures Quoted(key) != [] && Quoted(key)[0] == '\"'
  {
  }

  lemma Regroup(a: string, b: string, c: string, d: string, rest: string)
    ensures (a + b + ":" + c + d) + "}" + rest == a + (b + ":" + (c + (d + "}" + rest)))
  {
  }

  lemma FieldHead(key: string, v: Value, tail: string, depth: nat)
    ensures ReadMoreFields(Quoted(key) + ":" + (Text(v) + tail), depth)
            == match ReadValue(Text(v) + tail, depth)
               case None => None
               case Some(r) =>
                 match ReadFields(r.1, depth, false)
                 case None => None
                 case Some(f) => Some(([Field(key, r.0)] + f.0, f.1))
  {
    hide ReadValue, ReadFields, Text, EscapedAll;
    var after := ":" + (Text(v) + tail);
    var s := Quoted(key) + ":" + (Text(v) + tail);
    StringRoundTrip(key, after);
    assert s[1..] == EscapedAll(key) + "\"" + after;
    SkipNothing(after);
    assert after[1..] == Text(v) + tail;
  }

  lemma {:induction false} FieldsReadBack(fields: seq<Field>, rest: string, depth: nat, first: bool)
    requires FieldsSupported(fields) && FieldsWellFormed(fields)
    ensures ReadFields(FieldsText(fields, first) + "}" + rest, depth, first)
            == if FieldsDepth(fields) <= depth then Some((fields, rest)) else None
    decreases fields
  {
    hide ReadValue, Text, ReadMoreFields;
    if fields == [] {
      var s := FieldsText(fields, first) + "}" + rest;
      assert s == "}" + rest;
      SkipNothing(s);
      assert s[1..] == rest;
    } else {
      var tail := FieldsText(fields[1..], false) + "}" + rest;
      FieldsEntry(fields, rest, depth, first);
      FieldHead(fields[0].key, fields[0].value, tail, depth);
      FieldsDelimit(fields[1..], rest);
      ValueReadsBack(fields[0].value, tail, depth);
      FieldsReadBack(fields[1..], rest, depth, false);
      assert fields == [fields[0]] + fields[1..];
    }
  }
}

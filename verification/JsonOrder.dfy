/** What makes canonical text canonical (RFC 8785): property names ascend by their
    UTF-16 code units at every level, and nothing separates the tokens. */
module JsonOrder {
  import opened Basics
  import opened Order
  import opened Sorting
  import opened JsonText
  import opened Json
  import opened JsonRoundTrip
  import opened JsonProofs

  // ----- UTF-16 -----

  /** Reading code units: a high surrogate and the low one after it make one scalar. */
  function ReadUnits(u: seq<int>): Option<string> {
    if u == [] then Some([])
    else if 0xD800 <= u[0] < 0xDC00 then
      if |u| < 2 || !(0xDC00 <= u[1] < 0xE000) then None
      else
        var n := 0x10000 + 1024 * (u[0] - 0xD800) + (u[1] - 0xDC00);
        var rest := ReadUnits(u[2..]);
        if rest.None? then None else Some([n as char] + rest.value)
    else if u[0] < 0 || 0xDC00 <= u[0] < 0xE000 || u[0] >= 0x10000 then None
    else
      var rest := ReadUnits(u[1..]);
      if rest.None? then None else Some([u[0] as char] + rest.value)
  }

  lemma {:induction false} UnitsReadBack(s: string)
    ensures ReadUnits(Utf16(s)) == Some(s)
  {
    if s != [] {
      UnitsReadBack(s[1..]);
      UnitRead(s[0], Utf16(s[1..]));
      assert [s[0]] + s[1..] == s;
    }
  }

  lemma UnitRead(c: char, rest: seq<int>)
    requires ReadUnits(rest).Some?
    ensures ReadUnits(Units(c) + rest) == Some([c] + ReadUnits(rest).value)
  {
    var u := Units(c) + rest;
    if c as int < 0x10000 {
      assert u[1..] == rest;
    } else {
      assert u[2..] == rest;
    }
  }

  // ----- The order of property names -----

  /** At every level, of two properties the one whose name has the smaller first
      differing code unit, or ends first, comes first. */
  ghost predicate KeysAscend(v: Value)
    decreases v
  {
    match v
    case Array(items) => forall i :: 0 <= i < |items| ==> KeysAscend(items[i])
    case Object(fields) =>
      && (forall i, j :: 0 <= i < j < |fields| ==> Ascends(Utf16(fields[i].key), Utf16(fields[j].key)))
      && (forall i :: 0 <= i < |fields| ==> KeysAscend(fields[i].value))
    case _ => true
  }

  lemma KeyAscends(a: string, b: string)
    ensures KeyLess(a, b) <==> Ascends(Utf16(a), Utf16(b))
  {
    LexIsAscent(UnitLess, Utf16(a), Utf16(b));
  }

  lemma {:induction false} NormalAscends(v: Value)
    requires WellFormed(v)
    ensures KeysAscend(Normal(v))
    decreases v
  {
    hide Ascends, KeyLess, SortBy;
    match v
    case Array(items) => ItemsAscend(items);
    case Object(fields) =>
      FieldsAscend(fields);
      KeysDistinct(fields);
      KeyOrder();
      var normal := NormalFields(fields);
      SortStrict(KeyLess, KeyOf, normal);
      var s := SortBy(KeyLess, KeyOf, normal);
      forall i, j | 0 <= i < j < |s| ensures Ascends(Utf16(s[i].key), Utf16(s[j].key)) {
        assert KeyLess(KeyOf(s[i]), KeyOf(s[j]));
        KeyAscends(s[i].key, s[j].key);
      }
      assert forall i :: 0 <= i < |s| ==> s[i] in s;
    case _ =>
  }

  lemma {:induction false} ItemsAscend(items: seq<Value>)
    requires ItemsWellFormed(items)
    ensures forall i :: 0 <= i < |items| ==> KeysAscend(NormalItems(items)[i])
    decreases items
  {
    hide KeysAscend, Normal, WellFormed;
    if items != [] {
      NormalAscends(items[0]);
      ItemsAscend(items[1..]);
    }
  }

  lemma {:induction false} FieldsAscend(fields: seq<Field>)
    requires FieldsWellFormed(fields)
    ensures forall f :: f in NormalFields(fields) ==> KeysAscend(f.value)
    decreases fields
  {
    hide KeysAscend, Normal, WellFormed, HasField;
    if fields != [] {
      NormalAscends(fields[0].value);
      FieldsAscend(fields[1..]);
    }
  }

  // ----- The text -----

  /** Inside a string or not after `s`; none when space stands outside a string. */
  function Scan(s: string, quoted: bool): Option<bool> {
    if s == [] then Some(quoted)
    else if !quoted then
      if s[0] in {' ', '\t', '\n', '\r'} then None else Scan(s[1..], s[0] == '\"')
    else if s[0] == '\\' then (if |s| < 2 then None else Scan(s[2..], true))
    else Scan(s[1..], s[0] != '\"')
  }

  predicate Compact(s: string) { Scan(s, false) == Some(false) }

  lemma {:induction false} ScanOn(a: string, b: string, quoted: bool)
    requires Scan(a, quoted).Some?
    ensures Scan(a + b, quoted) == Scan(b, Scan(a, quoted).value)
    decreases |a|
  {
    if a == [] {
      assert a + b == b;
    } else {
      assert (a + b)[1..] == a[1..] + b;
      if quoted && a[0] == '\\' {
        assert (a + b)[2..] == a[2..] + b;
        ScanOn(a[2..], b, true);
      } else {
        ScanOn(a[1..], b, if quoted then a[0] != '\"' else a[0] == '\"');
      }
    }
  }

  lemma CompactOn(a: string, b: string)
    requires Compact(a) && Compact(b)
    ensures Compact(a + b)
  {
    ScanOn(a, b, false);
  }

  /** Only the quotation mark, the backslash and control characters are escaped, by
      two characters where there is such a form, else by lower-case hexadecimal. */
  lemma EscapesAreMinimal(c: char)
    ensures Escaped(c) == [c] <==> c >= ' ' && c != '\"' && c != '\\'
    ensures |Escaped(c)| == 2 <==> c in {'\"', '\\', '\n', '\r', '\t'} || c as int in {8, 12}
    ensures |Escaped(c)| in {1, 2, 6} && (|Escaped(c)| > 1 ==> Escaped(c)[0] == '\\')
    ensures |Escaped(c)| == 6 ==>
              && Escaped(c)[..4] == "\\u00" && '0' <= Escaped(c)[4] <= '1'
              && ('0' <= Escaped(c)[5] <= '9' || 'a' <= Escaped(c)[5] <= 'f')
  {
  }

  lemma EscapedScans(c: char, rest: string)
    ensures Scan(Escaped(c) + rest, true) == Scan(rest, true)
  {
    EscapesAreMinimal(c);
    var e := Escaped(c);
    var s := e + rest;
    if |e| == 1 {
      assert s[1..] == rest;
    } else if |e| == 2 {
      assert s[2..] == rest;
    } else {
      var h := [e[2], e[3], e[4], e[5]];
      assert s[2..] == h + rest && e[2] == e[..4][2] == '0' && e[3] == e[..4][3] == '0';
      HexScans(h, rest);
    }
  }

  lemma {:induction false} HexScans(h: string, rest: string)
    requires forall i :: 0 <= i < |h| ==> h[i] != '\"' && h[i] != '\\'
    ensures Scan(h + rest, true) == Scan(rest, true)
  {
    if h == [] {
      assert h + rest == rest;
    } else {
      HexScans(h[1..], rest);
      assert (h + rest)[1..] == h[1..] + rest;
    }
  }

  lemma {:induction false} QuotedScans(s: string, rest: string)
    ensures Scan(EscapedAll(s) + rest, true) == Scan(rest, true)
  {
    hide Scan, Escaped;
    if s == [] {
      assert EscapedAll(s) + rest == rest;
    } else {
      QuotedScans(s[1..], rest);
      EscapedScans(s[0], EscapedAll(s[1..]) + rest);
      assert EscapedAll(s) + rest == Escaped(s[0]) + (EscapedAll(s[1..]) + rest);
    }
  }

  lemma QuotedIsCompact(s: string)
    ensures Compact(Quoted(s))
  {
    var q := "\"";
    QuotedScans(s, q);
    assert Quoted(s) == q + (EscapedAll(s) + q);
    assert Quoted(s)[1..] == EscapedAll(s) + q;
    assert q[1..] == "";
  }

  lemma {:induction false} PlainIsCompact(s: string)
    requires forall c :: c in s ==> c !in {' ', '\t', '\n', '\r', '\"'}
    ensures Compact(s)
  {
    if s != [] {
      assert s[0] in s && forall c :: c in s[1..] ==> c in s;
      PlainIsCompact(s[1..]);
    }
  }

  lemma {:induction false} DigitsArePlain(n: nat)
    ensures forall c :: c in Digits(n) ==> '0' <= c <= '9'
  {
    if n >= 10 {
      DigitsArePlain(n / 10);
    }
  }

  /** Canonical text has no space outside strings. */
  lemma {:induction false} TextIsCompact(v: Value)
    ensures Compact(Text(v))
    decreases v
  {
    hide Scan, Compact, Quoted, Digits, ItemsText, FieldsText;
    match v
    case Null => PlainIsCompact("null");
    case Bool(b) => PlainIsCompact(if b then "true" else "false");
    case Number(n) =>
      if n >= 0 {
        DigitsArePlain(n);
        PlainIsCompact(Digits(n));
      } else {
        PlainIsCompact("");
      }
    case OtherNumber => PlainIsCompact("");
    case Str(s) => QuotedIsCompact(s);
    case Array(items) =>
      ItemsAreCompact(items, true);
      PlainIsCompact("[");
      PlainIsCompact("]");
      CompactOn("[", ItemsText(items, true));
      CompactOn("[" + ItemsText(items, true), "]");
    case Object(fields) =>
      FieldsAreCompact(fields, true);
      PlainIsCompact("{");
      PlainIsCompact("}");
      CompactOn("{", FieldsText(fields, true));
      CompactOn("{" + FieldsText(fields, true), "}");
  }

  lemma {:induction false} ItemsAreCompact(items: seq<Value>, first: bool)
    ensures Compact(ItemsText(items, first))
    decreases items
  {
    hide Scan, Compact, Text;
    PlainIsCompact("");
    PlainIsCompact(Comma(first));
    if items != [] {
      TextIsCompact(items[0]);
      ItemsAreCompact(items[1..], false);
      CompactOn(Comma(first), Text(items[0]));
      CompactOn(Comma(first) + Text(items[0]), ItemsText(items[1..], false));
    }
  }

  lemma {:induction false} FieldsAreCompact(fields: seq<Field>, first: bool)
    ensures Compact(FieldsText(fields, first))
    decreases fields
  {
    hide Scan, Compact, Text, Quoted;
    PlainIsCompact("");
    PlainIsCompact(Comma(first));
    PlainIsCompact(":");
    if fields != [] {
      var key, value := Quoted(fields[0].key), Text(fields[0].value);
      QuotedIsCompact(fields[0].key);
      TextIsCompact(fields[0].value);
      FieldsAreCompact(fields[1..], false);
      CompactOn(Comma(first), key);
      CompactOn(Comma(first) + key, ":");
      CompactOn(Comma(first) + key + ":", value);
      CompactOn(Comma(first) + key + ":" + value, FieldsText(fields[1..], false));
    }
  }

  /** Canonical text is compact, and it is the text of the value with its property
      names ascending at every level; strict parsing, within its limits, returns that. */
  lemma CanonicalIsOrderedAndCompact(v: Value) returns (n: Value)
    requires WellFormed(v) && Supported(v)
    ensures Canonical(v) == Some(Text(n)) && Compact(Text(n)) && KeysAscend(n) && Meaning(n) == Meaning(v)
    ensures Parse(Text(n))
            == if Utf8Length(Text(n)) <= 4 * 1024 * 1024 && Depth(v) <= 127 then Some(n) else None
  {
    hide Text, Normal, Compact, KeysAscend, Parse, Meaning, WellFormed, Supported, Depth;
    n := Normal(v);
    NormalAscends(v);
    TextIsCompact(n);
    CanonicalParsesBack(v);
  }
}

/** JSON values, their canonical text and the strict parser:
    crates/adns-auth/src/canonical.rs. */
module Json {
  import opened Basics
  import opened Sorting
  import opened JsonText

  /** A value with its properties in insertion order. `OtherNumber` is any
      number that is not an unsigned integer. */
  datatype Value =
    | Null
    | Bool(b: bool)
    | Number(n: int)
    | OtherNumber
    | Str(s: string)
    | Array(items: seq<Value>)
    | Object(fields: seq<Field>)

  datatype Field = Field(key: string, value: Value)

  /** What a value means: properties are a map. */
  datatype Tree =
    | TreeNull
    | TreeBool(b: bool)
    | TreeNumber(n: int)
    | TreeOther
    | TreeStr(s: string)
    | TreeArray(items: seq<Tree>)
    | TreeObject(fields: map<string, Tree>)

  const MAX_REQUEST_BYTES := 4 * 1024 * 1024
  const MAX_DEPTH := 127

  function Meaning(v: Value): Tree
    decreases v
  {
    match v
    case Null => TreeNull
    case Bool(b) => TreeBool(b)
    case Number(n) => TreeNumber(n)
    case OtherNumber => TreeOther
    case Str(s) => TreeStr(s)
    case Array(items) => TreeArray(ItemMeanings(items))
    case Object(fields) => TreeObject(FieldMeanings(fields))
  }

  function ItemMeanings(items: seq<Value>): (r: seq<Tree>)
    ensures |r| == |items|
    decreases items
  {
    if items == [] then [] else [Meaning(items[0])] + ItemMeanings(items[1..])
  }

  function FieldMeanings(fields: seq<Field>): map<string, Tree>
    decreases fields
  {
    if fields == [] then map[] else FieldMeanings(fields[1..])[fields[0].key := Meaning(fields[0].value)]
  }

  // ----- Well-formed values -----

  predicate HasField(fields: seq<Field>, key: string) { exists i :: 0 <= i < |fields| && fields[i].key == key }

  /** No object repeats a property name: what a map guarantees. */
  predicate WellFormed(v: Value)
    decreases v
  {
    match v
    case Array(items) => ItemsWellFormed(items)
    case Object(fields) => FieldsWellFormed(fields)
    case _ => true
  }

  predicate ItemsWellFormed(items: seq<Value>)
    decreases items
  {
    items == [] || (WellFormed(items[0]) && ItemsWellFormed(items[1..]))
  }

  predicate FieldsWellFormed(fields: seq<Field>)
    decreases fields
  {
    fields == [] ||
    (WellFormed(fields[0].value) && !HasField(fields[1..], fields[0].key) && FieldsWellFormed(fields[1..]))
  }

  /** Every number is an unsigned integer of at most 53 bits. */
  predicate Supported(v: Value)
    decreases v
  {
    match v
    case Number(n) => 0 <= n <= MAX_SAFE_INTEGER
    case OtherNumber => false
    case Array(items) => ItemsSupported(items)
    case Object(fields) => FieldsSupported(fields)
    case _ => true
  }

  predicate ItemsSupported(items: seq<Value>)
    decreases items
  {
    items == [] || (Supported(items[0]) && ItemsSupported(items[1..]))
  }

  predicate FieldsSupported(fields: seq<Field>)
    decreases fields
  {
    fields == [] || (Supported(fields[0].value) && FieldsSupported(fields[1..]))
  }

  function Depth(v: Value): nat
    decreases v
  {
    match v
    case Array(items) => 1 + ItemsDepth(items)
    case Object(fields) => 1 + FieldsDepth(fields)
    case _ => 0
  }

  function Greater(a: nat, b: nat): nat { if a < b then b else a }

  function ItemsDepth(items: seq<Value>): nat
    decreases items
  {
    if items == [] then 0 else Greater(Depth(items[0]), ItemsDepth(items[1..]))
  }

  function FieldsDepth(fields: seq<Field>): nat
    decreases fields
  {
    if fields == [] then 0 else Greater(Depth(fields[0].value), FieldsDepth(fields[1..]))
  }

  // ----- Canonical text -----

  function KeyOf(f: Field): string { f.key }

  /** Properties in UTF-16 order, at every level. */
  function Normal(v: Value): Value
    decreases v
  {
    match v
    case Array(items) => Array(NormalItems(items))
    case Object(fields) => Object(SortBy(KeyLess, KeyOf, NormalFields(fields)))
    case _ => v
  }

  function NormalItems(items: seq<Value>): (r: seq<Value>)
    ensures |r| == |items|
    decreases items
  {
    if items == [] then [] else [Normal(items[0])] + NormalItems(items[1..])
  }

  function NormalFields(fields: seq<Field>): (r: seq<Field>)
    ensures |r| == |fields| && forall i :: 0 <= i < |fields| ==> r[i].key == fields[i].key
    decreases fields
  {
    if fields == [] then [] else [Field(fields[0].key, Normal(fields[0].value))] + NormalFields(fields[1..])
  }

  /** The text of a value with its properties in the order they stand. */
  function Text(v: Value): string
    decreases v
  {
    match v
    case Null => "null"
    case Bool(b) => if b then "true" else "false"
    case Number(n) => if n < 0 then "" else Digits(n)
    case OtherNumber => ""
    case Str(s) => Quoted(s)
    case Array(items) => "[" + ItemsText(items, true) + "]"
    case Object(fields) => "{" + FieldsText(fields, true) + "}"
  }

  function Comma(first: bool): string { if first then "" else "," }

  function ItemsText(items: seq<Value>, first: bool): string
    decreases items
  {
    if items == [] then "" else Comma(first) + Text(items[0]) + ItemsText(items[1..], false)
  }

  function FieldsText(fields: seq<Field>, first: bool): string
    decreases fields
  {
    if fields == [] then ""
    else Comma(first) + Quoted(fields[0].key) + ":" + Text(fields[0].value) + FieldsText(fields[1..], false)
  }

  /** `canonical_json`. */
  function Canonical(v: Value): Option<string> {
    if Supported(v) then Some(Text(Normal(v))) else None
  }

  // ----- The strict parser -----

  predicate IsSpace(c: char) { c == ' ' || c == '\n' || c == '\t' || c == '\r' }

  function SkipSpace(s: string): (r: string)
    ensures |r| <= |s| && (r != [] ==> !IsSpace(r[0]))
  {
    if s != [] && IsSpace(s[0]) then SkipSpace(s[1..]) else s
  }

  function Literal(s: string, text: string, v: Value): (r: Option<(Value, string)>)
    requires text != []
    ensures r.Some? ==> |r.value.1| < |s|
  {
    if |text| <= |s| && s[..|text|] == text then Some((v, s[|text|..])) else None
  }

  /** One value; `depth` is how many nested containers are still allowed. */
  function ReadValue(s: string, depth: nat): (r: Option<(Value, string)>)
    ensures r.Some? ==> |r.value.1| < |s|
    decreases |s|, 2
  {
    var t := SkipSpace(s);
    if t == [] then None
    else if t[0] == 'n' then Literal(t, "null", Null)
    else if t[0] == 't' then Literal(t, "true", Bool(true))
    else if t[0] == 'f' then Literal(t, "false", Bool(false))
    else if t[0] == '\"' then
      (match ReadString(t[1..])
       case None => None
       case Some(r) => Some((Str(r.0), r.1)))
    else if t[0] == '[' then
      if depth == 0 then None
      else match ReadItems(t[1..], depth - 1, true)
        case None => None
        case Some(r) => Some((Array(r.0), r.1))
    else if t[0] == '{' then
      if depth == 0 then None
      else match ReadFields(t[1..], depth - 1, true)
        case None => None
        case Some(r) => if Repeats(r.0) then None else Some((Object(r.0), r.1))
    else match ReadNumber(t)
      case None => None
      case Some(r) => Some((Number(r.0), r.1))
  }

  /** The elements up to the closing bracket. */
  function ReadItems(s: string, depth: nat, first: bool): (r: Option<(seq<Value>, string)>)
    ensures r.Some? ==> |r.value.1| < |s|
    decreases |s|, 4
  {
    var t := SkipSpace(s);
    if t == [] then None
    else if t[0] == ']' then Some(([], t[1..]))
    else if first then ReadMoreItems(t, depth)
    else if t[0] != ',' then None
    else
      var u := SkipSpace(t[1..]);
      if u == [] || u[0] == ']' then None else ReadMoreItems(u, depth)
  }

  function ReadMoreItems(s: string, depth: nat): (r: Option<(seq<Value>, string)>)
    ensures r.Some? ==> |r.value.1| < |s|
    decreases |s|, 3
  {
    match ReadValue(s, depth)
    case None => None
    case Some(v) =>
      match ReadItems(v.1, depth, false)
      case None => None
      case Some(r) => Some(([v.0] + r.0, r.1))
  }

  /** The properties up to the closing brace. */
  function ReadFields(s: string, depth: nat, first: bool): (r: Option<(seq<Field>, string)>)
    ensures r.Some? ==> |r.value.1| < |s|
    decreases |s|, 4
  {
    var t := SkipSpace(s);
    if t == [] then None
    else if t[0] == '}' then Some(([], t[1..]))
    else if first then ReadMoreFields(t, depth)
    else if t[0] != ',' then None
    else
      var u := SkipSpace(t[1..]);
      if u == [] || u[0] == '}' then None else ReadMoreFields(u, depth)
  }

  function ReadMoreFields(s: string, depth: nat): (r: Option<(seq<Field>, string)>)
    ensures r.Some? ==> |r.value.1| < |s|
    decreases |s|, 3
  {
    if s == [] || s[0] != '\"' then None
    else match ReadString(s[1..])
      case None => None
      case Some(key) =>
        var t := SkipSpace(key.1);
        if t == [] || t[0] != ':' then None
        else match ReadValue(t[1..], depth)
          case None => None
          case Some(v) =>
            match ReadFields(v.1, depth, false)
            case None => None
            case Some(r) => Some(([Field(key.0, v.0)] + r.0, r.1))
  }

  predicate Repeats(fields: seq<Field>) {
    exists i, j :: 0 <= i < j < |fields| && fields[i].key == fields[j].key
  }

  /** `parse_strict_json`. */
  function Parse(s: string): Option<Value> {
    if Utf8Length(s) > MAX_REQUEST_BYTES then None
    else match ReadValue(s, MAX_DEPTH)
      case None => None
      case Some(r) => if SkipSpace(r.1) == [] then Some(r.0) else None
  }
}

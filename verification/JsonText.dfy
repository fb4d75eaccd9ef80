/** Strings and numbers in JSON text, as serde_json writes and reads them for
    crates/adns-auth/src/canonical.rs. Text is a sequence of Unicode scalars. */
module JsonText {
  import opened Basics
  import opened Order

  // ----- UTF-16 order -----

  function Units(c: char): seq<int> {
    var n := c as int;
    if n < 0x10000 then [n] else [0xD800 + (n - 0x10000) / 0x400, 0xDC00 + (n - 0x10000) % 0x400]
  }

  function Utf16(s: string): seq<int> {
    if s == [] then [] else Units(s[0]) + Utf16(s[1..])
  }

  predicate UnitLess(a: int, b: int) { a < b }

  predicate KeyLess(a: string, b: string) { LexLess(UnitLess, Utf16(a), Utf16(b)) }

  lemma UnitsPrefixFree(a: char, b: char, x: seq<int>, y: seq<int>)
    requires Units(a) + x == Units(b) + y
    ensures a == b && x == y
  {
    var u, v := Units(a) + x, Units(b) + y;
    assert u[0] == Units(a)[0] && v[0] == Units(b)[0];
    assert |Units(a)| == |Units(b)|;
    assert u[|Units(a)|..] == x && v[|Units(b)|..] == y;
    if |Units(a)| == 2 {
      assert u[1] == Units(a)[1] && v[1] == Units(b)[1];
    }
  }

  lemma {:induction false} Utf16Injective(a: string, b: string)
    requires Utf16(a) == Utf16(b)
    ensures a == b
  {
    if a != [] && b != [] {
      UnitsPrefixFree(a[0], b[0], Utf16(a[1..]), Utf16(b[1..]));
      Utf16Injective(a[1..], b[1..]);
      assert a == [a[0]] + a[1..] && b == [b[0]] + b[1..];
    } else {
      assert a != [] ==> |Utf16(a)| > 0;
      assert b != [] ==> |Utf16(b)| > 0;
    }
  }

  lemma KeyOrder()
    ensures StrictTotal<string>(KeyLess)
  {
    forall a: string ensures !KeyLess(a, a) { LexIrreflexive(UnitLess, Utf16(a)); }
    forall a, b, c | KeyLess(a, b) && KeyLess(b, c) ensures KeyLess(a, c) {
      LexTransitive(UnitLess, Utf16(a), Utf16(b), Utf16(c));
    }
    forall a: string, b: string ensures a == b || KeyLess(a, b) || KeyLess(b, a) {
      LexConnected(UnitLess, Utf16(a), Utf16(b));
      if Utf16(a) == Utf16(b) {
        Utf16Injective(a, b);
      }
    }
  }

  /** Octets of the UTF-8 form. */
  function Utf8Size(c: char): nat {
    var n := c as int;
    if n < 0x80 then 1 else if n < 0x800 then 2 else if n < 0x10000 then 3 else 4
  }

  function Utf8Length(s: string): nat {
    if s == [] then 0 else Utf8Length(s[..|s| - 1]) + Utf8Size(s[|s| - 1])
  }

  // ----- Strings -----

  function HexDigit(n: int): char
    requires 0 <= n < 16
  {
    if n < 10 then (48 + n) as char else (87 + n) as char
  }

  function Escaped(c: char): string {
    if c == '\"' then "\\\""
    else if c == '\\' then "\\\\"
    else if c as int == 8 then "\\b"
    else if c as int == 12 then "\\f"
    else if c == '\n' then "\\n"
    else if c == '\r' then "\\r"
    else if c == '\t' then "\\t"
    else if c < ' ' then "\\u00" + [HexDigit(c as int / 16), HexDigit(c as int % 16)]
    else [c]
  }

  function EscapedAll(s: string): string {
    if s == [] then [] else Escaped(s[0]) + EscapedAll(s[1..])
  }

  function Quoted(s: string): string { "\"" + EscapedAll(s) + "\"" }

  function HexValue(c: char): (r: Option<int>)
    ensures r.Some? ==> 0 <= r.value < 16
  {
    if '0' <= c <= '9' then Some(c as int - 48)
    else if 'a' <= c <= 'f' then Some(c as int - 87)
    else if 'A' <= c <= 'F' then Some(c as int - 55)
    else None
  }

  /** Four hexadecimal digits. */
  function Hex4(s: string): (r: Option<int>)
    ensures r.Some? ==> 0 <= r.value < 0x10000 && |s| >= 4
  {
    if |s| < 4 || HexValue(s[0]).None? || HexValue(s[1]).None? || HexValue(s[2]).None? || HexValue(s[3]).None? then None
    else Some(4096 * HexValue(s[0]).value + 256 * HexValue(s[1]).value
              + 16 * HexValue(s[2]).value + HexValue(s[3]).value)
  }

  /** What follows `\u`: a scalar, or a surrogate pair; a lone surrogate is refused. */
  function ReadUnicode(s: string): (r: Option<(char, string)>)
    ensures r.Some? ==> |r.value.1| < |s|
  {
    match Hex4(s)
    case None => None
    case Some(n) =>
      if 0xDC00 <= n < 0xE000 then None
      else if 0xD800 <= n < 0xDC00 then
        if |s| < 6 || s[4] != '\\' || s[5] != 'u' then None
        else match Hex4(s[6..])
          case None => None
          case Some(m) =>
            if 0xDC00 <= m < 0xE000
            then Some(((0x10000 + (n - 0xD800) * 0x400 + (m - 0xDC00)) as char, s[10..]))
            else None
      else Some((n as char, s[4..]))
  }

  function ReadEscape(s: string): (r: Option<(char, string)>)
    ensures r.Some? ==> |r.value.1| < |s|
  {
    if s == [] then None
    else if s[0] == '\"' || s[0] == '\\' || s[0] == '/' then Some((s[0], s[1..]))
    else if s[0] == 'b' then Some((8 as char, s[1..]))
    else if s[0] == 'f' then Some((12 as char, s[1..]))
    else if s[0] == 'n' then Some(('\n', s[1..]))
    else if s[0] == 'r' then Some(('\r', s[1..]))
    else if s[0] == 't' then Some(('\t', s[1..]))
    else if s[0] == 'u' then ReadUnicode(s[1..])
    else None
  }

  /** The rest of a string after its opening quote. */
  function ReadString(s: string): (r: Option<(string, string)>)
    ensures r.Some? ==> |r.value.1| < |s|
    decreases |s|
  {
    if s == [] then None
    else if s[0] == '\"' then Some(([], s[1..]))
    else if s[0] == '\\' then
      match ReadEscape(s[1..])
      case None => None
      case Some(e) =>
        (match ReadString(e.1)
         case None => None
         case Some(r) => Some(([e.0] + r.0, r.1)))
    else if s[0] < ' ' then None
    else match ReadString(s[1..])
      case None => None
      case Some(r) => Some(([s[0]] + r.0, r.1))
  }

  lemma HexRoundTrip(n: int)
    requires 0 <= n < 16
    ensures HexValue(HexDigit(n)) == Some(n)
  {
  }

  /** Reading one escaped scalar. */
  lemma EscapeRoundTrip(c: char, rest: string)
    requires ReadString(rest).Some?
    ensures ReadString(Escaped(c) + rest) == Some(([c] + ReadString(rest).value.0, ReadString(rest).value.1))
  {
    var t := Escaped(c) + rest;
    if c < ' ' && c as int != 8 && c as int != 12 && c != '\n' && c != '\r' && c != '\t' {
      var n := c as int;
      HexRoundTrip(n / 16);
      HexRoundTrip(n % 16);
      var u := t[2..];
      assert u == "00" + [HexDigit(n / 16), HexDigit(n % 16)] + rest;
      assert HexValue('0') == Some(0) && u[4..] == rest;
      assert Hex4(u) == Some(n);
      assert t[1..][1..] == u;
      assert ReadEscape(t[1..]) == Some((c, rest));
    } else if c == '\"' || c == '\\' || c < ' ' {
      assert t[1..][1..] == rest;
      assert ReadEscape(t[1..]) == Some((c, rest));
    } else {
      assert t[1..] == rest;
    }
  }

  lemma {:induction false} StringRoundTrip(s: string, rest: string)
    ensures ReadString(EscapedAll(s) + "\"" + rest) == Some((s, rest))
  {
    if s == [] {
      var t := EscapedAll(s) + "\"" + rest;
      assert t[0] == '\"' && t[1..] == rest;
    } else {
      StringRoundTrip(s[1..], rest);
      var tail := EscapedAll(s[1..]) + "\"" + rest;
      EscapeRoundTrip(s[0], tail);
      assert EscapedAll(s) + "\"" + rest == Escaped(s[0]) + tail;
      assert s == [s[0]] + s[1..];
    }
  }

  // ----- Numbers -----

  predicate IsDigit(c: char) { '0' <= c <= '9' }

  function Digits(n: nat): (r: string)
    ensures |r| > 0
  {
    if n < 10 then [(48 + n) as char] else Digits(n / 10) + [(48 + n % 10) as char]
  }

  function ReadDigits(s: string, value: nat): (r: (nat, string))
    ensures |r.1| <= |s|
  {
    if s == [] || !IsDigit(s[0]) then (value, s)
    else ReadDigits(s[1..], 10 * value + (s[0] as int - 48))
  }

  /** A nonnegative integer without leading zeros, fraction or exponent. */
  function ReadNumber(s: string): (r: Option<(nat, string)>)
    ensures r.Some? ==> |r.value.1| < |s|
  {
    if s == [] || !IsDigit(s[0]) then None
    else if s[0] == '0' && |s| > 1 && IsDigit(s[1]) then None
    else
      var r := ReadDigits(s[1..], s[0] as int - 48);
      if r.1 != [] && (r.1[0] == '.' || r.1[0] == 'e' || r.1[0] == 'E') then None
      else if r.0 > MAX_SAFE_INTEGER then None
      else Some(r)
  }

  ghost predicate AllDigits(s: string) { forall i :: 0 <= i < |s| ==> IsDigit(s[i]) }

  /** The value of a run of digits. */
  function ValueOf(s: string, value: nat): nat
    requires forall i :: 0 <= i < |s| ==> IsDigit(s[i])
  {
    if s == [] then value else assert IsDigit(s[|s| - 1]); 10 * ValueOf(s[..|s| - 1], value) + (s[|s| - 1] as int - 48)
  }

  lemma {:induction false} DigitsFacts(n: nat)
    ensures AllDigits(Digits(n)) && ValueOf(Digits(n), 0) == n
    ensures (Digits(n)[0] == '0') == (n == 0) && (n < 10 ==> |Digits(n)| == 1)
  {
    if n >= 10 {
      DigitsFacts(n / 10);
      assert Digits(n)[..|Digits(n)| - 1] == Digits(n / 10);
    } else {
      assert Digits(n)[..0] == [];
    }
  }

  lemma {:induction false} ValueFromFront(s: string, value: nat)
    requires s != [] && AllDigits(s)
    ensures ValueOf(s, value) == ValueOf(s[1..], 10 * value + (s[0] as int - 48))
    decreases |s|
  {
    var front := s[..|s| - 1];
    if front != [] {
      ValueFromFront(front, value);
      assert s[1..][..|s| - 2] == front[1..];
    } else {
      assert s[1..] == [];
    }
  }

  lemma {:induction false} ReadDigitsAll(s: string, value: nat, rest: string)
    requires AllDigits(s) && (rest == [] || !IsDigit(rest[0]))
    ensures ReadDigits(s + rest, value) == (ValueOf(s, value), rest)
    decreases |s|
  {
    if s == [] {
      assert s + rest == rest;
    } else {
      ValueFromFront(s, value);
      assert (s + rest)[1..] == s[1..] + rest;
      ReadDigitsAll(s[1..], 10 * value + (s[0] as int - 48), rest);
    }
  }

  predicate Delimited(rest: string) { rest == [] || rest[0] == ',' || rest[0] == ']' || rest[0] == '}' }

  lemma NumberRoundTrip(n: nat, rest: string)
    requires n <= MAX_SAFE_INTEGER && Delimited(rest)
    ensures ReadNumber(Digits(n) + rest) == Some((n, rest))
  {
    hide Digits, ValueOf, ReadDigits;
    DigitsFacts(n);
    var s := Digits(n);
    assert IsDigit(s[0]);
    assert (s + rest)[1..] == s[1..] + rest;
    assert s + rest == [s[0]] + (s[1..] + rest);
    ValueFromFront(s, 0);
    ReadDigitsAll(s[1..], s[0] as int - 48, rest);
    if s[0] == '0' {
      assert s[1..] == [] && (rest != [] ==> (s + rest)[1] == rest[0]);
    }
  }
}

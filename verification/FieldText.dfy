/** Text of governed fields: names, digests and plain strings as
    ccf/governance/constitution.js and crates/adns-auth/src/schema.rs accept them,
    and socket addresses as crates/adns-ccf/src/lib.rs does. */
module FieldText {
  import opened JsonText

  predicate IsHexDigest(s: string) {
    |s| == 64 && forall i :: 0 <= i < 64 ==> IsDigit(s[i]) || 'a' <= s[i] <= 'f'
  }

  /** `adnsString`: some text without control characters and spaces; JavaScript
      counts its length in UTF-16 code units. */
  predicate PlainString(s: string, maximum: nat) {
    s != "" && |Utf16(s)| <= maximum && forall c :: c in s ==> '!' <= c && c != '\U{7f}'
  }

  // ----- Names -----

  function SplitDots(s: string): (r: seq<string>)
    ensures r != []
  {
    if s == "" then [""]
    else
      var rest := SplitDots(s[1..]);
      if s[0] == '.' then [""] + rest else [[s[0]] + rest[0]] + rest[1..]
  }

  predicate LabelOk(l: string) {
    && 1 <= |l| <= 63 && l[0] != '-' && l[|l| - 1] != '-'
    && forall c :: c in l ==> 'a' <= c <= 'z' || IsDigit(c) || c == '-'
  }

  /** `adnsName` and `validate_name`: an absolute lower-case host name, not the root. */
  predicate CanonicalName(s: string) {
    && 1 <= |s| <= 254 && s[|s| - 1] == '.' && s != "."
    && forall l :: l in SplitDots(s[..|s| - 1]) ==> LabelOk(l)
  }

  // ----- Socket addresses -----

  function Value(s: string): nat
    requires forall i :: 0 <= i < |s| ==> IsDigit(s[i])
  {
    if s == "" then 0
    else
      assert IsDigit(s[|s| - 1]);
      10 * Value(s[..|s| - 1]) + (s[|s| - 1] as int - '0' as int)
  }

  /** A number as it is printed: no leading zero, at most `digits` digits. */
  predicate Decimal(s: string, digits: nat, least: nat, most: nat) {
    && 1 <= |s| <= digits && (forall i :: 0 <= i < |s| ==> IsDigit(s[i])) && (|s| == 1 || s[0] != '0')
    && least <= Value(s) <= most
  }

  predicate Octet(s: string) { Decimal(s, 3, 0, 255) }

  predicate Quad(s: string) {
    exists i, j, k :: 0 <= i < j < k < |s| && Quartered(s, i, j, k)
  }

  predicate Quartered(s: string, i: nat, j: nat, k: nat)
    requires i < j < k < |s|
  {
    && s[i] == '.' && s[j] == '.' && s[k] == '.'
    && Octet(s[..i]) && Octet(s[i + 1..j]) && Octet(s[j + 1..k]) && Octet(s[k + 1..])
  }

  /** An IPv6 address in brackets; `ipv6Ok` is whether it is printed as it is written. */
  predicate Bracketed(ipv6Ok: string -> bool, s: string) {
    2 <= |s| <= 64 && s[0] == '[' && (forall c :: c in s ==> '!' <= c <= '~') && ipv6Ok(s)
  }

  predicate AddressSplit(ipv6Ok: string -> bool, s: string, i: nat)
    requires i < |s|
  {
    s[i] == ':' && (Quad(s[..i]) || Bracketed(ipv6Ok, s[..i])) && Decimal(s[i + 1..], 5, 1, 65535)
  }

  /** A numeric socket address with a port, in canonical form. */
  predicate SocketAddress(ipv6Ok: string -> bool, s: string) {
    exists i :: 0 <= i < |s| && AddressSplit(ipv6Ok, s, i)
  }

  /** It starts with a digit or a bracket: a host name is no socket address. */
  lemma AddressStart(ipv6Ok: string -> bool, s: string)
    requires SocketAddress(ipv6Ok, s)
    ensures s != "" && (IsDigit(s[0]) || s[0] == '[')
  {
    hide Value;
    var i :| 0 <= i < |s| && AddressSplit(ipv6Ok, s, i);
    var host := s[..i];
    if Quad(host) {
      var a, b, c :| 0 <= a < b < c < |host| && Quartered(host, a, b, c);
      assert IsDigit(host[..a][0]);
    }
  }

  lemma {:induction false} NarrowUnits(s: string)
    requires forall c :: c in s ==> '!' <= c <= '~'
    ensures |Utf16(s)| == |s|
  {
    if s != "" {
      assert s[0] in s && forall c :: c in s[1..] ==> c in s;
      NarrowUnits(s[1..]);
    }
  }

  /** Printable ASCII is plain; what starts with a letter is no socket address. */
  lemma LettersArePlain(ipv6Ok: string -> bool, s: string)
    requires 0 < |s| <= 128 && 'a' <= s[0] <= 'z' && forall i :: 0 <= i < |s| ==> '!' <= s[i] <= '~'
    ensures PlainString(s, 128) && !SocketAddress(ipv6Ok, s)
  {
    hide SocketAddress;
    NarrowUnits(s);
    if SocketAddress(ipv6Ok, s) {
      AddressStart(ipv6Ok, s);
    }
  }

  lemma QuadIsNarrow(s: string)
    requires Quad(s)
    ensures |s| <= 15 && forall c :: c in s ==> '!' <= c <= '~'
  {
    hide Value;
    var i, j, k :| 0 <= i < j < k < |s| && Quartered(s, i, j, k);
    forall n | 0 <= n < |s| ensures '!' <= s[n] <= '~' {
      assert n < i ==> s[n] == s[..i][n];
      assert i < n < j ==> s[n] == s[i + 1..j][n - i - 1];
      assert j < n < k ==> s[n] == s[j + 1..k][n - j - 1];
      assert k < n ==> s[n] == s[k + 1..][n - k - 1];
    }
  }

  /** Governance accepts the text of every socket address. */
  lemma AddressIsPlain(ipv6Ok: string -> bool, s: string)
    requires SocketAddress(ipv6Ok, s)
    ensures PlainString(s, 128)
  {
    hide Value, Quad;
    var i :| 0 <= i < |s| && AddressSplit(ipv6Ok, s, i);
    var host, port := s[..i], s[i + 1..];
    if Quad(host) {
      QuadIsNarrow(host);
    }
    assert s == host + [':'] + port;
    forall c | c in s ensures '!' <= c <= '~' {
      assert c in host || c == ':' || c in port;
    }
    NarrowUnits(s);
  }
}

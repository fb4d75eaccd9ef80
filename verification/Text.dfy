/** Strings in the order Rust and JavaScript key tables yield them. */
module Text {
  import opened Order

  predicate CharLess(a: char, b: char) { a < b }

  predicate TextLess(a: string, b: string) { LexLess(CharLess, a, b) }

  lemma TextOrder()
    ensures StrictTotal<string>(TextLess)
  {
    LexStrictTotal(CharLess, TextLess);
  }

  function SortedText(s: set<string>): (r: seq<string>)
    ensures Sorted(TextLess, r) && |r| == |s|
    ensures forall x :: x in r <==> x in s
  {
    TextOrder();
    Enumerate(TextLess, s)
  }
}

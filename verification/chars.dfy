/**
  The character classification the tokenizer relies on.

  The source calls Rust's Unicode predicates `char::is_whitespace`,
  `char::is_alphabetic`, `char::is_numeric` and `char::is_alphanumeric`.
  The model keeps the first three abstract, as fields of a `Classes`
  value, and states the two facts about them the tokenizer's properties
  need in `Valid`.
*/
module CharClasses {

  datatype Classes = Classes(
    isWhitespace: char -> bool,
    isAlphabetic: char -> bool,
    isNumeric: char -> bool)
  {
    /** `char::is_alphanumeric` is, by its definition, alphabetic or numeric. */
    predicate IsAlphanumeric(c: char) {
      isAlphabetic(c) || isNumeric(c)
    }

    /** What Unicode guarantees and the model assumes: no whitespace
        character is alphanumeric, and the ASCII capitals are alphabetic. */
    ghost predicate Valid() {
      && (forall c :: isWhitespace(c) ==> !IsAlphanumeric(c))
      && (forall c | 'A' <= c <= 'Z' :: isAlphabetic(c))
    }
  }

  predicate IsAsciiLower(c: char) {
    'a' <= c <= 'z'
  }

  /** `char::to_ascii_uppercase`: only `a`-`z` change. */
  function AsciiUpper(c: char): (u: char)
    ensures !IsAsciiLower(u)
    ensures !IsAsciiLower(c) ==> u == c
    ensures IsAsciiLower(c) ==> 'A' <= u <= 'Z' && u as int - 'A' as int == c as int - 'a' as int
  {
    if IsAsciiLower(c) then (c as int - 32) as char else c
  }

  /** Upper-cases every character of a slice, as the `.map(..).collect()`
      chain of the alphabetic branch does. */
  function UpperAll(s: seq<char>): (u: seq<char>)
    ensures |u| == |s|
    ensures forall i | 0 <= i < |s| :: u[i] == AsciiUpper(s[i])
  {
    if s == [] then [] else [AsciiUpper(s[0])] + UpperAll(s[1..])
  }

  /** Upper-casing an alphanumeric character yields an alphanumeric one. */
  lemma UpperKeepsAlphanumeric(cc: Classes, c: char)
    requires cc.Valid()
    requires cc.IsAlphanumeric(c)
    ensures cc.IsAlphanumeric(AsciiUpper(c))
  {
    if IsAsciiLower(c) {
      var u := AsciiUpper(c);
      assert 'A' <= u <= 'Z';
    }
  }
}

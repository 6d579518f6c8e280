/** Character classes used by the regular expressions of the text normaliser. */
module Chars {

  /** JavaScript's `\s`, which is also the set `String.prototype.trim`
      strips: the ECMAScript WhiteSpace and LineTerminator code points. */
  predicate IsWs(c: char) {
    var n := c as int;
    if n < 0x80 then n == 0x20 || 0x09 <= n <= 0x0D
    else
      || n == 0xA0 || n == 0x1680
      || (0x2000 <= n <= 0x200A)
      || n == 0x2028 || n == 0x2029 || n == 0x202F || n == 0x205F
      || n == 0x3000 || n == 0xFEFF
  }

  predicate IsUpper(c: char) {
    'A' <= c <= 'Z'
  }

  predicate IsLower(c: char) {
    'a' <= c <= 'z'
  }

  /** The class `[a-zA-Z]`. */
  predicate IsLetter(c: char) {
    IsUpper(c) || IsLower(c)
  }

  /** `toLowerCase` restricted to ASCII: `A`-`Z` map to `a`-`z`, every other
      character is left alone. */
  function ToLower(c: char): (d: char)
    ensures !IsUpper(d)
    ensures IsLetter(c) <==> IsLetter(d)
    ensures IsWs(c) <==> IsWs(d)
    ensures d == '<' <==> c == '<'
    ensures !IsUpper(c) ==> d == c
    ensures IsUpper(c) ==> IsLower(d) && ToUpper(d) == c
  {
    if IsUpper(c) then (c as int - 'A' as int + 'a' as int) as char else c
  }

  /** The inverse case map on ASCII: `a`-`z` map to `A`-`Z`, every other
      character is left alone. */
  function ToUpper(c: char): (d: char)
    ensures !IsLower(d)
    ensures !IsLower(c) ==> d == c
    ensures IsLower(c) ==> IsUpper(d)
  {
    if IsLower(c) then (c as int - 'a' as int + 'A' as int) as char else c
  }

  /** Lower-casing undoes upper-casing on `a`-`z`, so together with the
      round trip in `ToLower`'s contract the two maps are inverse bijections
      between the two alphabets. */
  lemma ToLowerUndoesUpper(c: char)
    requires IsLower(c)
    ensures ToLower(ToUpper(c)) == c
  {
  }
}

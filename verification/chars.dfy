/** Character-level helpers shared by the rules: ASCII lowercasing (the
    model of `toLowerCase`) and the placeholder-run test (the model of the
    regular expression `/^¤+$/`). */
module Chars {

  /** The reserved character that earlier passes use to blank out ignored text. */
  const Sentinel: char := '¤'

  /** A transformation placeholder: one or more sentinel characters and nothing else. */
  predicate IsPlaceholder(s: string) {
    |s| > 0 && forall i :: 0 <= i < |s| ==> s[i] == Sentinel
  }

  predicate IsUpperAscii(c: char) {
    'A' <= c <= 'Z'
  }

  /** Lowercases one ASCII letter and leaves every other character alone. */
  function LowerChar(c: char): (r: char)
    ensures !IsUpperAscii(r)
    ensures IsUpperAscii(c) ==> 'a' <= r <= 'z' && r as int - 'a' as int == c as int - 'A' as int
    ensures !IsUpperAscii(c) ==> r == c
  {
    if IsUpperAscii(c) then (c as int - 'A' as int + 'a' as int) as char else c
  }

  /** `s.toLowerCase()` restricted to ASCII: the same length, each character lowered. */
  function ToLower(s: string): (r: string)
    ensures |r| == |s|
    ensures forall i :: 0 <= i < |s| ==> r[i] == LowerChar(s[i])
  {
    if s == [] then [] else [LowerChar(s[0])] + ToLower(s[1..])
  }

  /** Reference definition of case-insensitive equality, character by character. */
  predicate EqualsIgnoreCase(a: string, b: string) {
    |a| == |b| && forall i :: 0 <= i < |a| ==> LowerChar(a[i]) == LowerChar(b[i])
  }

  /** Comparing lowercased strings is exactly case-insensitive equality. */
  lemma ToLowerEqualIff(a: string, b: string)
    ensures ToLower(a) == ToLower(b) <==> EqualsIgnoreCase(a, b)
  {
  }

  /** The sentinel is not an ASCII letter, so lowercasing neither creates nor
      destroys a placeholder run. */
  lemma PlaceholderUnderLower(s: string)
    ensures IsPlaceholder(ToLower(s)) <==> IsPlaceholder(s)
  {
  }
}

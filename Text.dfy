/** Character and string helpers used by the naming rules of the build shim.
    Case conversion is modelled on ASCII letters only: the invariant-culture
    conversions of .NET also map other alphabets, which this model does not. */
module Text {

  predicate IsUpper(c: char) { 'A' <= c <= 'Z' }

  predicate IsLower(c: char) { 'a' <= c <= 'z' }

  /** char.ToLowerInvariant on ASCII. */
  function LowerChar(c: char): (r: char)
    ensures !IsUpper(r)
    ensures IsUpper(c) ==> IsLower(r)
    ensures !IsUpper(c) ==> r == c
  {
    if IsUpper(c) then (c as int + 32) as char else c
  }

  /** char.ToUpperInvariant on ASCII. */
  function UpperChar(c: char): (r: char)
    ensures !IsLower(r)
    ensures IsLower(c) ==> IsUpper(r)
    ensures !IsLower(c) ==> r == c
  {
    if IsLower(c) then (c as int - 32) as char else c
  }

  /** The per-character test of an ordinal, case-insensitive comparison. */
  predicate EqualsIgnoreCase(a: char, b: char) {
    UpperChar(a) == UpperChar(b)
  }

  /** string.ToLowerInvariant on ASCII: lowered character by character. */
  function Lower(s: string): (r: string)
    ensures |r| == |s|
    ensures forall i :: 0 <= i < |s| ==> r[i] == LowerChar(s[i])
  {
    if |s| == 0 then [] else [LowerChar(s[0])] + Lower(s[1..])
  }

  /** No character of s is an upper-case letter. */
  predicate NoUpper(s: string) {
    forall i :: 0 <= i < |s| ==> !IsUpper(s[i])
  }

  /** string.Replace(char, char): every occurrence of old replaced by new. */
  function ReplaceChar(s: string, oldChar: char, newChar: char): (r: string)
    ensures |r| == |s|
    ensures forall i :: 0 <= i < |s| ==> r[i] == (if s[i] == oldChar then newChar else s[i])
  {
    if |s| == 0 then [] else [if s[0] == oldChar then newChar else s[0]] + ReplaceChar(s[1..], oldChar, newChar)
  }

  /** string.EndsWith(suffix, StringComparison.OrdinalIgnoreCase); an exact
      suffix always matches. */
  predicate EndsWithIgnoreCase(s: string, suffix: string)
    ensures |suffix| <= |s| && s[|s| - |suffix|..] == suffix ==> EndsWithIgnoreCase(s, suffix)
  {
    |suffix| <= |s| &&
    forall i :: 0 <= i < |suffix| ==> EqualsIgnoreCase(s[|s| - |suffix| + i], suffix[i])
  }

  /** Lowering twice is lowering once. */
  lemma LowerIdempotent(s: string)
    ensures Lower(Lower(s)) == Lower(s)
  {
  }

  /** A string is its own lower-case form exactly when it has no upper-case letter. */
  lemma LowerFixedPoint(s: string)
    ensures Lower(s) == s <==> NoUpper(s)
  {
    if Lower(s) == s {
      forall i | 0 <= i < |s| ensures !IsUpper(s[i]) {
        assert s[i] == Lower(s)[i];
      }
    }
  }

  /** After the replacement the replaced character no longer occurs. */
  lemma ReplaceCharRemoves(s: string, oldChar: char, newChar: char)
    requires oldChar != newChar
    ensures oldChar !in ReplaceChar(s, oldChar, newChar)
  {
    var r := ReplaceChar(s, oldChar, newChar);
    assert forall i :: 0 <= i < |r| ==> r[i] != oldChar;
  }

  /** Replacing a character that does not occur changes nothing. */
  lemma ReplaceCharAbsent(s: string, oldChar: char, newChar: char)
    requires oldChar !in s
    ensures ReplaceChar(s, oldChar, newChar) == s
  {
    var r := ReplaceChar(s, oldChar, newChar);
    forall i | 0 <= i < |s| ensures r[i] == s[i] {
      assert s[i] in s;
    }
  }
}

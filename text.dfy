/**
 * ASCII character classes, lower-casing, and the two regular-expression
 * searches the backend relies on: `re.search` for a single character class,
 * and the case-insensitive `$regex` substring match of the doctor directory.
 */
module Text {

  predicate IsUpper(c: char) { 'A' <= c <= 'Z' }

  predicate IsLower(c: char) { 'a' <= c <= 'z' }

  /** The ASCII reading of `\d`. */
  predicate IsDigit(c: char) { '0' <= c <= '9' }

  predicate IsLetter(c: char) { IsUpper(c) || IsLower(c) }

  /** The class `[@$!%*?&]` of the password policy. */
  predicate IsSpecial(c: char) {
    c == '@' || c == '$' || c == '!' || c == '%' || c == '*' || c == '?' || c == '&'
  }

  predicate IsAscii(c: char) { c < 128 as char }

  /**
   * `re.search(r'[...]', s) is not None` for a pattern that is one character
   * class: the search scans `s` from the left for a character in the class.
   */
  function Search(s: string, inClass: char -> bool): (found: bool)
    ensures found <==> exists i :: 0 <= i < |s| && inClass(s[i])
  {
    if s == [] then false
    else if inClass(s[0]) then true
    else
      var rest := Search(s[1..], inClass);
      assert forall i :: 1 <= i < |s| ==> s[i] == s[1..][i - 1];
      rest
  }

  /** ASCII lower-casing of one character. */
  function LowerChar(c: char): (l: char)
    ensures IsUpper(c) ==> IsLower(l) && l as int - 'a' as int == c as int - 'A' as int
    ensures !IsUpper(c) ==> l == c
  {
    if IsUpper(c) then (c as int + 32) as char else c
  }

  /** `str.lower()` restricted to ASCII: only `A`-`Z` change. */
  function ToLower(s: string): (r: string)
    ensures |r| == |s|
    ensures forall i :: 0 <= i < |s| ==> r[i] == LowerChar(s[i])
  {
    seq(|s|, i requires 0 <= i < |s| => LowerChar(s[i]))
  }

  /** A lower-cased text has no upper-case letter left. */
  predicate IsLowerCased(s: string) {
    forall i :: 0 <= i < |s| ==> !IsUpper(s[i])
  }

  lemma ToLowerIsLowerCased(s: string)
    ensures IsLowerCased(ToLower(s))
    ensures ToLower(ToLower(s)) == ToLower(s)
  {
    var l := ToLower(s);
    forall i | 0 <= i < |s| ensures !IsUpper(l[i]) && LowerChar(l[i]) == l[i] {
      assert l[i] == LowerChar(s[i]);
    }
  }

  /** Lower-casing leaves a text without upper-case letters as it is. */
  lemma ToLowerOfLowerCased(s: string)
    requires IsLowerCased(s)
    ensures ToLower(s) == s
  {
  }

  /** The case-insensitive comparison of `pattern` with `text` at offset `i`. */
  predicate MatchesAt(text: string, pattern: string, i: int)
    requires 0 <= i <= |text| - |pattern|
  {
    ToLower(text[i..i + |pattern|]) == ToLower(pattern)
  }

  /**
   * `{'$regex': pattern, '$options': 'i'}` read literally: `pattern` occurs in
   * `text`, ignoring ASCII case.
   */
  predicate ContainsIgnoreCase(text: string, pattern: string) {
    exists i :: 0 <= i <= |text| - |pattern| && MatchesAt(text, pattern, i)
  }
}

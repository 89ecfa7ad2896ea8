/** The character classes and the two password-strength patterns that the
    server DTOs and the web forms share. Strings are taken to hold no line
    terminators, so the regular-expression `.` matches every character. */
module CharClasses {

  /** `[a-z]` */
  predicate IsLower(c: char) { 'a' <= c <= 'z' }

  /** `[A-Z]` */
  predicate IsUpper(c: char) { 'A' <= c <= 'Z' }

  /** `\d`, which in JavaScript is `[0-9]` only. */
  predicate IsDigit(c: char) { '0' <= c <= '9' }

  /** `[@$!%*?&]` */
  predicate IsSpecial(c: char)
  {
    c == '@' || c == '$' || c == '!' || c == '%' || c == '*' || c == '?' || c == '&'
  }

  /** `[a-zA-Z0-9_]` */
  predicate IsWordChar(c: char) { IsLower(c) || IsUpper(c) || IsDigit(c) || c == '_' }

  /** `[A-Za-z\d@$!%*?&]` */
  predicate IsStrengthChar(c: char) { IsLower(c) || IsUpper(c) || IsDigit(c) || IsSpecial(c) }

  /** `/^[a-zA-Z0-9_]+$/.test(s)` */
  predicate IsWord(s: string)
  {
    |s| >= 1 && forall i :: 0 <= i < |s| ==> IsWordChar(s[i])
  }

  /** The four look-aheads `(?=.*[a-z])(?=.*[A-Z])(?=.*\d)(?=.*[@$!%*?&])`
      tried at the start of `s`. */
  predicate HasAllClasses(s: string)
  {
    && (exists i :: 0 <= i < |s| && IsLower(s[i]))
    && (exists i :: 0 <= i < |s| && IsUpper(s[i]))
    && (exists i :: 0 <= i < |s| && IsDigit(s[i]))
    && (exists i :: 0 <= i < |s| && IsSpecial(s[i]))
  }

  /** The pattern matches at position `p`: the look-aheads hold for the rest
      of the string from `p`, and `s[p]` is in the final class. */
  predicate StrengthAt(s: string, p: nat)
  {
    p < |s| && IsStrengthChar(s[p]) && HasAllClasses(s[p..])
  }

  /** The server's pattern, anchored with `^`: it can only match at 0. */
  predicate AnchoredStrength(s: string)
  {
    StrengthAt(s, 0)
  }

  /** The web form's pattern, without `^`: `test` succeeds if it matches at
      any position. */
  predicate UnanchoredStrength(s: string)
  {
    exists p: nat :: p < |s| && StrengthAt(s, p)
  }

  /** What the look-aheads find in a suffix, the whole string has. */
  lemma SuffixClasses(s: string, p: nat)
    requires p <= |s| && HasAllClasses(s[p..])
    ensures HasAllClasses(s)
  {
    var t := s[p..];
    var a :| 0 <= a < |t| && IsLower(t[a]);
    var b :| 0 <= b < |t| && IsUpper(t[b]);
    var c :| 0 <= c < |t| && IsDigit(t[c]);
    var d :| 0 <= d < |t| && IsSpecial(t[d]);
    assert IsLower(s[p + a]) && IsUpper(s[p + b]) && IsDigit(s[p + c]) && IsSpecial(s[p + d]);
  }

  /** A string either pattern accepts holds a lowercase letter, an uppercase
      letter, a digit and a special character. */
  lemma UnanchoredHasAllClasses(s: string)
    requires UnanchoredStrength(s)
    ensures HasAllClasses(s)
  {
    var p: nat :| p < |s| && StrengthAt(s, p);
    SuffixClasses(s, p);
  }

  /** The anchored pattern is the stricter one. */
  lemma AnchoredImpliesUnanchored(s: string)
    requires AnchoredStrength(s)
    ensures UnanchoredStrength(s)
  {
    assert StrengthAt(s, 0);
  }

  /** The unanchored pattern accepts exactly the strings that hold all four
      classes: the earliest of the four witnesses is itself in the final
      class, and the other three lie after it. */
  lemma UnanchoredIsAllClasses(s: string)
    ensures UnanchoredStrength(s) <==> HasAllClasses(s)
  {
    if UnanchoredStrength(s) {
      UnanchoredHasAllClasses(s);
    }
    if HasAllClasses(s) {
      var a :| 0 <= a < |s| && IsLower(s[a]);
      var b :| 0 <= b < |s| && IsUpper(s[b]);
      var c :| 0 <= c < |s| && IsDigit(s[c]);
      var d :| 0 <= d < |s| && IsSpecial(s[d]);
      var p := Min(Min(a, b), Min(c, d));
      var t := s[p..];
      assert IsLower(t[a - p]) && IsUpper(t[b - p]) && IsDigit(t[c - p]) && IsSpecial(t[d - p]);
      assert IsStrengthChar(s[p]);
      assert StrengthAt(s, p);
    }
  }

  function Min(x: nat, y: nat): (m: nat)
    ensures m <= x && m <= y && (m == x || m == y)
  {
    if x <= y then x else y
  }
}

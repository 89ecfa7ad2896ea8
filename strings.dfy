/** String operations of the JavaScript runtime that the core relies on:
    `String.prototype.split` with a one-character separator, `trim`,
    the `\s` character class, `startsWith`, and the `||` between an empty
    string and a fallback. Strings are sequences of characters
    (`seq<char>`), not of UTF-16 code units; line terminators are treated
    like any other character except where `\s` and `trim` name them. */
module Strings {

  /** The characters JavaScript's `trim` removes and its regex class `\s`
      matches: WhiteSpace and LineTerminator of ECMA-262. */
  predicate IsWhitespace(c: char)
  {
    || c == ' ' || c == '\t' || c == '\n' || c == '\r'
    || c == '\U{000B}' || c == '\U{000C}' || c == '\U{00A0}' || c == '\U{FEFF}'
    || c == '\U{1680}' || ('\U{2000}' <= c <= '\U{200A}')
    || c == '\U{2028}' || c == '\U{2029}' || c == '\U{202F}' || c == '\U{205F}'
    || c == '\U{3000}'
  }

  /** Where the first field of `s` ends: the position of the first
      separator, or the length of `s` when it has none. */
  function FieldEnd(s: string, sep: char): (i: nat)
    ensures i <= |s| && (i < |s| ==> s[i] == sep)
    decreases |s|
  {
    if s == [] || s[0] == sep then 0 else 1 + FieldEnd(s[1..], sep)
  }

  /** The first field holds no separator. */
  lemma {:induction false} FieldEndFirst(s: string, sep: char)
    ensures sep !in s[..FieldEnd(s, sep)]
    decreases |s|
  {
    if s != [] && s[0] != sep {
      FieldEndFirst(s[1..], sep);
      assert s[..FieldEnd(s, sep)] == [s[0]] + s[1..][..FieldEnd(s[1..], sep)];
    }
  }

  /** A separator-free word followed by a separator is the first field. */
  lemma {:induction false} FieldEndAfter(w: string, t: string, sep: char)
    requires sep !in w
    ensures FieldEnd(w + [sep] + t, sep) == |w|
    decreases |w|
  {
    if w != [] {
      assert (w + [sep] + t)[1..] == w[1..] + [sep] + t;
      assert sep !in w[1..] by { assert w == [w[0]] + w[1..]; }
      FieldEndAfter(w[1..], t, sep);
    }
  }

  /** `s.split(sep)` for a one-character separator: the maximal runs of
      characters between separators, in order, including empty runs. */
  function Split(s: string, sep: char): (parts: seq<string>)
    ensures |parts| >= 1
    decreases |s|
  {
    var i := FieldEnd(s, sep);
    if i == |s| then [s] else [s[..i]] + Split(s[i + 1..], sep)
  }

  /** A string without the separator is its own single field. */
  lemma SplitNoSep(s: string, sep: char)
    ensures sep !in s ==> Split(s, sep) == [s]
  {
  }

  /** A separator-free word, a separator, then anything: the word is the
      first field. */
  lemma SplitWordSep(w: string, t: string, sep: char)
    requires sep !in w
    ensures Split(w + [sep] + t, sep) == [w] + Split(t, sep)
  {
    var s := w + [sep] + t;
    FieldEndAfter(w, t, sep);
    assert s[..|w|] == w && s[|w| + 1..] == t;
  }

  /** A split either is one field, or peels off the first field. */
  lemma SplitUnfold(s: string, sep: char)
    ensures var i := FieldEnd(s, sep);
      (i == |s| ==> sep !in s && Split(s, sep) == [s])
      && (i < |s| ==>
            && sep !in s[..i]
            && s == s[..i] + [sep] + s[i + 1..]
            && Split(s, sep) == [s[..i]] + Split(s[i + 1..], sep))
  {
    var i := FieldEnd(s, sep);
    FieldEndFirst(s, sep);
    if i == |s| {
      assert s[..i] == s;
    } else {
      SplitAtSep(s, i, sep);
    }
  }

  /** The first field is the text before the first separator. */
  lemma SplitHead(s: string, sep: char)
    ensures Split(s, sep)[0] == s[..FieldEnd(s, sep)]
    ensures sep !in Split(s, sep)[0]
  {
    SplitUnfold(s, sep);
    FieldEndFirst(s, sep);
  }

  lemma SplitAtSep(s: string, i: nat, sep: char)
    requires i < |s| && s[i] == sep
    ensures s == s[..i] + [sep] + s[i + 1..]
  {
    assert s[i..] == [sep] + s[i + 1..];
    assert s == s[..i] + s[i..];
  }

  /** No field of a split holds the separator. */
  lemma {:induction false} SplitFields(s: string, sep: char)
    ensures forall k :: 0 <= k < |Split(s, sep)| ==> sep !in Split(s, sep)[k]
    decreases |s|
  {
    var i := FieldEnd(s, sep);
    SplitUnfold(s, sep);
    if i < |s| {
      SplitFields(s[i + 1..], sep);
    }
  }

  /** There is one more field than there are separators. */
  lemma {:induction false} SplitCount(s: string, sep: char)
    ensures |Split(s, sep)| == multiset(s)[sep] + 1
    decreases |s|
  {
    var i := FieldEnd(s, sep);
    SplitUnfold(s, sep);
    if i < |s| {
      SplitCount(s[i + 1..], sep);
      assert multiset(s) == multiset(s[..i]) + multiset{sep} + multiset(s[i + 1..]) by {
        assert s == s[..i] + [sep] + s[i + 1..];
      }
      assert multiset(s[..i])[sep] == 0;
    } else {
      assert multiset(s)[sep] == 0;
    }
  }

  /** `parts.join(sep)`. */
  function Join(parts: seq<string>, sep: char): (s: string)
    requires |parts| >= 1
    decreases |parts|
  {
    if |parts| == 1 then parts[0] else parts[0] + [sep] + Join(parts[1..], sep)
  }

  /** How `Join` treats a first field followed by more. */
  lemma JoinCons(w: string, rest: seq<string>, sep: char)
    requires |rest| >= 1
    ensures Join([w] + rest, sep) == w + [sep] + Join(rest, sep)
  {
    assert ([w] + rest)[1..] == rest;
  }

  /** Joining the pieces of a split gives the original string back. */
  lemma {:induction false} JoinSplit(s: string, sep: char)
    ensures Join(Split(s, sep), sep) == s
    decreases |s|
  {
    var i := FieldEnd(s, sep);
    SplitUnfold(s, sep);
    if i < |s| {
      JoinSplit(s[i + 1..], sep);
      JoinCons(s[..i], Split(s[i + 1..], sep), sep);
    }
  }

  lemma ConsAssoc(h: string, ra: seq<string>, rb: seq<string>)
    ensures [h] + (ra + rb) == ([h] + ra) + rb
  {
  }

  /** A separator between two strings splits them apart. */
  lemma {:induction false} SplitConcat(a: string, b: string, sep: char)
    ensures Split(a + [sep] + b, sep) == Split(a, sep) + Split(b, sep)
    decreases |a|
  {
    var i := FieldEnd(a, sep);
    SplitUnfold(a, sep);
    if i == |a| {
      SplitWordSep(a, b, sep);
    } else {
      var h, rest := a[..i], a[i + 1..];
      assert a + [sep] + b == h + [sep] + (rest + [sep] + b);
      SplitWordSep(h, rest + [sep] + b, sep);
      SplitConcat(rest, b, sep);
      ConsAssoc(h, Split(rest, sep), Split(b, sep));
    }
  }

  /** Three separator-free fields joined by the separator split back apart. */
  lemma SplitThree(a: string, b: string, c: string, sep: char)
    requires sep !in a && sep !in b && sep !in c
    ensures Split(a + [sep] + b + [sep] + c, sep) == [a, b, c]
  {
    assert a + [sep] + b + [sep] + c == a + [sep] + (b + [sep] + c);
    SplitWordSep(a, b + [sep] + c, sep);
    SplitWordSep(b, c, sep);
    SplitNoSep(c, sep);
  }

  /** Splitting a join of separator-free fields gives the fields back. */
  lemma {:induction false} SplitJoin(parts: seq<string>, sep: char)
    requires |parts| >= 1
    requires forall i :: 0 <= i < |parts| ==> sep !in parts[i]
    ensures Split(Join(parts, sep), sep) == parts
    decreases |parts|
  {
    if |parts| > 1 {
      SplitJoin(parts[1..], sep);
      SplitWordSep(parts[0], Join(parts[1..], sep), sep);
      assert parts == [parts[0]] + parts[1..];
    } else {
      SplitNoSep(parts[0], sep);
    }
  }

  /** The prefix of `s` left after dropping leading whitespace. */
  function TrimStart(s: string): (r: string)
    ensures |r| <= |s| && r == s[|s| - |r|..]
    ensures forall i :: 0 <= i < |s| - |r| ==> IsWhitespace(s[i])
    ensures r == [] || !IsWhitespace(r[0])
  {
    if s != [] && IsWhitespace(s[0]) then TrimStart(s[1..]) else s
  }

  /** The string left after dropping trailing whitespace. */
  function TrimEnd(s: string): (r: string)
    ensures |r| <= |s| && r == s[..|r|]
    ensures forall i :: |r| <= i < |s| ==> IsWhitespace(s[i])
    ensures r == [] || !IsWhitespace(r[|r| - 1])
  {
    if s != [] && IsWhitespace(s[|s| - 1]) then TrimEnd(s[..|s| - 1]) else s
  }

  /** `s.trim()`. */
  function Trim(s: string): (r: string)
    ensures r == [] || (!IsWhitespace(r[0]) && !IsWhitespace(r[|r| - 1]))
    ensures s != [] && !IsWhitespace(s[0]) && !IsWhitespace(s[|s| - 1]) ==> r == s
  {
    TrimEnd(TrimStart(s))
  }

  /** `s.replace(/\s+/g, '')`: every whitespace character is removed. */
  function RemoveWhitespace(s: string): (r: string)
    ensures forall i :: 0 <= i < |r| ==> !IsWhitespace(r[i])
    ensures |r| <= |s|
    ensures (forall i :: 0 <= i < |s| ==> !IsWhitespace(s[i])) ==> r == s
  {
    if s == [] then []
    else if IsWhitespace(s[0]) then RemoveWhitespace(s[1..])
    else [s[0]] + RemoveWhitespace(s[1..])
  }

  /** Removing whitespace keeps every other character, in order. */
  lemma {:induction false} RemoveWhitespaceKeepsOthers(s: string, t: string)
    ensures RemoveWhitespace(s + t) == RemoveWhitespace(s) + RemoveWhitespace(t)
    decreases |s|
  {
    if s == [] {
      assert s + t == t;
    } else {
      assert (s + t)[1..] == s[1..] + t;
      RemoveWhitespaceKeepsOthers(s[1..], t);
    }
  }

  /** `s.startsWith(p)`. */
  predicate StartsWith(s: string, p: string)
  {
    |p| <= |s| && s[..|p|] == p
  }

  /** `value || fallback` on strings: the empty string is falsy. */
  function OrElse(value: string, fallback: string): (r: string)
    ensures value != [] ==> r == value
    ensures value == [] ==> r == fallback
  {
    if value != [] then value else fallback
  }
}

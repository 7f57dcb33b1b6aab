/** The string operations the pipeline relies on, written for Python's `str`
    semantics: `strip()`, `split(sep)`, `sep.join(...)`, `replace(old, new)`,
    `startswith(prefix)` and the code-point ordering used by `<` and `sorted`. */
module Text {

  /** The characters for which Python's `str.isspace()` holds, i.e. the ones
      `str.strip()` removes when called without arguments. */
  predicate IsSpace(c: char) {
    || ('\t' <= c <= '\r')
    || ('\U{1C}' <= c <= ' ')
    || c == '\U{85}' || c == '\U{A0}' || c == '\U{1680}'
    || ('\U{2000}' <= c <= '\U{200A}')
    || c == '\U{2028}' || c == '\U{2029}' || c == '\U{202F}' || c == '\U{205F}'
    || c == '\U{3000}'
  }

  /** A string that neither starts nor ends with a character of `space`. */
  predicate NoEdge(s: string, space: char -> bool) {
    |s| == 0 || (!space(s[0]) && !space(s[|s| - 1]))
  }

  /** A string that neither starts nor ends with whitespace. */
  predicate NoEdgeSpace(s: string) {
    NoEdge(s, IsSpace)
  }

  /** The number of `space` characters at the front of `s`. */
  function LeadingSpaces(s: string, space: char -> bool): (n: nat)
    ensures n <= |s|
    ensures forall i :: 0 <= i < n ==> space(s[i])
    ensures n < |s| ==> !space(s[n])
  {
    if |s| > 0 && space(s[0]) then 1 + LeadingSpaces(s[1..], space) else 0
  }

  /** The number of `space` characters at the back of `s`. */
  function TrailingSpaces(s: string, space: char -> bool): (n: nat)
    ensures n <= |s|
    ensures forall i :: |s| - n <= i < |s| ==> space(s[i])
    ensures n < |s| ==> !space(s[|s| - n - 1])
  {
    if |s| > 0 && space(s[|s| - 1]) then 1 + TrailingSpaces(s[..|s| - 1], space) else 0
  }

  /** The infix of `s` left after removing the characters of `space` at both
      ends. Every removed character is in `space` and the result has none at
      either end. */
  function StripBy(s: string, space: char -> bool): (r: string)
    ensures NoEdge(r, space)
    ensures LeadingSpaces(s, space) + |r| <= |s|
    ensures r == s[LeadingSpaces(s, space)..LeadingSpaces(s, space) + |r|]
    ensures forall i :: 0 <= i < LeadingSpaces(s, space) ==> space(s[i])
    ensures forall i :: LeadingSpaces(s, space) + |r| <= i < |s| ==> space(s[i])
  {
    var a := LeadingSpaces(s, space);
    if a == |s| then ""
    else
      var b := |s| - TrailingSpaces(s, space);
      s[a..b]
  }

  /** Python's `s.strip()`: the infix of `s` left after removing whitespace at
      both ends. Every removed character is whitespace and the result has none
      at either end. */
  function Strip(s: string): (r: string)
    ensures NoEdgeSpace(r)
    ensures LeadingSpaces(s, IsSpace) + |r| <= |s|
    ensures r == s[LeadingSpaces(s, IsSpace)..LeadingSpaces(s, IsSpace) + |r|]
    ensures forall i :: 0 <= i < LeadingSpaces(s, IsSpace) ==> IsSpace(s[i])
    ensures forall i :: LeadingSpaces(s, IsSpace) + |r| <= i < |s| ==> IsSpace(s[i])
  {
    StripBy(s, IsSpace)
  }

  /** strip() only removes characters. */
  lemma StripSubset(s: string)
    ensures forall c :: c in Strip(s) ==> c in s
  {
    var r := Strip(s);
    var a := LeadingSpaces(s, IsSpace);
    forall c | c in r ensures c in s {
      var k :| 0 <= k < |r| && r[k] == c;
      assert s[a + k] == c;
    }
  }

  /** A string made only of whitespace strips to the empty string, and a
      string with any other character does not. */
  lemma StripEmptyIffBlank(s: string)
    ensures Strip(s) == "" <==> forall i :: 0 <= i < |s| ==> IsSpace(s[i])
  {
    if Strip(s) != "" {
      var r := Strip(s);
      assert r[0] == s[LeadingSpaces(s, IsSpace)];
      assert !IsSpace(s[LeadingSpaces(s, IsSpace)]);
    }
  }

  /** A string with no `space` character at either end is left alone. */
  lemma StripByUnchanged(s: string, space: char -> bool)
    requires NoEdge(s, space)
    ensures StripBy(s, space) == s
  {
    if |s| > 0 {
      assert LeadingSpaces(s, space) == 0;
      assert TrailingSpaces(s, space) == 0;
    }
  }

  /** Two strings whose characters agree position by position on being
      space start with equally long runs of space. */
  lemma {:induction false} LeadingSpacesAgree(s: string, space: char -> bool, t: string, space': char -> bool)
    requires |s| == |t|
    requires forall i :: 0 <= i < |s| ==> (space(s[i]) <==> space'(t[i]))
    ensures LeadingSpaces(s, space) == LeadingSpaces(t, space')
  {
    if |s| > 0 && space(s[0]) {
      LeadingSpacesAgree(s[1..], space, t[1..], space');
    }
  }

  /** strip() is idempotent. */
  lemma StripIdempotent(s: string)
    ensures Strip(Strip(s)) == Strip(s)
  {
    StripByUnchanged(Strip(s), IsSpace);
  }

  /** Python's `s.startswith(c)` for a one-character prefix. */
  predicate StartsWith(s: string, c: char) {
    |s| > 0 && s[0] == c
  }

  /** The number of occurrences of `c` in `s`. */
  function Occurrences(s: string, c: char): nat
  {
    if |s| == 0 then 0 else (if s[0] == c then 1 else 0) + Occurrences(s[1..], c)
  }

  /** Python's `sep.join(parts)` for a one-character separator. */
  function Join(parts: seq<string>, sep: char): string
  {
    if |parts| == 0 then ""
    else if |parts| == 1 then parts[0]
    else parts[0] + [sep] + Join(parts[1..], sep)
  }

  /** Python's `s.split(sep)` for a one-character separator: the pieces between
      separators, empty pieces included, so there is always at least one. */
  function Split(s: string, sep: char): (parts: seq<string>)
    ensures |parts| == Occurrences(s, sep) + 1
    ensures forall i :: 0 <= i < |parts| ==> sep !in parts[i]
    ensures Join(parts, sep) == s
  {
    if |s| == 0 then [""]
    else
      var rest := Split(s[1..], sep);
      if s[0] == sep then [""] + rest
      else
        JoinExtendFirst(s[0], rest, sep);
        assert s == [s[0]] + s[1..];
        [[s[0]] + rest[0]] + rest[1..]
  }

  /** Putting a character in front of the first piece puts it in front of
      the joined string. */
  lemma JoinExtendFirst(c: char, parts: seq<string>, sep: char)
    requires |parts| >= 1
    ensures Join([[c] + parts[0]] + parts[1..], sep) == [c] + Join(parts, sep)
  {
    var ext := [[c] + parts[0]] + parts[1..];
    if |parts| > 1 {
      assert ext[1..] == parts[1..];
    }
  }

  /** Splitting a string that starts with a separator-free piece and a
      separator yields that piece followed by the split of the rest. */
  lemma {:induction false} SplitAfterPiece(p: string, rest: string, sep: char)
    requires sep !in p
    ensures Split(p + [sep] + rest, sep) == [p] + Split(rest, sep)
    decreases |p|
  {
    if |p| == 0 {
      assert p + [sep] + rest == [sep] + rest;
      assert ([sep] + rest)[1..] == rest;
    } else {
      var s := p + [sep] + rest;
      assert s[1..] == p[1..] + [sep] + rest;
      SplitAfterPiece(p[1..], rest, sep);
      assert [p[0]] + p[1..] == p;
    }
  }

  /** A separator-free string splits into itself alone. */
  lemma {:induction false} SplitPiece(p: string, sep: char)
    requires sep !in p
    ensures Split(p, sep) == [p]
    decreases |p|
  {
    if |p| > 0 {
      SplitPiece(p[1..], sep);
      assert [p[0]] + p[1..] == p;
    }
  }

  /** Joining separator-free pieces and splitting the result gives the pieces
      back: `split` undoes `join`, as `join` undoes `split` (the ensures of
      Split). */
  lemma {:induction false} SplitJoin(parts: seq<string>, sep: char)
    requires |parts| >= 1
    requires forall i :: 0 <= i < |parts| ==> sep !in parts[i]
    ensures Split(Join(parts, sep), sep) == parts
    decreases |parts|
  {
    if |parts| == 1 {
      SplitPiece(parts[0], sep);
    } else {
      SplitJoin(parts[1..], sep);
      SplitAfterPiece(parts[0], Join(parts[1..], sep), sep);
      assert [parts[0]] + parts[1..] == parts;
    }
  }

  /** Python's `s.replace(from, to)` for single characters. */
  function ReplaceChar(s: string, from: char, to: char): (r: string)
    ensures |r| == |s|
    ensures from != to ==> from !in r
    ensures forall i :: 0 <= i < |s| && s[i] != from ==> r[i] == s[i]
    ensures forall i :: 0 <= i < |s| && s[i] == from ==> r[i] == to
  {
    if |s| == 0 then ""
    else [if s[0] == from then to else s[0]] + ReplaceChar(s[1..], from, to)
  }

  /** Python's `s.replace(c, "")`: `s` with every `c` deleted, the other
      characters kept in order. */
  function RemoveChar(s: string, c: char): (r: string)
    ensures c !in r
    ensures |r| == |s| - Occurrences(s, c)
    ensures c !in s ==> r == s
  {
    if |s| == 0 then ""
    else if s[0] == c then RemoveChar(s[1..], c)
    else [s[0]] + RemoveChar(s[1..], c)
  }

  /** Deleting `c` from a concatenation deletes it from each part, so the
      kept characters stay in their order. */
  lemma {:induction false} RemoveCharAppend(a: string, b: string, c: char)
    ensures RemoveChar(a + b, c) == RemoveChar(a, c) + RemoveChar(b, c)
  {
    if |a| > 0 {
      RemoveCharAppend(a[1..], b, c);
      assert (a + b)[1..] == a[1..] + b;
    } else {
      assert a + b == b;
    }
  }

  /** A character other than `c` is kept, and `c` itself is dropped. */
  lemma RemoveCharSingle(x: char, c: char)
    ensures RemoveChar([x], c) == (if x == c then "" else [x])
  {
  }

  /** Python's `a < b` on strings: code-point lexicographic order, a proper
      prefix sorting first. */
  predicate StrLt(a: string, b: string)
  {
    if |a| == 0 then |b| > 0
    else |b| > 0 && (a[0] < b[0] || (a[0] == b[0] && StrLt(a[1..], b[1..])))
  }

  lemma {:induction false} StrLtIrreflexive(a: string)
    ensures !StrLt(a, a)
  {
    if |a| > 0 {
      StrLtIrreflexive(a[1..]);
    }
  }

  lemma {:induction false} StrLtTransitive(a: string, b: string, c: string)
    requires StrLt(a, b) && StrLt(b, c)
    ensures StrLt(a, c)
  {
    if |a| > 0 && a[0] == b[0] && b[0] == c[0] {
      StrLtTransitive(a[1..], b[1..], c[1..]);
    }
  }

  /** Any two different strings are ordered one way or the other. */
  lemma {:induction false} StrLtTotal(a: string, b: string)
    requires a != b
    ensures StrLt(a, b) || StrLt(b, a)
  {
    if |a| > 0 && |b| > 0 && a[0] == b[0] {
      assert a == [a[0]] + a[1..] && b == [b[0]] + b[1..];
      StrLtTotal(a[1..], b[1..]);
    }
  }

  lemma {:induction false} StrLtAsymmetric(a: string, b: string)
    requires StrLt(a, b)
    ensures !StrLt(b, a)
  {
    if |a| > 0 && |b| > 0 && a[0] == b[0] {
      StrLtAsymmetric(a[1..], b[1..]);
    }
  }
}

/**
 * The handful of Python string operations the converter is built from,
 * with the semantics CPython gives them: `str.replace` (all non-overlapping
 * occurrences, left to right), `str.endswith`, substring membership
 * (`a in b`), `str.split()` with no argument and `str.join`.
 */
module Text {

  /** `s.replace(pat, rep)`; the program never replaces an empty pattern. */
  function Replace(s: string, pat: string, rep: string): string
    requires |pat| > 0
    decreases |s|
  {
    if |s| < |pat| then s
    else if s[..|pat|] == pat then rep + Replace(s[|pat|..], pat, rep)
    else [s[0]] + Replace(s[1..], pat, rep)
  }

  /** `s.endswith(suffix)` */
  predicate EndsWith(s: string, suffix: string) {
    |suffix| <= |s| && s[|s| - |suffix|..] == suffix
  }

  /** `a in b` for two strings: `a` occurs somewhere in `b` (the empty string always does). */
  predicate IsSubstring(a: string, b: string)
    decreases |b|
  {
    a <= b || (b != [] && IsSubstring(a, b[1..]))
  }

  /** The characters `str.split()` treats as separators (ASCII whitespace). */
  predicate IsSpace(c: char) {
    c == ' ' || c == '\t' || c == '\n' || c == '\r' || c == '\U{000B}' || c == '\U{000C}'
  }

  /** Length of the leading run of non-space characters of `s`. */
  function WordLength(s: string): (n: nat)
    ensures n <= |s|
    ensures forall i :: 0 <= i < n ==> !IsSpace(s[i])
    ensures n < |s| ==> IsSpace(s[n])
  {
    if s == [] || IsSpace(s[0]) then 0 else 1 + WordLength(s[1..])
  }

  /** `s.split()`: the maximal runs of non-space characters, in order. */
  function Split(s: string): (parts: seq<string>)
    ensures forall k :: 0 <= k < |parts| ==> parts[k] != [] && forall c :: c in parts[k] ==> !IsSpace(c)
    ensures parts == [] <==> forall c :: c in s ==> IsSpace(c)
    decreases |s|
  {
    if s == [] then []
    else if IsSpace(s[0]) then Split(s[1..])
    else
      var n := WordLength(s);
      assert s[0] in s[..n];
      [s[..n]] + Split(s[n..])
  }

  /** `glue.join(parts)` */
  function Join(parts: seq<string>, glue: string): string {
    if parts == [] then ""
    else if |parts| == 1 then parts[0]
    else parts[0] + glue + Join(parts[1..], glue)
  }

  /** Replacing never brings in a character that neither `s` nor `rep` holds. */
  lemma {:induction false} ReplaceKeepsAbsent(s: string, pat: string, rep: string, c: char)
    requires |pat| > 0
    requires c !in s && c !in rep
    ensures c !in Replace(s, pat, rep)
    decreases |s|
  {
    if |s| < |pat| {
    } else if s[..|pat|] == pat {
      assert s[|pat|..] == s[|pat|..|s|];
      ReplaceKeepsAbsent(s[|pat|..], pat, rep, c);
    } else {
      ReplaceKeepsAbsent(s[1..], pat, rep, c);
    }
  }

  /** Replacing a one-character pattern by text without that character removes every occurrence. */
  lemma {:induction false} ReplaceRemoves(s: string, c: char, rep: string)
    requires c !in rep
    ensures c !in Replace(s, [c], rep)
    decreases |s|
  {
    if |s| < 1 {
    } else if s[..1] == [c] {
      ReplaceRemoves(s[1..], c, rep);
    } else {
      assert s[0] != c by { assert s[..1] == [s[0]]; }
      ReplaceRemoves(s[1..], c, rep);
    }
  }

  /** A replacement no longer than its pattern never lengthens the string. */
  lemma {:induction false} ReplaceShrinks(s: string, pat: string, rep: string)
    requires 0 < |pat| && |rep| <= |pat|
    ensures |Replace(s, pat, rep)| <= |s|
    decreases |s|
  {
    if |s| < |pat| {
    } else if s[..|pat|] == pat {
      ReplaceShrinks(s[|pat|..], pat, rep);
    } else {
      ReplaceShrinks(s[1..], pat, rep);
    }
  }

  /** A pattern whose first character does not occur leaves the string unchanged. */
  lemma {:induction false} ReplaceAbsent(s: string, pat: string, rep: string)
    requires |pat| > 0 && pat[0] !in s
    ensures Replace(s, pat, rep) == s
    decreases |s|
  {
    if |s| >= |pat| {
      assert s[..|pat|] != pat by { assert s[..|pat|][0] == s[0]; }
      ReplaceAbsent(s[1..], pat, rep);
    }
  }

  /** A non-empty substring starts with a character of the string it occurs in. */
  lemma {:induction false} SubstringStartsInside(a: string, b: string)
    ensures IsSubstring(a, b) && a != [] ==> a[0] in b
    decreases |b|
  {
    if IsSubstring(a, b) && a != [] && !(a <= b) {
      SubstringStartsInside(a, b[1..]);
    }
  }

  /** Joining one more part adds the glue and the part at the end. */
  lemma {:induction false} JoinSnoc(parts: seq<string>, last: string, glue: string)
    ensures Join(parts + [last], glue) == if parts == [] then last else Join(parts, glue) + glue + last
    decreases |parts|
  {
    if |parts| > 1 {
      assert (parts + [last])[1..] == parts[1..] + [last];
      JoinSnoc(parts[1..], last, glue);
    }
  }

  lemma {:induction false} WordLengthOfWord(w: string)
    requires forall c :: c in w ==> !IsSpace(c)
    ensures WordLength(w) == |w|
    decreases |w|
  {
    if w != [] {
      assert forall c :: c in w[1..] ==> c in w;
      WordLengthOfWord(w[1..]);
    }
  }

  /** A string without spaces splits into itself alone. */
  lemma SplitWord(w: string)
    requires w != [] && forall c :: c in w ==> !IsSpace(c)
    ensures Split(w) == [w]
  {
    WordLengthOfWord(w);
    assert w[..|w|] == w;
  }
}

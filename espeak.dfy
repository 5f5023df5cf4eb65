/**
 * The two eSpeak-specific string passes: `cleanup_espeak_entry`
 * (lexconvert.py:391-402), run on every conversion into eSpeak, and
 * `espeak_probably_right_already` (lexconvert.py:404-422), which decides
 * whether an existing eSpeak pronunciation already agrees with a new one.
 */
module Espeak {
  import opened Text

  /** Line 392: the mis-mapped "can" and the doubled g, everywhere in the string. */
  function FixReplacements(r: string): string {
    Replace(Replace(Replace(r, "k'a2n", "k'@n"), "ka2n", "k@n"), "gg", "g")
  }

  /**
   * Lines 393-399: the first matching suffix rule rewrites the end of the
   * entry; a string that matches none is returned unchanged.
   */
  function SuffixRule(r: string): (c: string)
    ensures |r| - 1 <= |c| <= |r|
    ensures |r| >= 3 ==> c[..|r| - 3] == r[..|r| - 3]
  {
    if EndsWith(r, "i@r") then r[..|r| - 3] + "i@"
    else if EndsWith(r, "U@r") then r[..|r| - 3] + "U@"
    else if EndsWith(r, "@r") && !EndsWith(r, "e@r") then r[..|r| - 2] + "3"
    else if EndsWith(r, "A:r") then r[..|r| - 3] + "A@"
    else if EndsWith(r, "O:r") then r[..|r| - 3] + "O@"
    else if EndsWith(r, "@l") && !EndsWith(r, "i@l") && !EndsWith(r, "U@l") then r[..|r| - 2] + "@L"
    else if EndsWith(r, "rr") || EndsWith(r, "3:r") then r[..|r| - 1]
    else r
  }

  function CleanupEspeakEntry(r: string): string {
    SuffixRule(FixReplacements(r))
  }

  /** The cleanup never lengthens an entry, and past the replacements it touches only the last three characters. */
  lemma CleanupShape(r: string)
    ensures |CleanupEspeakEntry(r)| <= |r|
    ensures var b := FixReplacements(r);
      |b| >= 3 ==> CleanupEspeakEntry(r)[..|b| - 3] == b[..|b| - 3]
  {
    var r1 := Replace(r, "k'a2n", "k'@n");
    var r2 := Replace(r1, "ka2n", "k@n");
    ReplaceShrinks(r, "k'a2n", "k'@n");
    ReplaceShrinks(r1, "ka2n", "k@n");
    ReplaceShrinks(r2, "gg", "g");
  }

  /** The more specific r-coloured suffixes win over the general `@r` rule, and `e@r` is left alone. */
  lemma CleanupCascadeOrder(b: string)
    ensures EndsWith(b, "i@r") ==> SuffixRule(b) == b[..|b| - 3] + "i@"
    ensures EndsWith(b, "U@r") ==> SuffixRule(b) == b[..|b| - 3] + "U@"
    ensures EndsWith(b, "e@r") ==> SuffixRule(b) == b
    ensures EndsWith(b, "i@l") ==> SuffixRule(b) == b
  {
    if EndsWith(b, "U@r") {
      assert b[|b| - 3..] == "U@r";
      assert b[|b| - 3] == 'U';
    }
    if EndsWith(b, "e@r") {
      assert b[|b| - 3] == 'e';
      assert b[|b| - 2..] == "@r";
    }
    if EndsWith(b, "i@l") {
      assert b[|b| - 3] == 'i';
      assert b[|b| - 2..] == "@l";
    }
  }

  /** Lines 407-420: the folds, applied in this order. */
  const SimplifyRules: seq<(string, string)> := [
    (";", ""), ("%", ""),
    ("a2", "@"), ("3", "@"),
    ("L", "l"),
    ("I2", "i:"), ("I", "i:"), ("i@", "i:@"),
    (",", ""),
    ("s", "z"),
    ("aa", "A:"), ("A@", "A:"),
    ("O@", "O:"), ("o@", "O:"),
    ("r-", "r")
  ]

  predicate NonEmptyPatterns(rules: seq<(string, string)>) {
    forall k :: 0 <= k < |rules| ==> |rules[k].0| > 0
  }

  /** Each rule applied to the result of the previous one. */
  function ReplaceChain(s: string, rules: seq<(string, string)>): string
    requires NonEmptyPatterns(rules)
    decreases |rules|
  {
    if rules == [] then s else ReplaceChain(Replace(s, rules[0].0, rules[0].1), rules[1..])
  }

  function Simplify(pronunc: string): string {
    ReplaceChain(pronunc, SimplifyRules)
  }

  /** `espeak_probably_right_already`: its `None` result is falsy, modelled as `false`. */
  function ProbablyRightAlready(existing: string, candidate: string): bool {
    existing == candidate || Simplify(existing) == Simplify(candidate)
  }

  lemma {:induction false} ChainKeepsAbsent(s: string, rules: seq<(string, string)>, c: char)
    requires NonEmptyPatterns(rules)
    requires c !in s && forall k :: 0 <= k < |rules| ==> c !in rules[k].1
    ensures c !in ReplaceChain(s, rules)
    decreases |rules|
  {
    if rules != [] {
      ReplaceKeepsAbsent(s, rules[0].0, rules[0].1, c);
      ChainKeepsAbsent(Replace(s, rules[0].0, rules[0].1), rules[1..], c);
    }
  }

  /** A rule that deletes or rewrites the one-character pattern `c`, with no later rule bringing `c` back. */
  lemma {:induction false} ChainRemoves(s: string, rules: seq<(string, string)>, k: nat, c: char)
    requires NonEmptyPatterns(rules)
    requires k < |rules| && rules[k].0 == [c]
    requires forall j :: k <= j < |rules| ==> c !in rules[j].1
    ensures c !in ReplaceChain(s, rules)
    decreases k
  {
    var next := Replace(s, rules[0].0, rules[0].1);
    if k == 0 {
      ReplaceRemoves(s, c, rules[0].1);
      ChainKeepsAbsent(next, rules[1..], c);
    } else {
      ChainRemoves(next, rules[1..], k - 1, c);
    }
  }

  /**
   * After folding, a pronunciation holds none of the characters the folds
   * remove or merge away: the markers `;` `%` `,`, and `3`, `L`, `I`, `s`.
   */
  lemma SimplifyNormalForm(pronunc: string)
    ensures forall c :: c in ";%,3LIs" ==> c !in Simplify(pronunc)
  {
    forall c | c in ";%,3LIs" ensures c !in Simplify(pronunc) {
      var k := if c == ';' then 0 else if c == '%' then 1 else if c == '3' then 3
        else if c == 'L' then 4 else if c == 'I' then 6 else if c == ',' then 8 else 9;
      ChainRemoves(pronunc, SimplifyRules, k, c);
    }
  }

  /**
   * Accepting a pair is the same as agreeing after folding, so acceptance
   * is reflexive, symmetric and transitive.
   */
  lemma ProbablyRightAlreadyIsEquivalence(a: string, b: string, c: string)
    ensures ProbablyRightAlready(a, b) <==> Simplify(a) == Simplify(b)
    ensures ProbablyRightAlready(a, a)
    ensures ProbablyRightAlready(a, b) ==> ProbablyRightAlready(b, a)
    ensures ProbablyRightAlready(a, b) && ProbablyRightAlready(b, c) ==> ProbablyRightAlready(a, c)
  {
  }

  /** Rules whose pattern cannot start anywhere in `s` leave it as it is. */
  lemma {:induction false} ChainSkips(s: string, rules: seq<(string, string)>, k: nat)
    requires NonEmptyPatterns(rules) && k <= |rules|
    requires forall j :: 0 <= j < k ==> rules[j].0[0] !in s
    ensures ReplaceChain(s, rules) == ReplaceChain(s, rules[k..])
    decreases k
  {
    if k > 0 {
      ReplaceAbsent(s, rules[0].0, rules[0].1);
      ChainSkips(s, rules[1..], k - 1);
      assert rules[1..][k - 1..] == rules[k..];
    }
  }

  /** The first characters of the fold patterns. */
  predicate IsFoldTrigger(c: char) {
    c == ';' || c == '%' || c == 'a' || c == '3' || c == 'L' || c == 'I' || c == 'i' ||
    c == ',' || c == 's' || c == 'A' || c == 'O' || c == 'o' || c == 'r'
  }

  lemma PatternsStartOnTriggers()
    ensures forall j :: 0 <= j < |SimplifyRules| ==> IsFoldTrigger(SimplifyRules[j].0[0])
  {
  }

  /** A pronunciation in which no fold can start is its own fold. */
  lemma SimplifyFixesPlain(a: string)
    requires forall c :: c in a ==> !IsFoldTrigger(c)
    ensures Simplify(a) == a
  {
    PatternsStartOnTriggers();
    ChainSkips(a, SimplifyRules, |SimplifyRules|);
  }

  /**
   * Two pronunciations in which no fold can start are accepted only when
   * they are equal: the check is no looser than its folds ("b" against "d"
   * is refused).
   */
  lemma ProbablyRightAlreadyPlain(a: string, b: string)
    requires forall c :: c in a ==> !IsFoldTrigger(c)
    requires forall c :: c in b ==> !IsFoldTrigger(c)
    ensures ProbablyRightAlready(a, b) <==> a == b
  {
    SimplifyFixesPlain(a);
    SimplifyFixesPlain(b);
  }

  /** Stripping what the first two rules strip first changes nothing the chain would not. */
  lemma StrippedFirst(a: string, rules: seq<(string, string)>)
    requires NonEmptyPatterns(rules) && |rules| >= 2
    requires rules[0] == (";", "") && rules[1] == ("%", "")
    ensures ReplaceChain(a, rules) == ReplaceChain(Replace(Replace(a, ";", ""), "%", ""), rules)
  {
    var a1 := Replace(a, ";", "");
    var b := Replace(a1, "%", "");
    ReplaceRemoves(a, ';', "");
    ReplaceKeepsAbsent(a1, "%", "", ';');
    ReplaceRemoves(a1, '%', "");
    ChainSkips(b, rules, 2);
    assert rules[1..][1..] == rules[2..];
    assert ReplaceChain(a, rules) == ReplaceChain(a1, rules[1..]);
    assert ReplaceChain(a1, rules[1..]) == ReplaceChain(b, rules[2..]);
  }

  /** The markers `;` and `%` are ignored: a pronunciation agrees with itself stripped of them. */
  lemma ProbablyRightAlreadyIgnoresMarkers(a: string)
    ensures ProbablyRightAlready(a, Replace(Replace(a, ";", ""), "%", ""))
  {
    StrippedFirst(a, SimplifyRules);
  }

  /**
   * A chain in which only rule `k` applies to `from`, rewriting all of it to
   * `to`, and no later rule applies to `to`, folds `from` to `to`.
   */
  lemma MergeOne(rules: seq<(string, string)>, k: nat, from: string, to: string)
    requires NonEmptyPatterns(rules) && k < |rules| && rules[k] == (from, to)
    requires forall j :: 0 <= j < k ==> rules[j].0[0] !in from
    requires forall j :: k < j < |rules| ==> rules[j].0[0] !in to
    ensures ReplaceChain(from, rules) == to
  {
    ChainSkips(from, rules, k);
    var rest := rules[k + 1..];
    assert rules[k..][1..] == rest;
    assert Replace(from, from, to) == to by {
      assert from[..|from|] == from && from[|from|..] == [];
    }
    assert ReplaceChain(from, rules[k..]) == ReplaceChain(to, rest);
    ChainSkips(to, rest, |rest|);
    assert rest[|rest|..] == [];
  }

  /** No fold pattern starts anywhere in a pronunciation free of fold triggers. */
  lemma PlainAvoidsPatterns(a: string)
    requires forall c :: c in a ==> !IsFoldTrigger(c)
    ensures forall j :: 0 <= j < |SimplifyRules| ==> SimplifyRules[j].0[0] !in a
  {
    PatternsStartOnTriggers();
  }

  lemma FoldMergesA2()
    ensures Simplify("a2") == "@"
  {
    PlainAvoidsPatterns("@");
    MergeOne(SimplifyRules, 2, "a2", "@");
  }

  lemma FoldMergesS()
    ensures Simplify("s") == "z"
  {
    PlainAvoidsPatterns("z");
    MergeOne(SimplifyRules, 9, "s", "z");
  }

  /**
   * The folds do merge different spellings: festival's ambiguous `a2`
   * agrees with `@`, and `s` with `z` (lines 409 and 415).
   */
  lemma FoldExamples()
    ensures ProbablyRightAlready("a2", "@")
    ensures ProbablyRightAlready("s", "z")
  {
    FoldMergesA2();
    FoldMergesS();
    SimplifyFixesPlain("@");
    SimplifyFixesPlain("z");
  }
}

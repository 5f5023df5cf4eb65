/**
 * `convert` (lexconvert.py:331-389): a pronunciation in one phoneme
 * notation becomes the same pronunciation in another. The input is cut
 * greedily into dictionary keys (two characters, else one, else the
 * character is dropped); each key's destination spelling is appended to
 * the output list `ret`, except that stress marks are moved to the side of
 * the vowel the destination notation wants them on, an implicit schwa is
 * made explicit before a syllabic `n` or `l`, and a closing pass joins the
 * list and tidies the ends.
 *
 * A token the program tags with the suffix `*added` (the implicit schwa)
 * is a `Tok` whose `synthetic` flag is set: the tagged string never equals
 * a consonant spelling or the separator, and the tag is removed when the
 * list is joined.
 */
module Converter {
  import opened Results
  import opened Text
  import opened Dictionary
  import opened Espeak

  datatype Tok = Tok(text: string, synthetic: bool)

  /**
   * The loop's state: the output list and the withheld after-vowel stress
   * mark `toAddAfter` (`""` stands for `None`; every mark withheld is one
   * of "0" to "4", never empty).
   */
  datatype State = State(ret: seq<Tok>, after: string)

  const Start: State := State([], "")

  /** `u"',ˈˌ"`: the stress marks written before a vowel (line 361). */
  const StressMarks: string := "',\U{02C8}\U{02CC}"

  /** Notations that write stress before the vowel (lines 354, 361). */
  predicate StressBeforeVowel(notation: string) {
    notation == "espeak" || notation == "unicode-ipa"
  }

  /** `formats_where_space_separates_words` (line 143): phonemes are written without spaces. */
  predicate Glued(notation: string) {
    notation == "espeak" || notation == "mac" || notation == "unicode-ipa" ||
    notation == "x-sampa" || notation == "bbcmicro"
  }

  /** The stress marks written after a vowel (line 349). */
  predicate IsAfterVowelMark(value: string) {
    value == "0" || value == "1" || value == "2"
  }

  /** `ret[i] in dest_consonants`: a tagged token never is. */
  predicate IsConsonant(t: Tok, d: Dict) {
    !t.synthetic && t.text in d.consonants
  }

  /** The tokens the backward scans of lines 359 and 363 step over. */
  predicate Skippable(t: Tok, d: Dict) {
    IsConsonant(t, d) || t.synthetic
  }

  /** `list.insert(i, t)` */
  function Insert(s: seq<Tok>, i: nat, t: Tok): (r: seq<Tok>)
    requires i <= |s|
    ensures |r| == |s| + 1 && r[i] == t && r[..i] == s[..i] && r[i + 1..] == s[i..]
  {
    s[..i] + [t] + s[i..]
  }

  function Plain(pieces: seq<string>): (toks: seq<Tok>)
    ensures |toks| == |pieces|
    ensures forall k :: 0 <= k < |toks| ==> toks[k] == Tok(pieces[k], false)
  {
    seq(|pieces|, k requires 0 <= k < |pieces| => Tok(pieces[k], false))
  }

  function Texts(toks: seq<Tok>): (texts: seq<string>)
    ensures |texts| == |toks|
    ensures forall k :: 0 <= k < |texts| ==> texts[k] == toks[k].text
  {
    seq(|toks|, k requires 0 <= k < |toks| => toks[k].text)
  }

  /** The position of the last token that is neither a consonant nor tagged: the last vowel. */
  function LastVowel(ret: seq<Tok>, d: Dict): (r: Option<nat>)
    ensures r.Some? ==> r.value < |ret| && !Skippable(ret[r.value], d)
    ensures r.Some? ==> forall j :: r.value < j < |ret| ==> Skippable(ret[j], d)
    ensures r.None? ==> forall j :: 0 <= j < |ret| ==> Skippable(ret[j], d)
  {
    if ret == [] then None
    else if !Skippable(ret[|ret| - 1], d) then Some(|ret| - 1)
    else LastVowel(ret[..|ret| - 1], d)
  }

  // ---------------------------------------------------------------------------
  // One dictionary value (lines 348-377)
  // ---------------------------------------------------------------------------

  /** Lines 350-352: bbcmicro writes primary and secondary stress as pitch levels 3 and 4. */
  function BbcPitch(mark: string, dest: string): string {
    if dest == "bbcmicro" && mark == "1" then "3"
    else if dest == "bbcmicro" && mark == "2" then "4"
    else mark
  }

  /** Lines 358-360: the mark goes right after the last vowel; with no vowel the scan runs off the list. */
  function AfterVowel(ret: seq<Tok>, d: Dict, mark: string): Result<seq<Tok>, Failure> {
    match LastVowel(ret, d)
    case None => Err(NoVowelForStress)
    case Some(v) => Ok(Insert(ret, v + 1, Tok(mark, false)))
  }

  /** Lines 362-365: the mark goes right before the last vowel, or first when there is none. */
  function BeforeVowel(ret: seq<Tok>, d: Dict, mark: string): seq<Tok> {
    match LastVowel(ret, d)
    case None => Insert(ret, 0, Tok(mark, false))
    case Some(v) => Insert(ret, v, Tok(mark, false))
  }

  /** Lines 368-369: make an implicit schwa explicit, or take back one that a vowel made needless. */
  function Schwa(ret: seq<Tok>, value: string, d: Dict): Result<seq<Tok>, Failure> {
    if ret != [] && ret[|ret| - 1].text != [] && (value == "n" || value == "l") && IsConsonant(ret[|ret| - 1], d) then
      if "@" in d.tokens then Ok(ret + [Tok(d.tokens["@"], true)]) else Err(MissingSchwa)
    else if |ret| > 2 && ret[|ret| - 2].synthetic && value != "" && value !in d.consonants && value != d.sep then
      Ok(ret[..|ret| - 2] + [ret[|ret| - 1]])
    else
      Ok(ret)
  }

  /** Lines 371-377: append the spelling's phonemes, releasing a withheld mark after the first one if it is not a consonant. */
  function Append(st: State, value: string, d: Dict): Result<State, Failure> {
    if value == "" then Ok(st)
    else
      var pieces := Split(value);
      if pieces == [] then Err(BlankToken)
      else if st.after != "" && pieces[0] !in d.consonants then
        Ok(State(st.ret + [Tok(pieces[0], false)] + [Tok(st.after, false)] + Plain(pieces[1..]), ""))
      else
        Ok(State(st.ret + [Tok(pieces[0], false)] + Plain(pieces[1..]), st.after))
  }

  /** Line 349: a value the destination writes after the vowel (eSpeak's own `0` is a phoneme). */
  predicate MovesAfterVowel(value: string, dest: string) {
    IsAfterVowelMark(value) && dest != "espeak"
  }

  /** Line 361: any part of `',ˈˌ`, the empty value included, when only the destination writes stress first. */
  predicate MovesBeforeVowel(value: string, source: string, dest: string) {
    IsSubstring(value, StressMarks) && StressBeforeVowel(dest) && !StressBeforeVowel(source)
  }

  /** What one matched dictionary value does to the state. */
  function Emit(st: State, value: string, d: Dict, source: string, dest: string): Result<State, Failure> {
    if MovesAfterVowel(value, dest) then
      var mark := BbcPitch(value, dest);
      if StressBeforeVowel(source) then Ok(State(st.ret, mark))
      else
        match AfterVowel(st.ret, d, mark)
        case Err(e) => Err(e)
        case Ok(ret) => Ok(State(ret, st.after))
    else if MovesBeforeVowel(value, source, dest) then
      Ok(State(BeforeVowel(st.ret, d, value), st.after))
    else
      match Schwa(st.ret, value, d)
      case Err(e) => Err(e)
      case Ok(ret) => Append(State(ret, st.after), value, d)
  }

  // ---------------------------------------------------------------------------
  // The tokenizer (lines 343-381)
  // ---------------------------------------------------------------------------

  function Min(a: nat, b: nat): nat {
    if a <= b then a else b
  }

  /** Lines 344-347: the number of characters matched, 0 when neither a 2- nor a 1-character key fits. */
  function MatchLength(p: string, d: Dict): (n: nat)
    requires p != []
    ensures n <= |p|
  {
    var w := Min(2, |p|);
    if p[..w] in d.tokens then w else if p[..1] in d.tokens then 1 else 0
  }

  /** Line 378: with an eSpeak source, `e@r` before the end or a consonant is read as one phoneme. */
  predicate SwallowsR(p: string, source: string) {
    source == "espeak" && |p| >= 3 && p[..2] == "e@" && p[2] == 'r' &&
    (|p| == 3 || p[3] in EspeakConsonants)
  }

  /** How many characters one iteration consumes (lines 346, 378-379). */
  function Advance(p: string, d: Dict, source: string): (k: nat)
    requires p != []
    ensures 1 <= k <= |p|
  {
    var n := MatchLength(p, d);
    if n == 0 then 1 else if n == 2 && SwallowsR(p, source) then 3 else n
  }

  function Step(p: string, st: State, d: Dict, source: string, dest: string): Result<State, Failure>
    requires p != []
  {
    var n := MatchLength(p, d);
    if n == 0 then Ok(st) else Emit(st, d.tokens[p[..n]], d, source, dest)
  }

  /** The `while pronunc` loop, from the rest of the input and the current state. */
  function Run(p: string, st: State, d: Dict, source: string, dest: string): Result<State, Failure>
    decreases |p|
  {
    if p == [] then Ok(st)
    else
      match Step(p, st, d, source, dest)
      case Err(e) => Err(e)
      case Ok(next) => Run(p[Advance(p, d, source)..], next, d, source, dest)
  }

  /** Lines 382-389. */
  function Finish(st: State, d: Dict, dest: string): Result<string, Failure> {
    var ret := if st.after != "" then st.ret + [Tok(st.after, false)] else st.ret;
    if ret == [] then Err(EmptyOutput)
    else
      var kept := if !ret[|ret| - 1].synthetic && ret[|ret| - 1].text == d.sep then ret[..|ret| - 1] else ret;
      Ok(Polish(Join(Texts(kept), Glue(dest)), dest))
  }

  /** Lines 384-385: what goes between phonemes. */
  function Glue(dest: string): string {
    if Glued(dest) then "" else " "
  }

  /** Lines 387-389: the notation-specific touch applied to the joined output. */
  function Polish(joined: string, dest: string): string {
    if dest == "cepstral" then Replace(Replace(joined, " 1", "1"), " 0", "0")
    else if dest == "espeak" then CleanupEspeakEntry(joined)
    else joined
  }

  /** `convert(pronunc, source, dest)` over the expanded table `t`. */
  function Convert(t: seq<seq<string>>, pronunc: string, source: string, dest: string): Result<string, Failure>
    requires ValidTable(t)
  {
    match MakeDictionary(t, source, dest)
    case Err(e) => Err(e)
    case Ok(d) =>
      match Run(pronunc, Start, d, source, dest)
      case Err(e) => Err(e)
      case Ok(st) => Finish(st, d, dest)
  }

  // ---------------------------------------------------------------------------
  // The loop as the program runs it
  // ---------------------------------------------------------------------------

  /** Lines 357-360: scan back from the end over consonants and tagged tokens, insert after the vowel found. */
  method InsertAfterVowel(ret: seq<Tok>, d: Dict, mark: string) returns (r: Result<seq<Tok>, Failure>)
    ensures r == AfterVowel(ret, d, mark)
  {
    var i := |ret|;
    while i > 0 && Skippable(ret[i - 1], d)
      invariant 0 <= i <= |ret|
      invariant forall j :: i <= j < |ret| ==> Skippable(ret[j], d)
      decreases i
    {
      i := i - 1;
    }
    if i == 0 {
      return Err(NoVowelForStress);
    }
    return Ok(Insert(ret, i, Tok(mark, false)));
  }

  /** Lines 362-365: the same scan, inserting before the vowel found, or at the front. */
  method InsertBeforeVowel(ret: seq<Tok>, d: Dict, mark: string) returns (r: seq<Tok>)
    ensures r == BeforeVowel(ret, d, mark)
  {
    var i := |ret|;
    while i > 0 && Skippable(ret[i - 1], d)
      invariant 0 <= i <= |ret|
      invariant forall j :: i <= j < |ret| ==> Skippable(ret[j], d)
      decreases i
    {
      i := i - 1;
    }
    if i > 0 {
      i := i - 1;
    }
    return Insert(ret, i, Tok(mark, false));
  }

  /** Lines 348-377 for one matched value `toAdd`. */
  method EmitValue(ret0: seq<Tok>, after: string, value: string, d: Dict, source: string, dest: string)
    returns (r: Result<State, Failure>)
    ensures r == Emit(State(ret0, after), value, d, source, dest)
  {
    var ret, toAdd, toAddAfter := ret0, value, after;
    if MovesAfterVowel(toAdd, dest) {
      if dest == "bbcmicro" {
        if toAdd == "1" {
          toAdd := "3";
        } else if toAdd == "2" {
          toAdd := "4";
        }
      }
      if StressBeforeVowel(source) {
        toAdd, toAddAfter := "", toAdd;
      } else {
        var placed := InsertAfterVowel(ret, d, toAdd);
        if placed.Err? {
          return Err(placed.error);
        }
        ret, toAdd := placed.value, "";
      }
    } else if MovesBeforeVowel(toAdd, source, dest) {
      ret := InsertBeforeVowel(ret, d, toAdd);
      toAdd := "";
    }
    if ret != [] && ret[|ret| - 1].text != [] && (toAdd == "n" || toAdd == "l") && IsConsonant(ret[|ret| - 1], d) {
      if "@" !in d.tokens {
        return Err(MissingSchwa);
      }
      ret := ret + [Tok(d.tokens["@"], true)];
    } else if |ret| > 2 && ret[|ret| - 2].synthetic && toAdd != "" && toAdd !in d.consonants && toAdd != d.sep {
      ret := ret[..|ret| - 2] + [ret[|ret| - 1]];
    }
    if toAdd != "" {
      var pieces := Split(toAdd);
      if pieces == [] {
        return Err(BlankToken);
      }
      ret := ret + [Tok(pieces[0], false)];
      if toAddAfter != "" && pieces[0] !in d.consonants {
        ret := ret + [Tok(toAddAfter, false)];
        toAddAfter := "";
      }
      ret := ret + Plain(pieces[1..]);
    }
    return Ok(State(ret, toAddAfter));
  }

  /** Lines 344-347: the key length tried first that the dictionary has, 0 when none. */
  method LongestKey(p: string, d: Dict) returns (lettersToTry: nat)
    requires p != []
    ensures lettersToTry == MatchLength(p, d)
  {
    lettersToTry := Min(2, |p|);
    while lettersToTry > 0 && p[..lettersToTry] !in d.tokens
      invariant lettersToTry <= Min(2, |p|)
      invariant lettersToTry < Min(2, |p|) ==> p[..Min(2, |p|)] !in d.tokens
      invariant lettersToTry == 0 ==> p[..1] !in d.tokens
      decreases lettersToTry
    {
      lettersToTry := lettersToTry - 1;
    }
  }

  /** Lines 382-389 on the list and the withheld mark the loop ends with. */
  method FinishText(ret0: seq<Tok>, toAddAfter: string, d: Dict, dest: string) returns (r: Result<string, Failure>)
    ensures r == Finish(State(ret0, toAddAfter), d, dest)
  {
    var ret := ret0;
    if toAddAfter != "" {
      ret := ret + [Tok(toAddAfter, false)];
    }
    if ret == [] {
      return Err(EmptyOutput);
    }
    if !ret[|ret| - 1].synthetic && ret[|ret| - 1].text == d.sep {
      ret := ret[..|ret| - 1];
    }
    var separator := if Glued(dest) then "" else " ";
    var joined := Join(Texts(ret), separator);
    if dest == "cepstral" {
      return Ok(Replace(Replace(joined, " 1", "1"), " 0", "0"));
    }
    if dest == "espeak" {
      return Ok(CleanupEspeakEntry(joined));
    }
    return Ok(joined);
  }

  /** `convert`: consume the input from the front, then finish the list. */
  method ConvertText(t: seq<seq<string>>, pronunc: string, source: string, dest: string)
    returns (r: Result<string, Failure>)
    requires ValidTable(t)
    ensures r == Convert(t, pronunc, source, dest)
  {
    var built := BuildDictionary(t, source, dest);
    if built.Err? {
      return Err(built.error);
    }
    var d := built.value;
    var ret: seq<Tok> := [];
    var toAddAfter := "";
    var p := pronunc;
    while p != []
      invariant Run(p, State(ret, toAddAfter), d, source, dest) == Run(pronunc, Start, d, source, dest)
      decreases |p|
    {
      var lettersToTry := LongestKey(p, d);
      if lettersToTry == 0 {
        p := p[1..];
      } else {
        var emitted := EmitValue(ret, toAddAfter, d.tokens[p[..lettersToTry]], d, source, dest);
        if emitted.Err? {
          return Err(emitted.error);
        }
        ret, toAddAfter := emitted.value.ret, emitted.value.after;
        if lettersToTry == 2 && SwallowsR(p, source) {
          lettersToTry := 3;
        }
        p := p[lettersToTry..];
      }
    }
    r := FinishText(ret, toAddAfter, d, dest);
  }

  // ---------------------------------------------------------------------------
  // Properties
  // ---------------------------------------------------------------------------

  /** Two characters are tried before one, and a character no key starts with is dropped. */
  lemma TokenizerPrefersLongest(p: string, d: Dict)
    requires p != []
    ensures |p| >= 2 && p[..2] in d.tokens ==> MatchLength(p, d) == 2
    ensures (|p| == 1 || p[..2] !in d.tokens) && p[..1] in d.tokens ==> MatchLength(p, d) == 1
    ensures MatchLength(p, d) == 0 <==> p[..1] !in d.tokens && (|p| == 1 || p[..2] !in d.tokens)
    ensures MatchLength(p, d) > 0 ==> p[..MatchLength(p, d)] in d.tokens
  {
  }

  /** Every iteration consumes one to three characters, three only for eSpeak's `e@r`. */
  lemma TokenizerProgress(p: string, d: Dict, source: string)
    requires p != []
    ensures 1 <= Advance(p, d, source) <= 3
    ensures Advance(p, d, source) == 3 <==> SwallowsR(p, source) && p[..2] in d.tokens
    ensures Advance(p, d, source) != 3 ==> Advance(p, d, source) == (if MatchLength(p, d) == 0 then 1 else MatchLength(p, d))
  {
  }

  /** The marks `0`, `1`, `2` are not among `',ˈˌ`, so line 361 never sees them. */
  lemma AfterVowelMarksAreNotBeforeVowelMarks(value: string)
    ensures IsAfterVowelMark(value) ==> !IsSubstring(value, StressMarks)
  {
    SubstringStartsInside(value, StressMarks);
  }

  /**
   * When only the destination writes stress before the vowel, a stress
   * mark is put immediately before the last token that is neither a
   * consonant nor an implicit schwa, or at the front when there is none.
   */
  lemma StressBeforeLastVowel(st: State, value: string, d: Dict, source: string, dest: string)
    requires MovesBeforeVowel(value, source, dest)
    ensures Emit(st, value, d, source, dest).Ok?
    ensures Emit(st, value, d, source, dest).value.after == st.after
    ensures (forall j :: 0 <= j < |st.ret| ==> Skippable(st.ret[j], d)) ==>
      Emit(st, value, d, source, dest).value.ret == [Tok(value, false)] + st.ret
    ensures forall v :: (0 <= v < |st.ret| && !Skippable(st.ret[v], d) &&
                         (forall j :: v < j < |st.ret| ==> Skippable(st.ret[j], d))) ==>
      Emit(st, value, d, source, dest).value.ret == st.ret[..v] + [Tok(value, false)] + st.ret[v..]
  {
    AfterVowelMarksAreNotBeforeVowelMarks(value);
  }

  /**
   * When neither notation writes stress first, an after-vowel mark (as a
   * pitch level for bbcmicro) is put immediately after the last token that
   * is neither a consonant nor an implicit schwa; with no such token the
   * conversion fails.
   */
  lemma StressAfterLastVowel(st: State, value: string, d: Dict, source: string, dest: string)
    requires MovesAfterVowel(value, dest) && !StressBeforeVowel(source)
    ensures Emit(st, value, d, source, dest).Err? <==> forall j :: 0 <= j < |st.ret| ==> Skippable(st.ret[j], d)
    ensures Emit(st, value, d, source, dest).Err? ==> Emit(st, value, d, source, dest).error == NoVowelForStress
    ensures forall v :: (0 <= v < |st.ret| && !Skippable(st.ret[v], d) &&
                         (forall j :: v < j < |st.ret| ==> Skippable(st.ret[j], d))) ==>
      Emit(st, value, d, source, dest) == Ok(State(st.ret[..v + 1] + [Tok(BbcPitch(value, dest), false)] + st.ret[v + 1..], st.after))
  {
  }

  /** bbcmicro writes primary and secondary stress as pitch levels 3 and 4. */
  lemma BbcPitchLevels(value: string, dest: string)
    requires IsAfterVowelMark(value)
    ensures dest != "bbcmicro" ==> BbcPitch(value, dest) == value
    ensures dest == "bbcmicro" && value == "0" ==> BbcPitch(value, dest) == "0"
    ensures dest == "bbcmicro" && value == "1" ==> BbcPitch(value, dest) == "3"
    ensures dest == "bbcmicro" && value == "2" ==> BbcPitch(value, dest) == "4"
  {
  }

  /** From a notation that writes stress first, an after-vowel mark is withheld, replacing any mark withheld before. */
  lemma StressWithheld(st: State, value: string, d: Dict, source: string, dest: string)
    requires MovesAfterVowel(value, dest) && StressBeforeVowel(source)
    ensures Emit(st, value, d, source, dest) == Ok(State(st.ret, BbcPitch(value, dest)))
  {
  }

  /** A value that releases a withheld mark: appended as phonemes, the first of them not a consonant. */
  predicate Releases(value: string, d: Dict, source: string, dest: string) {
    !MovesAfterVowel(value, dest) && !MovesBeforeVowel(value, source, dest) &&
    Split(value) != [] && Split(value)[0] !in d.consonants
  }

  /**
   * A withheld mark is written right after the first phoneme of the next
   * value whose first phoneme is not a consonant; until then it stays
   * withheld (or is replaced by a newer one).
   */
  lemma WithheldMarkReleased(st: State, value: string, d: Dict, source: string, dest: string)
    requires st.after != ""
    requires Emit(st, value, d, source, dest).Ok?
    ensures Releases(value, d, source, dest) ==>
      var r := Emit(st, value, d, source, dest).value;
      var pieces := Split(value);
      r.after == "" && |r.ret| > |pieces| &&
      r.ret[|r.ret| - |pieces| - 1..] == [Tok(pieces[0], false), Tok(st.after, false)] + Plain(pieces[1..])
    ensures !Releases(value, d, source, dest) && !(MovesAfterVowel(value, dest) && StressBeforeVowel(source)) ==>
      Emit(st, value, d, source, dest).value.after == st.after
  {
    if Releases(value, d, source, dest) {
      var pieces := Split(value);
      var ret := Schwa(st.ret, value, d).value;
      var r := Emit(st, value, d, source, dest).value;
      assert r.ret == ret + [Tok(pieces[0], false)] + [Tok(st.after, false)] + Plain(pieces[1..]);
      assert r.ret[|r.ret| - |pieces| - 1..] == [Tok(pieces[0], false), Tok(st.after, false)] + Plain(pieces[1..]);
    }
  }

  lemma AppendOneWord(st: State, value: string, d: Dict)
    requires value == "n" || value == "l"
    ensures Append(st, value, d).Ok?
    ensures |Append(st, value, d).value.ret| > |st.ret|
    ensures Append(st, value, d).value.ret[..|st.ret| + 1] == st.ret + [Tok(value, false)]
  {
    assert forall c :: c in value ==> !IsSpace(c);
    SplitWord(value);
  }

  /** Line 368: a syllabic `n` or `l` after a consonant gets the source's `@` spelled out before it. */
  lemma ImplicitSchwa(st: State, value: string, d: Dict, source: string, dest: string)
    requires value == "n" || value == "l"
    requires st.ret != [] && st.ret[|st.ret| - 1].text != "" && IsConsonant(st.ret[|st.ret| - 1], d)
    ensures "@" !in d.tokens ==> Emit(st, value, d, source, dest) == Err(MissingSchwa)
    ensures "@" in d.tokens ==>
              (Emit(st, value, d, source, dest).Ok? &&
               |Emit(st, value, d, source, dest).value.ret| >= |st.ret| + 2 &&
               Emit(st, value, d, source, dest).value.ret[..|st.ret| + 2] == st.ret + [Tok(d.tokens["@"], true), Tok(value, false)])
  {
    SubstringStartsInside(value, StressMarks);
    assert !MovesAfterVowel(value, dest) && !MovesBeforeVowel(value, source, dest);
    if "@" in d.tokens {
      var ret := st.ret + [Tok(d.tokens["@"], true)];
      assert Schwa(st.ret, value, d) == Ok(ret);
      assert Emit(st, value, d, source, dest) == Append(State(ret, st.after), value, d);
      AppendOneWord(State(ret, st.after), value, d);
    }
  }

  /**
   * Line 369: a vowel that is neither a consonant nor the separator makes
   * an implicit schwa two tokens back needless, and it is taken out.
   */
  lemma SchwaRetracted(st: State, value: string, d: Dict, source: string, dest: string)
    requires !MovesAfterVowel(value, dest) && !MovesBeforeVowel(value, source, dest)
    requires |st.ret| > 2 && st.ret[|st.ret| - 2].synthetic
    requires value != "" && value !in d.consonants && value != d.sep
    requires !(value == "n" || value == "l") || st.ret[|st.ret| - 1].text == "" || !IsConsonant(st.ret[|st.ret| - 1], d)
    ensures Emit(st, value, d, source, dest).Ok? <==> Split(value) != []
    ensures Emit(st, value, d, source, dest).Ok? ==>
      var r := Emit(st, value, d, source, dest).value.ret;
      |r| >= |st.ret| && r[..|st.ret| - 1] == st.ret[..|st.ret| - 2] + [st.ret[|st.ret| - 1]]
  {
    var kept := st.ret[..|st.ret| - 2] + [st.ret[|st.ret| - 1]];
    assert Schwa(st.ret, value, d) == Ok(kept);
    if Split(value) != [] {
      var r := Emit(st, value, d, source, dest).value.ret;
      assert r[..|kept|] == kept;
    }
  }

  /** Every spelling the converter can emit: a destination spelling, a phoneme of one, or a bbcmicro pitch level. */
  ghost function Vocabulary(d: Dict, dest: string): set<string> {
    d.tokens.Values + (set v, w | v in d.tokens.Values && w in Split(v) :: w) +
      (if dest == "bbcmicro" then {"3", "4"} else {})
  }

  ghost predicate TokensIn(ret: seq<Tok>, d: Dict, dest: string) {
    forall j :: 0 <= j < |ret| ==> ret[j].text in Vocabulary(d, dest)
  }

  ghost predicate InVocabulary(st: State, d: Dict, dest: string) {
    TokensIn(st.ret, d, dest) && (st.after == "" || st.after in Vocabulary(d, dest))
  }

  lemma SchwaInVocabulary(ret: seq<Tok>, value: string, d: Dict, dest: string)
    requires TokensIn(ret, d, dest)
    ensures Schwa(ret, value, d).Ok? ==> TokensIn(Schwa(ret, value, d).value, d, dest)
  {
    if "@" in d.tokens {
      assert d.tokens["@"] in d.tokens.Values;
    }
    if Schwa(ret, value, d).Ok? {
      var r := Schwa(ret, value, d).value;
      forall j | 0 <= j < |r| ensures r[j].text in Vocabulary(d, dest) {
        if r != ret && |r| < |ret| {
          assert r[j] == (if j < |ret| - 2 then ret[j] else ret[|ret| - 1]);
        }
      }
    }
  }

  /** Appending keeps the list and adds only phonemes of the value and the withheld mark. */
  lemma AppendAddsPieces(st: State, value: string, d: Dict)
    ensures Append(st, value, d).Ok? ==>
      var r := Append(st, value, d).value;
      (forall j :: |st.ret| <= j < |r.ret| ==> r.ret[j].text in Split(value) || r.ret[j].text == st.after) &&
      |r.ret| >= |st.ret| && r.ret[..|st.ret|] == st.ret && (r.after == "" || r.after == st.after)
  {
  }

  lemma InsertInVocabulary(ret: seq<Tok>, i: nat, t: Tok, d: Dict, dest: string)
    requires i <= |ret| && TokensIn(ret, d, dest) && t.text in Vocabulary(d, dest)
    ensures TokensIn(Insert(ret, i, t), d, dest)
  {
    var r := Insert(ret, i, t);
    forall j | 0 <= j < |r| ensures r[j].text in Vocabulary(d, dest) {
      assert r[j] == if j < i then ret[j] else if j == i then t else ret[j - 1];
    }
  }

  lemma StressInVocabulary(st: State, value: string, d: Dict, source: string, dest: string)
    requires InVocabulary(st, d, dest) && value in d.tokens.Values
    requires MovesAfterVowel(value, dest) || MovesBeforeVowel(value, source, dest)
    ensures Emit(st, value, d, source, dest).Ok? ==> InVocabulary(Emit(st, value, d, source, dest).value, d, dest)
  {
    var mark := if MovesAfterVowel(value, dest) then BbcPitch(value, dest) else value;
    assert mark in Vocabulary(d, dest);
    match LastVowel(st.ret, d)
    case None => InsertInVocabulary(st.ret, 0, Tok(mark, false), d, dest);
    case Some(v) =>
      InsertInVocabulary(st.ret, v, Tok(mark, false), d, dest);
      InsertInVocabulary(st.ret, v + 1, Tok(mark, false), d, dest);
  }

  lemma PhonemesInVocabulary(st: State, value: string, d: Dict, source: string, dest: string)
    requires InVocabulary(st, d, dest) && value in d.tokens.Values
    requires !MovesAfterVowel(value, dest) && !MovesBeforeVowel(value, source, dest)
    ensures Emit(st, value, d, source, dest).Ok? ==> InVocabulary(Emit(st, value, d, source, dest).value, d, dest)
  {
    if Schwa(st.ret, value, d).Ok? {
      var ret := Schwa(st.ret, value, d).value;
      SchwaInVocabulary(st.ret, value, d, dest);
      AppendAddsPieces(State(ret, st.after), value, d);
      forall w | w in Split(value) ensures w in Vocabulary(d, dest) {
      }
    }
  }

  lemma EmitInVocabulary(st: State, value: string, d: Dict, source: string, dest: string)
    requires InVocabulary(st, d, dest) && value in d.tokens.Values
    ensures Emit(st, value, d, source, dest).Ok? ==> InVocabulary(Emit(st, value, d, source, dest).value, d, dest)
  {
    if MovesAfterVowel(value, dest) || MovesBeforeVowel(value, source, dest) {
      StressInVocabulary(st, value, d, source, dest);
    } else {
      PhonemesInVocabulary(st, value, d, source, dest);
    }
  }

  /** Whatever the input, every token and withheld mark is a spelling of the destination column. */
  lemma {:induction false} RunInVocabulary(p: string, st: State, d: Dict, source: string, dest: string)
    requires InVocabulary(st, d, dest)
    ensures Run(p, st, d, source, dest).Ok? ==> InVocabulary(Run(p, st, d, source, dest).value, d, dest)
    decreases |p|
  {
    if p != [] {
      var n := MatchLength(p, d);
      if n != 0 {
        assert d.tokens[p[..n]] in d.tokens.Values;
        EmitInVocabulary(st, d.tokens[p[..n]], d, source, dest);
      }
      match Step(p, st, d, source, dest)
      case Err(_) =>
      case Ok(next) => RunInVocabulary(p[Advance(p, d, source)..], next, d, source, dest);
    }
  }

  /** Line 383: the closing pass fails exactly when nothing at all was emitted. */
  lemma FinishFailsOnlyWhenEmpty(st: State, d: Dict, dest: string)
    ensures Finish(st, d, dest).Err? <==> st.ret == [] && st.after == ""
    ensures Finish(st, d, dest).Err? ==> Finish(st, d, dest).error == EmptyOutput
  {
  }

  /** Line 382: a mark still withheld at the end is written last, unless it is the separator. */
  lemma WithheldMarkLast(st: State, d: Dict, dest: string)
    requires st.after != "" && st.after != d.sep
    ensures Finish(st, d, dest) ==
      Ok(Polish(if st.ret == [] then st.after else Join(Texts(st.ret), Glue(dest)) + Glue(dest) + st.after, dest))
  {
    assert Texts(st.ret + [Tok(st.after, false)]) == Texts(st.ret) + [st.after];
    JoinSnoc(Texts(st.ret), st.after, Glue(dest));
  }

  /**
   * Lines 382-383: a withheld mark that spells the separator (eSpeak `%`
   * becomes festival's `0`, both a stress mark and the separator) is
   * appended and then dropped as a trailing separator; the list before it
   * is joined without any separator check of its own.
   */
  lemma WithheldSeparatorDropped(st: State, d: Dict, dest: string)
    requires st.after != "" && st.after == d.sep
    ensures Finish(st, d, dest) == Ok(Polish(Join(Texts(st.ret), Glue(dest)), dest))
  {
    assert (st.ret + [Tok(st.after, false)])[..|st.ret|] == st.ret;
  }

  /** Line 383: exactly one trailing separator token is removed before joining. */
  lemma TrailingSeparatorDropped(st: State, d: Dict, dest: string)
    requires st.after == "" && st.ret != [] && st.ret[|st.ret| - 1] == Tok(d.sep, false)
    ensures Finish(st, d, dest) == Ok(Polish(Join(Texts(st.ret[..|st.ret| - 1]), Glue(dest)), dest))
    ensures Join(Texts(st.ret), Glue(dest)) ==
      if |st.ret| == 1 then d.sep else Join(Texts(st.ret[..|st.ret| - 1]), Glue(dest)) + Glue(dest) + d.sep
  {
    var front := st.ret[..|st.ret| - 1];
    assert st.ret == front + [Tok(d.sep, false)];
    assert Texts(st.ret) == Texts(front) + [d.sep];
    JoinSnoc(Texts(front), d.sep, Glue(dest));
  }

  /** Unknown notation names fail first; otherwise an empty pronunciation fails for want of output. */
  lemma ConvertEmptyInput(t: seq<seq<string>>, source: string, dest: string)
    requires ValidTable(t)
    ensures source !in t[0] ==> Convert(t, "", source, dest) == Err(UnknownSource)
    ensures source in t[0] && dest !in t[0] ==> Convert(t, "", source, dest) == Err(UnknownDest)
    ensures source in t[0] && dest in t[0] ==> Convert(t, "", source, dest) == Err(EmptyOutput)
  {
    MakeDictionaryCorrect(t, source, dest);
  }
}

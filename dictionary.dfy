/**
 * `make_dictionary` (lexconvert.py:311-329): for a (source, destination)
 * pair of notations, the map from source spellings to destination
 * spellings, the destination's syllable separator and the destination
 * spellings of the rows whose eSpeak spelling is made of consonants only.
 */
module Dictionary {
  import opened Results
  import Table

  /** Line 145. */
  const EspeakConsonants: string := "bdDfghklmnNprsStTvwjzZ"

  /** Line 324 reads the eSpeak spelling from column 1, whatever the pair. */
  const EspeakColumn: nat := 1

  /** The exceptions `make_dictionary` and `convert` can raise. */
  datatype Failure =
    | UnknownSource     // assertion at line 315
    | UnknownDest       // assertion at line 316
    | NoVowelForStress  // IndexError at line 359: no vowel before an after-vowel stress mark
    | MissingSchwa      // KeyError at line 368: the source notation has no '@' entry
    | BlankToken        // IndexError at line 373: a destination spelling made of spaces only
    | EmptyOutput       // IndexError at line 383: nothing was emitted

  datatype Dict = Dict(tokens: map<string, string>, sep: string, consonants: set<string>)

  /** The shape of the expanded table: a header, the separator row, equal arity, an eSpeak column. */
  predicate ValidTable(t: seq<seq<string>>) {
    |t| >= 2 && |t[0]| > EspeakColumn && forall i :: 0 <= i < |t| ==> |t[i]| == |t[0]|
  }

  /** `list.index`: the first position of `name`, if any. */
  function IndexOf(names: seq<string>, name: string): (r: Option<nat>)
    ensures r.None? <==> name !in names
    ensures r.Some? ==>
      (r.value < |names| && names[r.value] == name && forall j :: 0 <= j < r.value ==> names[j] != name)
  {
    if names == [] then None
    else if names[0] == name then Some(0)
    else match IndexOf(names[1..], name)
      case None => None
      case Some(k) => Some(k + 1)
  }

  predicate IsEspeakConsonantSpelling(s: string) {
    forall c :: c in s ==> c in EspeakConsonants
  }

  ghost predicate Columns(rows: seq<seq<string>>, src: nat, dst: nat) {
    forall i :: 0 <= i < |rows| ==> src < |rows[i]| && dst < |rows[i]| && EspeakColumn < |rows[i]|
  }

  /** Line 322 over `rows`: a source spelling keeps the destination spelling of its first row. */
  function FirstWins(rows: seq<seq<string>>, src: nat, dst: nat): map<string, string>
    requires Columns(rows, src, dst)
  {
    if rows == [] then map[]
    else
      var m := FirstWins(rows[..|rows| - 1], src, dst);
      var last := rows[|rows| - 1];
      if last[src] in m then m else m[last[src] := last[dst]]
  }

  /** Lines 323-327 over `rows`. */
  function ConsonantsOf(rows: seq<seq<string>>, src: nat, dst: nat): set<string>
    requires Columns(rows, src, dst)
  {
    if rows == [] then {}
    else
      var last := rows[|rows| - 1];
      ConsonantsOf(rows[..|rows| - 1], src, dst) +
        (if IsEspeakConsonantSpelling(last[EspeakColumn]) then {last[dst]} else {})
  }

  function MakeDictionary(t: seq<seq<string>>, source: string, dest: string): Result<Dict, Failure>
    requires ValidTable(t)
  {
    match IndexOf(t[0], source)
    case None => Err(UnknownSource)
    case Some(s) =>
      match IndexOf(t[0], dest)
      case None => Err(UnknownDest)
      case Some(d) => Ok(Dict(FirstWins(t[1..], s, d), t[1][d], ConsonantsOf(t[1..], s, d)))
  }

  /** The body of `make_dictionary` without its cache, which never hits. */
  method BuildDictionary(t: seq<seq<string>>, source: string, dest: string) returns (r: Result<Dict, Failure>)
    requires ValidTable(t)
    ensures r == MakeDictionary(t, source, dest)
  {
    var types := t[0];
    var s := IndexOf(types, source);
    if s.None? {
      return Err(UnknownSource);
    }
    var dt := IndexOf(types, dest);
    if dt.None? {
      return Err(UnknownDest);
    }
    var src, dst := s.value, dt.value;
    var d: map<string, string> := map[];
    var destConsonants: set<string> := {};
    var destSyllableSep := t[1][dst];
    for i := 1 to |t|
      invariant d == FirstWins(t[1..i], src, dst)
      invariant destConsonants == ConsonantsOf(t[1..i], src, dst)
    {
      var l := t[i];
      assert t[1..i + 1][..i - 1] == t[1..i];
      if l[src] !in d {
        d := d[l[src] := l[dst]];
      }
      var isInEspeakConsonants := true;
      var k := 0;
      while k < |l[EspeakColumn]| && isInEspeakConsonants
        invariant 0 <= k <= |l[EspeakColumn]|
        invariant isInEspeakConsonants <==> forall j :: 0 <= j < k ==> l[EspeakColumn][j] in EspeakConsonants
        invariant !isInEspeakConsonants ==> !IsEspeakConsonantSpelling(l[EspeakColumn])
      {
        if l[EspeakColumn][k] !in EspeakConsonants {
          isInEspeakConsonants := false;
        }
        k := k + 1;
      }
      if isInEspeakConsonants {
        destConsonants := destConsonants + {l[dst]};
      }
    }
    assert t[1..|t|] == t[1..];
    return Ok(Dict(d, destSyllableSep, destConsonants));
  }

  // ---------------------------------------------------------------------------
  // Properties
  // ---------------------------------------------------------------------------

  /** The row `i` is the first among `rows` with its source spelling. */
  ghost predicate FirstWithKey(rows: seq<seq<string>>, src: nat, i: nat)
    requires forall k :: 0 <= k < |rows| ==> src < |rows[k]|
  {
    i < |rows| && forall j :: 0 <= j < i ==> rows[j][src] != rows[i][src]
  }

  /** The spellings mapped are exactly the source spellings of the rows. */
  lemma {:induction false} FirstWinsKeys(rows: seq<seq<string>>, src: nat, dst: nat)
    requires Columns(rows, src, dst)
    ensures forall key :: key in FirstWins(rows, src, dst) <==> exists i :: 0 <= i < |rows| && rows[i][src] == key
    decreases |rows|
  {
    if rows != [] {
      var n := |rows| - 1;
      var init := rows[..n];
      FirstWinsKeys(init, src, dst);
      assert forall i :: 0 <= i < n ==> init[i] == rows[i];
    }
  }

  /** Every source spelling maps to the destination spelling of the first row that has it. */
  lemma {:induction false} FirstWinsExact(rows: seq<seq<string>>, src: nat, dst: nat)
    requires Columns(rows, src, dst)
    ensures forall i: nat :: FirstWithKey(rows, src, i) ==>
      rows[i][src] in FirstWins(rows, src, dst) && FirstWins(rows, src, dst)[rows[i][src]] == rows[i][dst]
    decreases |rows|
  {
    FirstWinsKeys(rows, src, dst);
    if rows != [] {
      var n := |rows| - 1;
      var init := rows[..n];
      FirstWinsKeys(init, src, dst);
      FirstWinsExact(init, src, dst);
      var m := FirstWins(init, src, dst);
      forall i: nat | FirstWithKey(rows, src, i)
        ensures rows[i][src] in FirstWins(rows, src, dst) && FirstWins(rows, src, dst)[rows[i][src]] == rows[i][dst]
      {
        if i < n {
          assert rows[i] == init[i];
          assert FirstWithKey(init, src, i);
          assert m[rows[i][src]] == rows[i][dst];
        } else {
          assert forall j :: 0 <= j < n ==> init[j] == rows[j];
        }
      }
    }
  }

  /** Rows appended later never change a spelling already mapped. */
  lemma {:induction false} FirstWinsStable(rows: seq<seq<string>>, more: seq<seq<string>>, src: nat, dst: nat)
    requires Columns(rows + more, src, dst)
    ensures Columns(rows, src, dst)
    ensures forall key :: key in FirstWins(rows, src, dst) ==>
      key in FirstWins(rows + more, src, dst) && FirstWins(rows + more, src, dst)[key] == FirstWins(rows, src, dst)[key]
    decreases |more|
  {
    assert forall i :: 0 <= i < |rows| ==> rows[i] == (rows + more)[i];
    if more != [] {
      var init := more[..|more| - 1];
      assert (rows + more)[..|rows + more| - 1] == rows + init;
      FirstWinsStable(rows, init, src, dst);
    } else {
      assert rows + more == rows;
    }
  }

  /** A destination spelling is a consonant exactly when some row has it with an all-consonant eSpeak spelling. */
  lemma {:induction false} ConsonantsExact(rows: seq<seq<string>>, src: nat, dst: nat)
    requires Columns(rows, src, dst)
    ensures forall x :: x in ConsonantsOf(rows, src, dst) <==>
      exists i :: 0 <= i < |rows| && rows[i][dst] == x && IsEspeakConsonantSpelling(rows[i][EspeakColumn])
    decreases |rows|
  {
    if rows != [] {
      var n := |rows| - 1;
      var init := rows[..n];
      ConsonantsExact(init, src, dst);
      forall x | x in ConsonantsOf(rows, src, dst)
        ensures exists i :: 0 <= i < |rows| && rows[i][dst] == x && IsEspeakConsonantSpelling(rows[i][EspeakColumn])
      {
        if x in ConsonantsOf(init, src, dst) {
          var i :| 0 <= i < |init| && init[i][dst] == x && IsEspeakConsonantSpelling(init[i][EspeakColumn]);
          assert rows[i] == init[i];
        }
      }
      forall x | exists i :: 0 <= i < |rows| && rows[i][dst] == x && IsEspeakConsonantSpelling(rows[i][EspeakColumn])
        ensures x in ConsonantsOf(rows, src, dst)
      {
        var i :| 0 <= i < |rows| && rows[i][dst] == x && IsEspeakConsonantSpelling(rows[i][EspeakColumn]);
        if i < n { assert init[i] == rows[i]; }
      }
    }
  }

  /**
   * Lines 314-328 as a whole: the two name checks in order, the separator
   * from the row after the header, first-row-wins spellings and the
   * consonant spellings, all over the rows after the header.
   */
  lemma MakeDictionaryCorrect(t: seq<seq<string>>, source: string, dest: string)
    requires ValidTable(t)
    ensures MakeDictionary(t, source, dest) == Err(UnknownSource) <==> source !in t[0]
    ensures MakeDictionary(t, source, dest) == Err(UnknownDest) <==> source in t[0] && dest !in t[0]
    ensures MakeDictionary(t, source, dest).Ok? ==>
      var s, d := IndexOf(t[0], source).value, IndexOf(t[0], dest).value;
      var dict := MakeDictionary(t, source, dest).value;
      && t[0][s] == source && t[0][d] == dest
      && dict.sep == t[1][d]
      && (forall key :: key in dict.tokens <==> exists i :: 1 <= i < |t| && t[i][s] == key)
      && (forall i :: 1 <= i < |t| && (forall j :: 1 <= j < i ==> t[j][s] != t[i][s]) ==> dict.tokens[t[i][s]] == t[i][d])
      && (forall x :: x in dict.consonants <==>
            exists i :: 1 <= i < |t| && t[i][d] == x && IsEspeakConsonantSpelling(t[i][EspeakColumn]))
  {
    if source in t[0] && dest in t[0] {
      var s, d := IndexOf(t[0], source).value, IndexOf(t[0], dest).value;
      TableKeys(t, s, d);
      TableFirstRows(t, s, d);
      TableConsonants(t, s, d);
    }
  }

  lemma TableKeys(t: seq<seq<string>>, s: nat, d: nat)
    requires ValidTable(t) && s < |t[0]| && d < |t[0]|
    ensures forall key :: key in FirstWins(t[1..], s, d) <==> exists i :: 1 <= i < |t| && t[i][s] == key
  {
    var rows := t[1..];
    FirstWinsKeys(rows, s, d);
    forall key ensures key in FirstWins(rows, s, d) <==> exists i :: 1 <= i < |t| && t[i][s] == key {
      if key in FirstWins(rows, s, d) {
        var i :| 0 <= i < |rows| && rows[i][s] == key;
        assert t[i + 1] == rows[i];
      }
      if exists i :: 1 <= i < |t| && t[i][s] == key {
        var i :| 1 <= i < |t| && t[i][s] == key;
        assert rows[i - 1] == t[i];
      }
    }
  }

  lemma TableFirstRows(t: seq<seq<string>>, s: nat, d: nat)
    requires ValidTable(t) && s < |t[0]| && d < |t[0]|
    ensures forall i :: 1 <= i < |t| && (forall j :: 1 <= j < i ==> t[j][s] != t[i][s]) ==>
      t[i][s] in FirstWins(t[1..], s, d) && FirstWins(t[1..], s, d)[t[i][s]] == t[i][d]
  {
    var rows := t[1..];
    FirstWinsExact(rows, s, d);
    forall i | 1 <= i < |t| && (forall j :: 1 <= j < i ==> t[j][s] != t[i][s])
      ensures t[i][s] in FirstWins(rows, s, d) && FirstWins(rows, s, d)[t[i][s]] == t[i][d]
    {
      assert rows[i - 1] == t[i];
      forall j | 0 <= j < i - 1 ensures rows[j][s] != rows[i - 1][s] {
        assert rows[j] == t[j + 1];
      }
      assert FirstWithKey(rows, s, i - 1);
    }
  }

  lemma TableConsonants(t: seq<seq<string>>, s: nat, d: nat)
    requires ValidTable(t) && s < |t[0]| && d < |t[0]|
    ensures forall x :: x in ConsonantsOf(t[1..], s, d) <==>
      exists i :: 1 <= i < |t| && t[i][d] == x && IsEspeakConsonantSpelling(t[i][EspeakColumn])
  {
    var rows := t[1..];
    ConsonantsExact(rows, s, d);
    forall x ensures x in ConsonantsOf(rows, s, d) <==>
      exists i :: 1 <= i < |t| && t[i][d] == x && IsEspeakConsonantSpelling(t[i][EspeakColumn])
    {
      if x in ConsonantsOf(rows, s, d) {
        var i :| 0 <= i < |rows| && rows[i][d] == x && IsEspeakConsonantSpelling(rows[i][EspeakColumn]);
        assert t[i + 1] == rows[i];
      }
      if exists i :: 1 <= i < |t| && t[i][d] == x && IsEspeakConsonantSpelling(t[i][EspeakColumn]) {
        var i :| 1 <= i < |t| && t[i][d] == x && IsEspeakConsonantSpelling(t[i][EspeakColumn]);
        assert rows[i - 1] == t[i];
      }
    }
  }

  /**
   * The table `make_dictionary` reads is the expansion of the authored one
   * (lexconvert.py:238-256): when the header and the separator line are
   * plain spellings and there are at least two notations, it has the shape
   * `MakeDictionary` requires, with those two lines first.
   */
  lemma ExpandedTableIsValid(authored: seq<seq<Table.Cell>>)
    requires |authored| >= 2 && |authored[0]| > EspeakColumn
    requires Table.AllStrings(authored[0]) && Table.AllStrings(authored[1])
    ensures Table.Expand(authored).Ok? ==>
      ValidTable(Table.Expand(authored).value) &&
      Table.Expand(authored).value[0] == Table.Strings(authored[0]) &&
      Table.Expand(authored).value[1] == Table.Strings(authored[1])
  {
    Table.ExpandPreservesArity(authored);
    Table.ExpandStartsWithPlainLines(authored);
  }
}

/**
 * The phoneme correspondence table (lexconvert.py:31-141, 149, 234-256).
 *
 * Each authored row holds one cell per notation. A cell is a spelling,
 * the ditto marker `0` (take the same column of the previous row, as
 * already resolved) or a list of alternative spellings. Expansion turns
 * the authored rows into rows of plain spellings: a row without lists is
 * kept as it is; a row with lists yields, for each list column and each
 * alternative in it, the row with that alternative there and every other
 * list at its first element, skipping list-derived rows already produced.
 */
module Table {
  import opened Results

  datatype Cell = Str(s: string) | Ditto | Alts(alts: seq<string>)

  /** An expanded row: one spelling per notation. */
  type Row = seq<string>

  /** The ways the expansion aborts (each an exception in the original). */
  datatype TableError =
    | RaggedRow              // a row whose arity is not the header's (the assertion at line 149)
    | DittoWithoutPrevious   // a ditto in the first row, which has no previous row
    | EmptyAlternatives      // an empty list in a row whose other list is being expanded

  /** Rows produced so far and the list-derived rows already seen (`newTable`, `hadAlready`). */
  datatype Expansion = Expansion(rows: seq<Row>, had: set<Row>)

  predicate Rectangular(authored: seq<seq<Cell>>) {
    forall i :: 0 <= i < |authored| ==> |authored[i]| == |authored[0]|
  }

  predicate NoDitto(line: seq<Cell>) {
    forall i :: 0 <= i < |line| ==> !line[i].Ditto?
  }

  /** Lines 242-243: each ditto takes the cell of the previous resolved line, list or not. */
  function Resolve(line: seq<Cell>, prev: Option<seq<Cell>>): (r: Result<seq<Cell>, TableError>)
    requires prev.Some? ==> |prev.value| == |line| && NoDitto(prev.value)
    ensures r.Ok? ==> |r.value| == |line| && NoDitto(r.value)
    ensures r.Err? <==> prev.None? && !NoDitto(line)
  {
    match prev
    case None => if NoDitto(line) then Ok(line) else Err(DittoWithoutPrevious)
    case Some(p) => Ok(seq(|line|, i requires 0 <= i < |line| => if line[i].Ditto? then p[i] else line[i]))
  }

  /** Line 245: the list columns among the first `n`, in increasing order. */
  function ListColumnsBelow(line: seq<Cell>, n: nat): (cols: seq<nat>)
    requires n <= |line|
    ensures forall k :: 0 <= k < |cols| ==> cols[k] < n && line[cols[k]].Alts?
    ensures forall c :: 0 <= c < n && line[c].Alts? ==> c in cols
    ensures forall k, m :: 0 <= k < m < |cols| ==> cols[k] < cols[m]
  {
    if n == 0 then []
    else ListColumnsBelow(line, n - 1) + (if line[n - 1].Alts? then [n - 1] else [])
  }

  function ListColumns(line: seq<Cell>): seq<nat> {
    ListColumnsBelow(line, |line|)
  }

  /** `firstItemIfList` (lines 248-250). */
  function FirstItem(c: Cell): string
    requires !c.Ditto? && (c.Alts? ==> c.alts != [])
  {
    match c
    case Str(s) => s
    case Alts(a) => a[0]
  }

  /** A list column `col` is expanded with alternative `alt`: fails on an empty list elsewhere. */
  function VariantOf(line: seq<Cell>, col: nat, alt: string): Result<Row, TableError>
    requires col < |line| && NoDitto(line)
  {
    if exists j :: 0 <= j < |line| && j != col && line[j] == Alts([]) then Err(EmptyAlternatives)
    else Ok(Variant(line, col, alt))
  }

  function Variant(line: seq<Cell>, col: nat, alt: string): (v: Row)
    requires col < |line| && NoDitto(line)
    requires forall j :: 0 <= j < |line| && j != col ==> line[j] != Alts([])
    ensures |v| == |line|
  {
    seq(|line|, j requires 0 <= j < |line| => if j == col then alt else FirstItem(line[j]))
  }

  /** The plain spellings of a line without lists. */
  function Strings(line: seq<Cell>): (r: Row)
    requires forall j :: 0 <= j < |line| ==> line[j].Str?
    ensures |r| == |line|
  {
    seq(|line|, j requires 0 <= j < |line| => line[j].s)
  }

  /** Lines 251-254 for one list column: append each alternative's row unless already had. */
  function AddAlts(line: seq<Cell>, col: nat, alts: seq<string>, acc: Expansion): (r: Result<Expansion, TableError>)
    requires col < |line| && NoDitto(line)
    ensures r.Err? ==> r.error == EmptyAlternatives
  {
    if alts == [] then Ok(acc)
    else match VariantOf(line, col, alts[0])
      case Err(e) => Err(e)
      case Ok(v) =>
        var next := if v in acc.had then acc else Expansion(acc.rows + [v], acc.had + {v});
        AddAlts(line, col, alts[1..], next)
  }

  /** Line 247: every list column of the line in turn. */
  function AddCols(line: seq<Cell>, cols: seq<nat>, acc: Expansion): (r: Result<Expansion, TableError>)
    requires NoDitto(line)
    requires forall k :: 0 <= k < |cols| ==> cols[k] < |line| && line[cols[k]].Alts?
    ensures r.Err? ==> r.error == EmptyAlternatives
  {
    if cols == [] then Ok(acc)
    else match AddAlts(line, cols[0], line[cols[0]].alts, acc)
      case Err(e) => Err(e)
      case Ok(next) => AddCols(line, cols[1..], next)
  }

  /** Lines 245-254 for one resolved line. */
  function ExpandLine(line: seq<Cell>, acc: Expansion): (r: Result<Expansion, TableError>)
    requires NoDitto(line)
    ensures r.Err? ==> r.error == EmptyAlternatives
  {
    var cols := ListColumns(line);
    if cols == [] then Ok(Expansion(acc.rows + [Strings(line)], acc.had))
    else AddCols(line, cols, acc)
  }

  /** The loop of lines 240-255 from a given line on, `prev` being `prevLine`. */
  function ExpandFrom(lines: seq<seq<Cell>>, prev: Option<seq<Cell>>, acc: Expansion, width: nat): (r: Result<Expansion, TableError>)
    requires forall i :: 0 <= i < |lines| ==> |lines[i]| == width
    requires prev.Some? ==> |prev.value| == width && NoDitto(prev.value)
    ensures r.Err? ==> r.error != RaggedRow
    decreases |lines|
  {
    if lines == [] then Ok(acc)
    else match Resolve(lines[0], prev)
      case Err(e) => Err(e)
      case Ok(line) =>
        match ExpandLine(line, acc)
        case Err(e) => Err(e)
        case Ok(next) => ExpandFrom(lines[1..], Some(line), next, width)
  }

  /** The expanded table that replaces `table` at line 256, or the exception that stops it. */
  function Expand(authored: seq<seq<Cell>>): Result<seq<Row>, TableError> {
    if !Rectangular(authored) then Err(RaggedRow)
    else
      var width := if authored == [] then 0 else |authored[0]|;
      match ExpandFrom(authored, None, Expansion([], {}), width)
      case Err(e) => Err(e)
      case Ok(acc) => Ok(acc.rows)
  }

  // ---------------------------------------------------------------------------
  // The module-level loop itself (lines 149 and 238-256)
  // ---------------------------------------------------------------------------

  /** The list comprehension at line 251 for one alternative. */
  method BuildVariant(line: seq<Cell>, col: nat, alt: string) returns (r: Result<Row, TableError>)
    requires col < |line| && NoDitto(line)
    ensures r == VariantOf(line, col, alt)
  {
    var row: Row := [];
    for j := 0 to |line|
      invariant |row| == j
      invariant forall k :: 0 <= k < j && k != col ==> line[k] != Alts([])
      invariant forall k :: 0 <= k < j ==> row[k] == if k == col then alt else FirstItem(line[k])
    {
      if j == col {
        row := row + [alt];
      } else {
        match line[j]
        case Str(s) =>
          row := row + [s];
        case Alts(a) =>
          if a == [] {
            return Err(EmptyAlternatives);
          }
          row := row + [a[0]];
      }
    }
    assert row == Variant(line, col, alt);
    return Ok(row);
  }

  /** Lines 241-244: resolve the dittos of one line against `prevLine`. */
  method ResolveLine(authoredLine: seq<Cell>, prevLine: Option<seq<Cell>>) returns (r: Result<seq<Cell>, TableError>)
    requires prevLine.Some? ==> |prevLine.value| == |authoredLine| && NoDitto(prevLine.value)
    ensures r == Resolve(authoredLine, prevLine)
  {
    var line := authoredLine;
    for i := 0 to |line|
      invariant |line| == |authoredLine|
      invariant forall k :: i <= k < |line| ==> line[k] == authoredLine[k]
      invariant forall k :: 0 <= k < i ==> !line[k].Ditto?
      invariant prevLine.None? ==> line == authoredLine
      invariant prevLine.Some? ==> forall k :: 0 <= k < i ==>
        line[k] == if authoredLine[k].Ditto? then prevLine.value[k] else authoredLine[k]
    {
      if line[i].Ditto? {
        if prevLine.None? {
          assert !NoDitto(authoredLine);
          return Err(DittoWithoutPrevious);
        }
        line := line[i := prevLine.value[i]];
      }
    }
    if prevLine.Some? {
      ghost var p := prevLine.value;
      assert line == seq(|line|, k requires 0 <= k < |line| => if authoredLine[k].Ditto? then p[k] else authoredLine[k]);
    }
    return Ok(line);
  }

  /** Lines 251-254 for one list column. */
  method AddAlternatives(line: seq<Cell>, col: nat, acc: Expansion) returns (r: Result<Expansion, TableError>)
    requires col < |line| && NoDitto(line) && line[col].Alts?
    ensures r == AddAlts(line, col, line[col].alts, acc)
  {
    var alts := line[col].alts;
    var newTable, hadAlready := acc.rows, acc.had;
    for a := 0 to |alts|
      invariant AddAlts(line, col, alts[a..], Expansion(newTable, hadAlready)) == AddAlts(line, col, alts, acc)
    {
      var extraTuple := BuildVariant(line, col, alts[a]);
      if extraTuple.Err? {
        return Err(extraTuple.error);
      }
      assert alts[a..][1..] == alts[a + 1..];
      if extraTuple.value !in hadAlready {
        hadAlready := hadAlready + {extraTuple.value};
        newTable := newTable + [extraTuple.value];
      }
    }
    return Ok(Expansion(newTable, hadAlready));
  }

  /** Lines 245-254 for one resolved line. */
  method ExpandResolvedLine(line: seq<Cell>, acc: Expansion) returns (r: Result<Expansion, TableError>)
    requires NoDitto(line)
    ensures r == ExpandLine(line, acc)
  {
    var colsWithLists := ListColumns(line);
    if colsWithLists == [] {
      return Ok(Expansion(acc.rows + [Strings(line)], acc.had));
    }
    var cur := acc;
    for c := 0 to |colsWithLists|
      invariant AddCols(line, colsWithLists[c..], cur) == ExpandLine(line, acc)
    {
      var next := AddAlternatives(line, colsWithLists[c], cur);
      if next.Err? {
        return next;
      }
      assert colsWithLists[c..][1..] == colsWithLists[c + 1..];
      cur := next.value;
    }
    return Ok(cur);
  }

  method ExpandTable(authored: seq<seq<Cell>>) returns (r: Result<seq<Row>, TableError>)
    ensures r == Expand(authored)
  {
    for i := 0 to |authored|
      invariant forall k :: 0 <= k < i ==> |authored[k]| == |authored[0]|
    {
      if |authored[i]| != |authored[0]| {
        return Err(RaggedRow);
      }
    }
    var width := if authored == [] then 0 else |authored[0]|;
    ghost var total := ExpandFrom(authored, None, Expansion([], {}), width);
    var acc := Expansion([], {});
    var prevLine: Option<seq<Cell>> := None;
    for n := 0 to |authored|
      invariant prevLine.Some? ==> |prevLine.value| == width && NoDitto(prevLine.value)
      invariant ExpandFrom(authored[n..], prevLine, acc, width) == total
    {
      var line := ResolveLine(authored[n], prevLine);
      if line.Err? {
        return Err(line.error);
      }
      var next := ExpandResolvedLine(line.value, acc);
      if next.Err? {
        return Err(next.error);
      }
      assert authored[n..][1..] == authored[n + 1..];
      acc := next.value;
      prevLine := Some(line.value);
    }
    return Ok(acc.rows);
  }

  // ---------------------------------------------------------------------------
  // Properties of the expansion
  // ---------------------------------------------------------------------------

  ghost predicate HasWidth(rows: seq<Row>, width: nat) {
    forall i :: 0 <= i < |rows| ==> |rows[i]| == width
  }

  /** A row whose list columns are all non-empty, or whose only lists are empty, can be expanded. */
  predicate BadLists(line: seq<Cell>) {
    exists c1, c2 :: 0 <= c1 < |line| && 0 <= c2 < |line| && c1 != c2 &&
      line[c1].Alts? && line[c1].alts != [] && line[c2] == Alts([])
  }

  /** `v` is the row obtained from `line` by picking one alternative of one list column. */
  ghost predicate IsVariant(line: seq<Cell>, v: Row)
    requires NoDitto(line)
  {
    exists c, a :: 0 <= c < |line| && line[c].Alts? && a in line[c].alts &&
      (forall j :: 0 <= j < |line| && j != c ==> line[j] != Alts([])) &&
      v == Variant(line, c, a)
  }

  /**
   * `after` is `before` with rows appended that are pairwise distinct, none of
   * them seen before, and exactly the rows added to the seen set.
   */
  ghost predicate Extends(before: Expansion, after: Expansion) {
    |before.rows| <= |after.rows| && after.rows[..|before.rows|] == before.rows &&
    (forall i, j :: |before.rows| <= i < j < |after.rows| ==> after.rows[i] != after.rows[j]) &&
    (forall i :: |before.rows| <= i < |after.rows| ==> after.rows[i] !in before.had) &&
    after.had == before.had + (set i | |before.rows| <= i < |after.rows| :: after.rows[i])
  }

  lemma ExtendsTransitive(a: Expansion, b: Expansion, c: Expansion)
    requires Extends(a, b) && Extends(b, c)
    ensures Extends(a, c)
  {
    forall i | |a.rows| <= i < |c.rows|
      ensures c.rows[i] !in a.had
    {
      if i < |b.rows| {
        assert c.rows[i] == b.rows[i];
      }
    }
    forall i, j | |a.rows| <= i < j < |c.rows|
      ensures c.rows[i] != c.rows[j]
    {
      if i < |b.rows| {
        assert c.rows[i] == b.rows[i];
        if j < |b.rows| {
          assert c.rows[j] == b.rows[j];
        } else {
          assert c.rows[i] in b.had;
        }
      }
    }
    assert c.rows[..|a.rows|] == b.rows[..|a.rows|];
    var sab := set i | |a.rows| <= i < |b.rows| :: b.rows[i];
    var sbc := set i | |b.rows| <= i < |c.rows| :: c.rows[i];
    var sac := set i | |a.rows| <= i < |c.rows| :: c.rows[i];
    assert sac == sab + sbc by {
      forall x | x in sac ensures x in sab + sbc {
        var i :| |a.rows| <= i < |c.rows| && c.rows[i] == x;
        if i < |b.rows| { assert b.rows[i] == x; }
      }
      forall x | x in sab ensures x in sac {
        var i :| |a.rows| <= i < |b.rows| && b.rows[i] == x;
        assert c.rows[i] == x;
      }
    }
  }

  /** One list column: every alternative's row is appended unless already seen, and nothing else is. */
  lemma {:induction false} AddAltsExact(line: seq<Cell>, col: nat, alts: seq<string>, acc: Expansion)
    requires col < |line| && NoDitto(line)
    requires forall j :: 0 <= j < |line| && j != col ==> line[j] != Alts([])
    ensures AddAlts(line, col, alts, acc).Ok?
    ensures var after := AddAlts(line, col, alts, acc).value;
      Extends(acc, after) &&
      (forall a :: a in alts ==> Variant(line, col, a) in after.had) &&
      (forall i :: |acc.rows| <= i < |after.rows| ==> exists a :: a in alts && after.rows[i] == Variant(line, col, a))
    decreases |alts|
  {
    if alts != [] {
      var v := Variant(line, col, alts[0]);
      var next := if v in acc.had then acc else Expansion(acc.rows + [v], acc.had + {v});
      assert Extends(acc, next) by {
        if v !in acc.had {
          assert next.rows[|acc.rows|] == v;
          assert (set i | |acc.rows| <= i < |next.rows| :: next.rows[i]) == {v};
        }
      }
      AddAltsExact(line, col, alts[1..], next);
      var after := AddAlts(line, col, alts[1..], next).value;
      ExtendsTransitive(acc, next, after);
      forall a | a in alts ensures Variant(line, col, a) in after.had {
        if a != alts[0] { assert a in alts[1..]; }
      }
      forall i | |acc.rows| <= i < |after.rows|
        ensures exists a :: a in alts && after.rows[i] == Variant(line, col, a)
      {
        if i < |next.rows| {
          assert after.rows[i] == next.rows[i] == v;
        } else {
          var a :| a in alts[1..] && after.rows[i] == Variant(line, col, a);
          assert a in alts;
        }
      }
    }
  }

  /** A list column whose own list is empty contributes nothing; the others go through AddAltsExact. */
  lemma {:induction false} AddColsExact(line: seq<Cell>, cols: seq<nat>, acc: Expansion)
    requires NoDitto(line) && !BadLists(line)
    requires forall k :: 0 <= k < |cols| ==> cols[k] < |line| && line[cols[k]].Alts?
    ensures AddCols(line, cols, acc).Ok?
    ensures var after := AddCols(line, cols, acc).value;
      Extends(acc, after) &&
      (forall k, a :: 0 <= k < |cols| && a in line[cols[k]].alts ==> Variant(line, cols[k], a) in after.had) &&
      (forall i :: |acc.rows| <= i < |after.rows| ==> IsVariant(line, after.rows[i]))
    decreases |cols|
  {
    if cols != [] {
      var col := cols[0];
      var alts := line[col].alts;
      var next: Expansion;
      if alts == [] {
        next := acc;
        assert AddAlts(line, col, alts, acc) == Ok(acc);
      } else {
        assert forall j :: 0 <= j < |line| && j != col ==> line[j] != Alts([]);
        AddAltsExact(line, col, alts, acc);
        next := AddAlts(line, col, alts, acc).value;
        forall i | |acc.rows| <= i < |next.rows| ensures IsVariant(line, next.rows[i]) {
          var a :| a in alts && next.rows[i] == Variant(line, col, a);
        }
      }
      AddColsExact(line, cols[1..], next);
      var after := AddCols(line, cols[1..], next).value;
      ExtendsTransitive(acc, next, after);
      forall k, a | 0 <= k < |cols| && a in line[cols[k]].alts
        ensures Variant(line, cols[k], a) in after.had
      {
        if k > 0 { assert cols[k] == cols[1..][k - 1]; }
      }
      forall i | |acc.rows| <= i < |after.rows| ensures IsVariant(line, after.rows[i]) {
        if i < |next.rows| { assert after.rows[i] == next.rows[i]; }
      }
    }
  }

  /**
   * Lines 245-254. A line without lists adds itself, unconditionally; a line
   * with lists fails exactly when a non-empty list sits beside an empty one,
   * and otherwise adds, without repeats, the one-alternative-at-a-time rows of
   * all its list columns that no earlier list line produced, and nothing else.
   */
  lemma ExpandLineExact(line: seq<Cell>, acc: Expansion)
    requires NoDitto(line)
    ensures ListColumns(line) == [] ==> ExpandLine(line, acc) == Ok(Expansion(acc.rows + [Strings(line)], acc.had))
    ensures ListColumns(line) != [] ==> (ExpandLine(line, acc).Ok? <==> !BadLists(line))
    ensures ListColumns(line) != [] && ExpandLine(line, acc).Ok? ==>
      var after := ExpandLine(line, acc).value;
      Extends(acc, after) &&
      (forall c, a ::
        (0 <= c < |line| && line[c].Alts? && a in line[c].alts &&
         forall j :: 0 <= j < |line| && j != c ==> line[j] != Alts([]))
        ==> Variant(line, c, a) in after.had) &&
      (forall i :: |acc.rows| <= i < |after.rows| ==> IsVariant(line, after.rows[i]))
  {
    var cols := ListColumns(line);
    if cols != [] {
      if BadLists(line) {
        var c1, c2 :| 0 <= c1 < |line| && 0 <= c2 < |line| && c1 != c2 &&
          line[c1].Alts? && line[c1].alts != [] && line[c2] == Alts([]);
        AddColsFails(line, cols, acc, c1, c2);
      } else {
        AddColsExact(line, cols, acc);
        var after := ExpandLine(line, acc).value;
        forall c, a | 0 <= c < |line| && line[c].Alts? && a in line[c].alts
          ensures Variant(line, c, a) in after.had
        {
          assert c in cols;
          var k :| 0 <= k < |cols| && cols[k] == c;
        }
      }
    }
  }

  /** A non-empty list beside an empty one aborts the expansion of the line. */
  lemma {:induction false} AddColsFails(line: seq<Cell>, cols: seq<nat>, acc: Expansion, c1: nat, c2: nat)
    requires NoDitto(line)
    requires forall k :: 0 <= k < |cols| ==> cols[k] < |line| && line[cols[k]].Alts?
    requires c1 < |line| && c2 < |line| && c1 != c2 && c1 in cols
    requires line[c1].Alts? && line[c1].alts != [] && line[c2] == Alts([])
    ensures AddCols(line, cols, acc).Err?
    decreases |cols|
  {
    var col := cols[0];
    if col == c1 {
      AddAltsFails(line, col, line[col].alts, acc, c2);
    } else {
      match AddAlts(line, col, line[col].alts, acc)
      case Err(_) =>
      case Ok(next) =>
        assert c1 in cols[1..];
        AddColsFails(line, cols[1..], next, c1, c2);
    }
  }

  lemma AddAltsFails(line: seq<Cell>, col: nat, alts: seq<string>, acc: Expansion, c2: nat)
    requires col < |line| && NoDitto(line) && alts != []
    requires c2 < |line| && c2 != col && line[c2] == Alts([])
    ensures AddAlts(line, col, alts, acc).Err?
  {
    assert VariantOf(line, col, alts[0]).Err?;
  }

  /** Every row the expansion appends has the line's arity. */
  lemma {:induction false} AddAltsWidth(line: seq<Cell>, col: nat, alts: seq<string>, acc: Expansion)
    requires col < |line| && NoDitto(line) && HasWidth(acc.rows, |line|)
    ensures AddAlts(line, col, alts, acc).Ok? ==> HasWidth(AddAlts(line, col, alts, acc).value.rows, |line|)
    decreases |alts|
  {
    if alts != [] {
      match VariantOf(line, col, alts[0])
      case Err(_) =>
      case Ok(v) =>
        var next := if v in acc.had then acc else Expansion(acc.rows + [v], acc.had + {v});
        AddAltsWidth(line, col, alts[1..], next);
    }
  }

  lemma {:induction false} AddColsWidth(line: seq<Cell>, cols: seq<nat>, acc: Expansion)
    requires NoDitto(line) && HasWidth(acc.rows, |line|)
    requires forall k :: 0 <= k < |cols| ==> cols[k] < |line| && line[cols[k]].Alts?
    ensures AddCols(line, cols, acc).Ok? ==> HasWidth(AddCols(line, cols, acc).value.rows, |line|)
    decreases |cols|
  {
    if cols != [] {
      AddAltsWidth(line, cols[0], line[cols[0]].alts, acc);
      match AddAlts(line, cols[0], line[cols[0]].alts, acc)
      case Err(_) =>
      case Ok(next) => AddColsWidth(line, cols[1..], next);
    }
  }

  lemma ExpandLineWidth(line: seq<Cell>, acc: Expansion)
    requires NoDitto(line) && HasWidth(acc.rows, |line|)
    ensures ExpandLine(line, acc).Ok? ==> HasWidth(ExpandLine(line, acc).value.rows, |line|)
  {
    if ListColumns(line) != [] {
      AddColsWidth(line, ListColumns(line), acc);
    }
  }

  lemma {:induction false} ExpandFromWidth(lines: seq<seq<Cell>>, prev: Option<seq<Cell>>, acc: Expansion, width: nat)
    requires forall i :: 0 <= i < |lines| ==> |lines[i]| == width
    requires prev.Some? ==> |prev.value| == width && NoDitto(prev.value)
    requires HasWidth(acc.rows, width)
    ensures ExpandFrom(lines, prev, acc, width).Ok? ==> HasWidth(ExpandFrom(lines, prev, acc, width).value.rows, width)
    decreases |lines|
  {
    if lines != [] {
      match Resolve(lines[0], prev)
      case Err(_) =>
      case Ok(line) =>
        ExpandLineWidth(line, acc);
        match ExpandLine(line, acc)
        case Err(_) =>
        case Ok(next) => ExpandFromWidth(lines[1..], Some(line), next, width);
    }
  }

  /** Line 149 and after: every expanded row has the header's arity, and all its cells are plain spellings. */
  lemma ExpandPreservesArity(authored: seq<seq<Cell>>)
    requires authored != []
    ensures Expand(authored).Ok? ==> HasWidth(Expand(authored).value, |authored[0]|)
  {
    if Rectangular(authored) {
      ExpandFromWidth(authored, None, Expansion([], {}), |authored[0]|);
    }
  }

  /** Line 149: the only rows refused for their arity are those of a table that is not rectangular. */
  lemma ExpandChecksArity(authored: seq<seq<Cell>>)
    ensures Expand(authored) == Err(RaggedRow) <==> !Rectangular(authored)
  {
  }

  predicate AllStrings(line: seq<Cell>) {
    forall j :: 0 <= j < |line| ==> line[j].Str?
  }

  /** A line of plain spellings has no ditto and no list column. */
  lemma PlainLine(line: seq<Cell>)
    requires AllStrings(line)
    ensures NoDitto(line) && ListColumns(line) == []
  {
    NoListColumnsBelow(line, |line|);
  }

  lemma {:induction false} NoListColumnsBelow(line: seq<Cell>, n: nat)
    requires n <= |line| && AllStrings(line)
    ensures ListColumnsBelow(line, n) == []
  {
    if n > 0 {
      NoListColumnsBelow(line, n - 1);
      assert line[n - 1].Str?;
    }
  }

  /** Expanding a line only appends rows. */
  lemma ExpandLineKeepsRows(line: seq<Cell>, acc: Expansion)
    requires NoDitto(line)
    ensures ExpandLine(line, acc).Ok? ==> acc.rows <= ExpandLine(line, acc).value.rows
  {
    ExpandLineExact(line, acc);
  }

  lemma {:induction false} ExpandFromKeepsRows(lines: seq<seq<Cell>>, prev: Option<seq<Cell>>, acc: Expansion, width: nat)
    requires forall i :: 0 <= i < |lines| ==> |lines[i]| == width
    requires prev.Some? ==> |prev.value| == width && NoDitto(prev.value)
    ensures ExpandFrom(lines, prev, acc, width).Ok? ==> acc.rows <= ExpandFrom(lines, prev, acc, width).value.rows
    decreases |lines|
  {
    if lines != [] {
      match Resolve(lines[0], prev)
      case Err(_) =>
      case Ok(line) =>
        ExpandLineKeepsRows(line, acc);
        match ExpandLine(line, acc)
        case Err(_) =>
        case Ok(next) => ExpandFromKeepsRows(lines[1..], Some(line), next, width);
    }
  }

  /** A line of plain spellings resolves to itself and is appended as it is. */
  lemma PlainStep(lines: seq<seq<Cell>>, prev: Option<seq<Cell>>, acc: Expansion, width: nat)
    requires lines != [] && AllStrings(lines[0])
    requires forall i :: 0 <= i < |lines| ==> |lines[i]| == width
    requires prev.Some? ==> |prev.value| == width && NoDitto(prev.value)
    ensures ExpandFrom(lines, prev, acc, width) ==
      ExpandFrom(lines[1..], Some(lines[0]), Expansion(acc.rows + [Strings(lines[0])], acc.had), width)
  {
    var line := lines[0];
    PlainLine(line);
    assert Resolve(line, prev) == Ok(line) by {
      assert Resolve(line, prev).value == line;
    }
  }

  lemma PlainLinesFirst(lines: seq<seq<Cell>>, width: nat)
    requires |lines| >= 2 && AllStrings(lines[0]) && AllStrings(lines[1])
    requires forall i :: 0 <= i < |lines| ==> |lines[i]| == width
    ensures var r := ExpandFrom(lines, None, Expansion([], {}), width);
      r.Ok? ==> [Strings(lines[0]), Strings(lines[1])] <= r.value.rows
  {
    var acc1 := Expansion([] + [Strings(lines[0])], {});
    var acc2 := Expansion(acc1.rows + [Strings(lines[1])], {});
    assert acc2.rows == [Strings(lines[0]), Strings(lines[1])];
    PlainStep(lines, None, Expansion([], {}), width);
    PlainStep(lines[1..], Some(lines[0]), acc1, width);
    assert lines[1..][1..] == lines[2..];
    ExpandFromKeepsRows(lines[2..], Some(lines[1]), acc2, width);
  }

  /**
   * Lines 32-34 and 246: a header and a separator line made of plain
   * spellings come out as the first two expanded rows, as they are.
   */
  lemma ExpandStartsWithPlainLines(authored: seq<seq<Cell>>)
    requires |authored| >= 2 && AllStrings(authored[0]) && AllStrings(authored[1])
    ensures Expand(authored).Ok? ==>
      |Expand(authored).value| >= 2 &&
      Expand(authored).value[0] == Strings(authored[0]) && Expand(authored).value[1] == Strings(authored[1])
  {
    if Rectangular(authored) {
      PlainLinesFirst(authored, |authored[0]|);
    }
  }
}

/**
 * The `KMap` class of kmap.py:87-254: construction with its validations,
 * the Gray swaps, the group finder and the synthesis of the simplified
 * sum of products.
 */
module KMaps {
  import opened Wrappers
  import opened CycleList
  import opened Geometry
  import opened Layout
  import opened Cover
  import opened Terms
  import Arith

  /** The exceptions `KMap(...)` can raise (kmap.py:71-85, 104, 141). */
  datatype KMapError =
    | MultiCharVar       // MultiCharVarError
    | TooGreatMinterm    // TooGreatMintermError
    | TooManyMinterms    // TooManyMintermsError
    | InvalidVarNumber   // InvalidVarNumber
    | IndexOutOfRange    // an IndexError from `flatten_map[minterm]` or from the row swap

  /**
   * The four checks at the head of `__init__` (kmap.py:89-96), first match
   * wins.  `filter` keeps the names whose length is not 1 and `any` then
   * tests their truthiness, so only names longer than one character count.
   */
  function Validate(minterms: seq<int>, variables: seq<string>): (r: Option<KMapError>)
    ensures r == Some(MultiCharVar) <==> exists v :: v in variables && |v| > 1
    ensures r.None? <==>
              && (forall v :: v in variables ==> |v| <= 1)
              && (forall m :: m in minterms ==> m < Pow2(|variables|))
              && |minterms| <= Pow2(|variables|)
              && 2 <= |variables| <= 4
    ensures r == Some(TooGreatMinterm) <==>
              (forall v :: v in variables ==> |v| <= 1) && exists m :: m in minterms && m >= Pow2(|variables|)
    ensures r == Some(TooManyMinterms) <==>
              && (forall v :: v in variables ==> |v| <= 1)
              && (forall m :: m in minterms ==> m < Pow2(|variables|))
              && |minterms| > Pow2(|variables|)
    ensures r == Some(InvalidVarNumber) <==>
              && (forall v :: v in variables ==> |v| <= 1)
              && (forall m :: m in minterms ==> m < Pow2(|variables|))
              && |minterms| <= Pow2(|variables|)
              && !(2 <= |variables| <= 4)
  {
    var size := Pow2(|variables|);
    if exists v :: v in variables && |v| != 1 && v != "" then Some(MultiCharVar)
    else if exists m :: m in minterms && size <= m then Some(TooGreatMinterm)
    else if |minterms| > size then Some(TooManyMinterms)
    else if |variables| !in {2, 3, 4} then Some(InvalidVarNumber)
    else None
  }

  /** `all(flatten_map)`: every cell is a 1. */
  predicate AllSet(flat: seq<int>) {
    forall i :: 0 <= i < |flat| ==> flat[i] != 0
  }

  /** `all(map(lambda i: not i, flatten_map))`: every cell is a 0. */
  predicate NoneSet(flat: seq<int>) {
    forall i :: 0 <= i < |flat| ==> flat[i] == 0
  }

  /** What `Fixed` asks of the fields the constructor sets once. */
  ghost predicate FixedFields(variables: seq<string>, minterms: seq<int>, rowSize: int, columnSize: int,
                              grid: seq<seq<int>>, labels: seq<seq<string>>)
  {
    var n := |variables|;
    && 2 <= n <= 4
    && Indexable(minterms, Pow2(n))
    && rowSize == RowSize(n) && columnSize == ColumnSize(n)
    && grid == ValueGrid(minterms, n)
    && Rectangular(grid) && Width(grid) == rowSize && Height(grid) == columnSize
    && var varying := !AllSet(FlatValues(minterms, Pow2(n))) && !NoneSet(FlatValues(minterms, Pow2(n)));
       && (varying ==> labels == LabelGrid(n) && LabelsFit(labels, grid, n))
       && (!varying ==> labels == [])
  }

  /** The outcome of a constructor call: the new map, or the exception it raised. */
  datatype Outcome = Built(kmap: KMap) | Raised(error: KMapError)

  /**
   * Which exception `KMap(minterms, variables)` raises, if any: a failed
   * validation; then a minterm below `-2 ** n`, which `flatten_map[minterm]`
   * rejects; then, with four variables and a constant function, the row
   * swap of the empty `map_prototype` (kmap.py:141), which reads
   * `map_prototype[3]`.
   */
  function ConstructionError(minterms: seq<int>, variables: seq<string>): Option<KMapError> {
    var n := |variables|;
    if Validate(minterms, variables).Some? then Validate(minterms, variables)
    else if !Indexable(minterms, Pow2(n)) then Some(IndexOutOfRange)
    else if n == 4 && (AllSet(FlatValues(minterms, Pow2(n))) || NoneSet(FlatValues(minterms, Pow2(n)))) then Some(IndexOutOfRange)
    else None
  }

  /** The label grid fits the value grid, and every label is an `n`-bit numeral. */
  predicate LabelsFit(labels: seq<seq<string>>, grid: seq<seq<int>>, n: nat)
    requires Rectangular(grid)
  {
    && |labels| == Height(grid)
    && (forall x :: 0 <= x < |labels| ==> |labels[x]| == Width(grid))
    && (forall x, y :: 0 <= x < |labels| && 0 <= y < |labels[x]| ==> |labels[x][y]| == n && IsBinary(labels[x][y]))
  }

  /** The labels `map_prototype[p.x][p.y]` of the cells a region covers. */
  function RegionLabels(grid: seq<seq<int>>, labels: seq<seq<string>>, n: nat, c: Coordinates): (r: set<string>)
    requires Rectangular(grid) && LabelsFit(labels, grid, n)
    ensures forall l :: l in r ==> |l| == n
  {
    LabelsAt(labels, Cells(grid, c))
  }

  /** The labels of some cells of the grid. */
  function LabelsAt(labels: seq<seq<string>>, pts: set<Point>): set<string>
    requires forall p :: p in pts ==> 0 <= p.x < |labels| && 0 <= p.y < |labels[p.x]|
  {
    set p | p in pts :: labels[p.x][p.y]
  }

  lemma PrefixStep<T>(s: seq<T>, k: nat)
    requires k < |s|
    ensures s[..k + 1] == s[..k] + [s[k]]
  {
  }

  /** The strings a list holds. */
  function Listed(terms: seq<string>): set<string> {
    set k | 0 <= k < |terms| :: terms[k]
  }

  lemma LabelsAtAdd(labels: seq<seq<string>>, pts: set<Point>, q: Point)
    requires forall p :: p in pts ==> 0 <= p.x < |labels| && 0 <= p.y < |labels[p.x]|
    requires 0 <= q.x < |labels| && 0 <= q.y < |labels[q.x]|
    ensures LabelsAt(labels, pts + {q}) == LabelsAt(labels, pts) + {labels[q.x][q.y]}
  {
  }

  lemma ListedAppend(terms: seq<string>, l: string)
    ensures Listed(terms + [l]) == Listed(terms) + {l}
  {
    var t := terms + [l];
    assert t[|terms|] == l;
    forall s | s in Listed(terms) ensures s in Listed(t) {
      var k :| 0 <= k < |terms| && terms[k] == s;
      assert t[k] == s;
    }
  }

  /** The product term `simplify` writes for one region (kmap.py:237-243). */
  function Term(grid: seq<seq<int>>, labels: seq<seq<string>>, variables: seq<string>, c: Coordinates): string
    requires Rectangular(grid) && LabelsFit(labels, grid, |variables|)
  {
    BinaryToVars(Pattern(RegionLabels(grid, labels, |variables|, c), |variables|), variables)
  }

  /** The terms of all regions, in the order they were taken. */
  function TermList(grid: seq<seq<int>>, labels: seq<seq<string>>, variables: seq<string>, taken: seq<Coordinates>): (r: seq<string>)
    requires Rectangular(grid) && LabelsFit(labels, grid, |variables|)
    ensures |r| == |taken|
  {
    seq(|taken|, k requires 0 <= k < |taken| => Term(grid, labels, variables, taken[k]))
  }

  /** `" + ".join(...)` of the terms (kmap.py:245). */
  function Expression(grid: seq<seq<int>>, labels: seq<seq<string>>, variables: seq<string>, taken: seq<Coordinates>): string
    requires Rectangular(grid) && LabelsFit(labels, grid, |variables|)
  {
    Join(TermList(grid, labels, variables, taken), " + ")
  }

  /** With no space in any name, the expression of a non-empty cover cuts back into its terms. */
  lemma ExpressionSplits(grid: seq<seq<int>>, labels: seq<seq<string>>, variables: seq<string>, taken: seq<Coordinates>)
    requires Rectangular(grid) && LabelsFit(labels, grid, |variables|)
    requires forall j :: 0 <= j < |variables| ==> ' ' !in variables[j]
    requires |taken| > 0
    ensures SplitTerms(Expression(grid, labels, variables, taken)) == TermList(grid, labels, variables, taken)
  {
    var n := |variables|;
    var terms := TermList(grid, labels, variables, taken);
    forall k | 0 <= k < |terms| ensures ' ' !in terms[k] {
      TermHasNoSpace(Pattern(RegionLabels(grid, labels, n, taken[k]), n), variables);
    }
    JoinSplits(terms);
  }

  /** The rows `flat[i:i+row_size]` of a flat list, built as in kmap.py:106-108 and 124-129. */
  method Chunk<T>(flat: seq<T>, rowSize: nat) returns (rows: seq<seq<T>>)
    requires rowSize > 0 && |flat| % rowSize == 0
    ensures rows == Rows(flat, rowSize)
  {
    rows := [];
    var i := 0;
    while i < |flat|
      invariant 0 <= i <= |flat| && (|flat| - i) % rowSize == 0
      invariant rows + Rows(flat[i..], rowSize) == Rows(flat, rowSize)
      decreases |flat| - i
    {
      MultipleStep(|flat| - i, rowSize);
      assert flat[i..][rowSize..] == flat[i + rowSize..];
      assert flat[i..][..rowSize] == flat[i..i + rowSize];
      rows := rows + [flat[i..i + rowSize]];
      i := i + rowSize;
    }
  }

  class KMap {
    var variables: seq<string>
    var minterms: seq<int>
    var rowSize: int
    var columnSize: int
    /** `map_`: `column_size` rows of `row_size` 0/1 values. */
    var grid: seq<seq<int>>
    /** `map_prototype`: the binary label of every cell; empty for a constant function. */
    var labels: seq<seq<string>>
    var simplified: string
    /** `taken`, in the order the regions were added. */
    var taken: seq<Coordinates>

    /** `flatten_map` of the constructor. */
    ghost function Flat(): seq<int>
      reads this`minterms, this`variables
    {
      FlatValues(minterms, Pow2(|variables|))
    }

    /** The function is neither constantly 1 nor constantly 0. */
    ghost predicate Varying()
      reads this`minterms, this`variables
    {
      !AllSet(Flat()) && !NoneSet(Flat())
    }

    /** `map_` has `column_size` rows of `row_size` entries. */
    ghost predicate Shape()
      reads this`grid, this`rowSize, this`columnSize
    {
      Rectangular(grid) && Width(grid) == rowSize && Height(grid) == columnSize
    }

    /** The fields the constructor sets once and nothing changes afterwards. */
    ghost predicate Fixed()
      reads this`variables, this`minterms, this`rowSize, this`columnSize, this`grid, this`labels
    {
      FixedFields(variables, minterms, rowSize, columnSize, grid, labels)
    }

    /** What holds of every map `KMap(...)` returns, and what `simplify` keeps. */
    ghost predicate Valid()
      reads this
    {
      && Fixed()
      && (AllSet(Flat()) ==> simplified == "1" && taken == [Coordinates(0, 0, rowSize, columnSize)])
      && (NoneSet(Flat()) ==> simplified == "0")
      && (Varying() ==> Sound(grid, taken))
    }

    /**
     * What the passes of `simplify` rely on and keep: the shape of `map_`,
     * and every taken region all ones and of a template's shape.
     */
    ghost predicate Searching()
      reads this`grid, this`rowSize, this`columnSize, this`taken
    {
      Shape() && Sound(grid, taken)
    }

    /**
     * The body of `__init__` after the validations, up to the Gray swaps
     * (kmap.py:98-129), given the marked `flatten_map`.
     */
    constructor (minterms: seq<int>, variables: seq<string>, flat: seq<int>)
      requires 2 <= |variables| <= 4 && flat == FlatValues(minterms, Pow2(|variables|))
      ensures this.variables == variables && this.minterms == minterms
      ensures rowSize == RowSize(|variables|) && columnSize == ColumnSize(|variables|)
      ensures grid == Rows(flat, rowSize)
      ensures simplified == (if NoneSet(flat) then "0" else if AllSet(flat) then "1" else "")
      ensures taken == (if AllSet(flat) then [Coordinates(0, 0, rowSize, columnSize)] else [])
      ensures labels == (if AllSet(flat) || NoneSet(flat) then [] else Rows(LabelFlat(|variables|), rowSize))
    {
      var n := |variables|;
      var rs := if n == 3 || n == 4 then 4 else 2;
      var cs := if n == 2 || n == 3 then 2 else 4;
      Extents(n);
      Arith.DivModUnique(Pow2(n), cs, 0, rs);
      this.variables := variables;
      this.minterms := minterms;
      rowSize := rs;
      columnSize := cs;
      var rows := Chunk(flat, rs);
      grid := rows;
      var s := "";
      var t := [];
      if AllSet(flat) {
        s := "1";
        t := [Coordinates(0, 0, rs, cs)];
      }
      if NoneSet(flat) {
        s := "0";
      }
      simplified := s;
      taken := t;
      var prototype: seq<seq<string>> := [];
      if s == "" {
        var protoFlat: seq<string> := [];
        for i := 0 to Pow2(n)
          invariant protoFlat == seq(i, k requires 0 <= k < i => Label(k, n))
        {
          protoFlat := protoFlat + [ZFill(Bin(i), n)];
        }
        assert protoFlat == LabelFlat(n);
        prototype := Chunk(protoFlat, rs);
      }
      labels := prototype;
    }

    /**
     * `__grayify_maps` (kmap.py:133-141): on each of `map_` and
     * `map_prototype`, with three or more variables exchange entries 2 and
     * 3 of every row, and with four exchange rows 2 and 3.  The exchange of
     * rows of an empty `map_prototype` raises.
     */
    method GrayifyMaps() returns (raised: bool)
      requires 2 <= |variables| <= 4
      requires |variables| > 2 ==> (forall x :: 0 <= x < |grid| ==> |grid[x]| == 4) && (forall x :: 0 <= x < |labels| ==> |labels[x]| == 4)
      requires |variables| > 3 ==> |grid| == 4 && (|labels| == 0 || |labels| == 4)
      modifies this`grid, this`labels
      ensures raised <==> |variables| > 3 && old(labels) == []
      ensures grid == Grayed(old(grid), |variables|)
      ensures !raised ==> labels == Grayed(old(labels), |variables|)
    {
      var g := GraySwaps(grid, |variables|);
      grid := g.value;
      var l := GraySwaps(labels, |variables|);
      if l.None? {
        return true;
      }
      labels := l.value;
      return false;
    }

    /**
     * `__grayify_maps` as evidently intended: the label grid is exchanged
     * only when it exists, so a constant function of four variables builds.
     */
    method GrayifyMapsGuarded()
      requires 2 <= |variables| <= 4
      requires |variables| > 2 ==> (forall x :: 0 <= x < |grid| ==> |grid[x]| == 4) && (forall x :: 0 <= x < |labels| ==> |labels[x]| == 4)
      requires |variables| > 3 ==> |grid| == 4 && (|labels| == 0 || |labels| == 4)
      modifies this`grid, this`labels
      ensures grid == Grayed(old(grid), |variables|)
      ensures labels == (if old(labels) == [] then [] else Grayed(old(labels), |variables|))
    {
      var g := GraySwaps(grid, |variables|);
      grid := g.value;
      if labels != [] {
        var l := GraySwaps(labels, |variables|);
        labels := l.value;
      }
    }

    /** `_is_taken` (kmap.py:153-164). */
    method IsTaken(c: Coordinates) returns (b: bool)
      requires Shape()
      ensures b == Subsumed(grid, taken, c)
    {
      if |taken| == 0 {
        return false;
      }
      var points := ToPoints(c, Some(rowSize), Some(columnSize));
      var takenPoints: set<Point> := {};
      for k := 0 to |taken|
        invariant takenPoints == Covered(grid, taken[..k])
      {
        var tp := ToPoints(taken[k], Some(rowSize), Some(columnSize));
        assert taken[..k + 1] == taken[..k] + [taken[k]];
        CoveredAppend(grid, taken[..k], taken[k]);
        takenPoints := takenPoints + tp.value;
      }
      assert taken[..|taken|] == taken;
      return points.value <= takenPoints;
    }

    /** `_are_all1` (kmap.py:166-170): stops at the first 0 it meets. */
    method AreAll1(c: Coordinates) returns (b: bool)
      requires Shape()
      ensures b == AllOnes(grid, c)
    {
      var points := ToPoints(c, None, None);
      var rest := points.value;
      while rest != {}
        invariant rest <= points.value
        invariant forall p :: p in points.value - rest ==> Cell(grid, p.x, p.y) != 0
        decreases rest
      {
        var point :| point in rest;
        var row := Get(grid, point.x);
        assert row.value in grid;
        var value := Get(row.value, point.y);
        if value.value == 0 {
          RawPointsMember(c, point);
          return false;
        }
        rest := rest - {point};
      }
      forall p | p in RawPoints(c) ensures Cell(grid, p.x, p.y) != 0 {
        RawPointsMember(c, p);
      }
      return true;
    }

    /** One candidate of the size-4, 2 and 1 passes (kmap.py:194-195, 204-205, 208-209). */
    method AddUntaken(c: Coordinates)
      requires Searching() && Shaped(c)
      modifies this`taken
      ensures Searching()
      ensures taken == TryAdd(grid, old(taken), c)
    {
      var all1 := AreAll1(c);
      if all1 {
        var isTaken := IsTaken(c);
        if !isTaken && c !in taken {
          taken := taken + [c];
        }
      }
      TryAddKeeps(grid, old(taken), c, |old(taken)|);
    }

    /** `__find_all8` (kmap.py:172-183). */
    method FindAll8()
      requires Searching()
      modifies this`taken
      ensures Searching()
      ensures taken == Find8(grid, old(taken))
    {
      var coords8 := [Coordinates(0, 0, 1, 3)];
      if columnSize == 4 {
        coords8 := coords8 + [Coordinates(0, 0, 3, 1), Coordinates(0, 2, 3, 3), Coordinates(2, 0, 3, 3)];
      }
      assert coords8 == Templates8(Height(grid));
      TemplatesShaped(grid, Ones, 0, 0);
      for k := 0 to |coords8|
        invariant Searching()
        invariant AddAllIfOnes(grid, taken, coords8[k..]) == Find8(grid, old(taken))
      {
        var c := coords8[k];
        assert coords8[k..][1..] == coords8[k + 1..];
        ghost var before := taken;
        var all1 := AreAll1(c);
        if all1 && c !in taken {
          taken := taken + [c];
        }
        assert taken == AddIfOnes(grid, before, c);
        AddIfOnesSound(grid, before, c);
      }
    }

    /** `__find_all4` (kmap.py:185-195). */
    method FindAll4(anchor: Coordinates)
      requires Searching() && anchor.topX == anchor.botX && anchor.topY == anchor.botY
      modifies this`taken
      ensures Searching()
      ensures taken == TryAddAll(grid, old(taken), Templates4(columnSize, anchor))
    {
      var coords4 := [Add(anchor, Coordinates(0, 0, 0, 3)), Add(anchor, Coordinates(0, 0, 1, 1))];
      if columnSize == 4 {
        coords4 := coords4 + [Coordinates(0, 0, 3, 0)];
      }
      assert coords4 == Templates4(columnSize, anchor);
      TemplatesShaped(grid, Fours, anchor.topX, anchor.topY);
      for k := 0 to |coords4|
        invariant Searching()
        invariant TryAddAll(grid, taken, coords4[k..]) == TryAddAll(grid, old(taken), coords4)
      {
        assert coords4[k..][1..] == coords4[k + 1..];
        AddUntaken(coords4[k]);
      }
    }

    /** `__find_all2` (kmap.py:197-205). */
    method FindAll2(anchor: Coordinates)
      requires Searching() && anchor.topX == anchor.botX && anchor.topY == anchor.botY
      modifies this`taken
      ensures Searching()
      ensures taken == TryAddAll(grid, old(taken), Templates2(anchor))
    {
      var coords2 := [Add(anchor, Coordinates(0, 0, 1, 0)), Add(anchor, Coordinates(0, 0, 0, 1))];
      TemplatesShaped(grid, Twos, anchor.topX, anchor.topY);
      for k := 0 to |coords2|
        invariant Searching()
        invariant TryAddAll(grid, taken, coords2[k..]) == TryAddAll(grid, old(taken), coords2)
      {
        assert coords2[k..][1..] == coords2[k + 1..];
        AddUntaken(coords2[k]);
      }
    }

    /** `__find_all1` (kmap.py:207-209). */
    method FindAll1(anchor: Coordinates)
      requires Searching() && anchor.topX == anchor.botX && anchor.topY == anchor.botY
      modifies this`taken
      ensures Searching()
      ensures taken == TryAddAll(grid, old(taken), [anchor])
    {
      AddUntaken(anchor);
      assert [anchor][1..] == [];
    }

    /** The call one pass makes for the 1-cell at entry `y` of row `x` (kmap.py:219, 224, 229). */
    method FindAt(pass: Pass, x: int, y: int)
      requires Searching() && 0 <= x < columnSize && 0 <= y < rowSize && grid[x][y] != 0
      modifies this`taken
      ensures Searching()
      ensures taken == Visit(grid, old(taken), pass, x, y)
    {
      var anchor := Anchor(x, y);
      match pass {
        case Fours => FindAll4(anchor);
        case Twos => FindAll2(anchor);
        case Ones => FindAll1(anchor);
      }
    }

    /** One iteration of a pass's inner loop: `minterm` is `map_[x][y]`, and only a 1-cell anchors (kmap.py:218-219). */
    method VisitAt(pass: Pass, x: int, y: int, minterm: int)
      requires Searching() && 0 <= x < columnSize && 0 <= y < rowSize && minterm == grid[x][y]
      modifies this`taken
      ensures Searching()
      ensures taken == Visit(grid, old(taken), pass, x, y)
    {
      if minterm != 0 {
        FindAt(pass, x, y);
      }
    }

    /** One of the three nested loops of `simplify` (kmap.py:216-229): every 1-cell, row by row, anchors the pass. */
    method Sweep(pass: Pass)
      requires Searching()
      modifies this`taken
      ensures Searching()
      ensures taken == RunPass(grid, old(taken), pass)
    {
      var x := 0;
      while x < |grid|
        invariant Searching() && 0 <= x <= |grid|
        invariant taken == SweepRows(grid, old(taken), pass, x)
      {
        SweepRowAt(pass, x);
        x := x + 1;
      }
    }

    /** The inner loop of a pass (kmap.py:217-219): the entries of row `x`, in order. */
    method SweepRowAt(pass: Pass, x: int)
      requires Searching() && 0 <= x < |grid|
      modifies this`taken
      ensures Searching()
      ensures taken == SweepRow(grid, old(taken), pass, x, Width(grid))
    {
      var row := grid[x];
      assert row in grid;
      assert |row| == Width(grid);
      var y := 0;
      while y < |row|
        invariant Searching() && 0 <= y <= Width(grid) && row == grid[x]
        invariant taken == SweepRow(grid, old(taken), pass, x, y)
      {
        VisitAt(pass, x, y, row[y]);
        y := y + 1;
      }
    }

    /** The labels of some cells, read one cell at a time (kmap.py:238-240). */
    method LabelsOf(pts: set<Point>) returns (terms: seq<string>)
      requires Shape() && LabelsFit(labels, grid, |variables|)
      requires forall p :: p in pts ==> 0 <= p.x < Height(grid) && 0 <= p.y < Width(grid)
      ensures Listed(terms) == LabelsAt(labels, pts)
      ensures Numerals(terms, |variables|)
      ensures |terms| > 0 <==> pts != {}
    {
      var n := |variables|;
      terms := [];
      var rest := pts;
      ghost var done: set<Point> := {};
      while rest != {}
        invariant rest + done == pts && rest !! done
        invariant Listed(terms) == LabelsAt(labels, done)
        invariant Numerals(terms, n)
        invariant |terms| > 0 <==> done != {}
        decreases rest
      {
        var point :| point in rest;
        var row := Get(labels, point.x);
        GetInRange(labels, point.x);
        var l := Get(row.value, point.y);
        GetInRange(row.value, point.y);
        ListedAppend(terms, l.value);
        LabelsAtAdd(labels, done, point);
        terms := terms + [l.value];
        rest := rest - {point};
        done := done + {point};
      }
    }

    /**
     * The term of one region (kmap.py:237-243): its labels, collapsed bit
     * by bit, spelled with the variable names.
     */
    method RegionTerm(c: Coordinates) returns (term: string)
      requires Shape() && LabelsFit(labels, grid, |variables|) && Shaped(c)
      ensures term == Term(grid, labels, variables, c)
    {
      var n := |variables|;
      var points := ToPoints(c, Some(rowSize), Some(columnSize));
      assert points.value == Cells(grid, c);
      var terms := LabelsOf(points.value);
      assert Point(c.topX, c.topY) in RawPoints(c);
      assert Wrap(Point(c.topX, c.topY), rowSize, columnSize) in points.value;
      CollapseIsPattern(terms, n);
      term := BinaryToVars(Collapse(terms, n), variables);
    }

    /** The four passes of `simplify` (kmap.py:215-229), in order: 8, 4, 2 and 1. */
    method TakeAll()
      requires Searching()
      modifies this`taken
      ensures Searching()
      ensures taken == Search(grid, old(taken))
    {
      FindAll8();
      ghost var t8 := taken;
      Sweep(Fours);
      ghost var t4 := taken;
      Sweep(Twos);
      ghost var t2 := taken;
      Sweep(Ones);
      SearchSteps(grid, old(taken), t8, t4, t2, taken);
    }

    /** The end of `simplify` (kmap.py:234-245): one term per region, joined with " + ". */
    method Synthesize()
      requires Shape() && LabelsFit(labels, grid, |variables|)
      requires forall k :: 0 <= k < |taken| ==> Shaped(taken[k])
      modifies this`simplified
      ensures simplified == Expression(grid, labels, variables, taken)
    {
      ghost var all := TermList(grid, labels, variables, taken);
      var regions := taken;
      var terms: seq<string> := [];
      for k := 0 to |regions|
        invariant terms == all[..k]
      {
        var term := RegionTerm(regions[k]);
        assert all[k] == term;
        PrefixStep(all, k);
        terms := terms + [term];
      }
      assert terms == all;
      simplified := Join(terms, " + ");
    }

    /**
     * `simplify` (kmap.py:211-245): nothing changes once `simplified` is
     * set; otherwise the four passes extend `taken`, and unless `just_take`
     * holds the terms of all regions are joined into `simplified`.
     */
    method Simplify(justTake: bool)
      requires Valid()
      modifies this`taken, this`simplified
      ensures Valid()
      ensures old(simplified) != "" ==> simplified == old(simplified) && taken == old(taken)
      ensures old(simplified) == "" ==> taken == Search(grid, old(taken))
      ensures old(simplified) == "" ==> Varying() && Covered(grid, taken) == OneCells(grid)
      ensures old(simplified) == "" && justTake ==> simplified == ""
      ensures old(simplified) == "" && !justTake ==> simplified == Expression(grid, labels, variables, taken)
    {
      if simplified != "" {
        return;
      }
      assert Varying() && Searching();
      TakeAll();
      if !justTake {
        SoundShaped(grid, taken);
        Synthesize();
      }
      SearchCoversOnes(grid, old(taken));
      VaryingValid();
    }

    /** With a varying function, `Valid` asks only for the fixed fields and a sound `taken`. */
    lemma VaryingValid()
      requires Fixed() && Varying() && Sound(grid, taken)
      ensures Valid()
    {
    }
  }

  /**
   * `KMap(minterms, variables)` (kmap.py:88-131): the validations, the
   * marking of `flatten_map`, the construction and the Gray swaps.
   */
  method NewKMap(minterms: seq<int>, variables: seq<string>) returns (r: Outcome)
    ensures r.Raised? <==> ConstructionError(minterms, variables).Some?
    ensures r.Raised? ==> r.error == ConstructionError(minterms, variables).value
    ensures r.Built? ==> fresh(r.kmap) && r.kmap.Valid()
    ensures r.Built? ==> r.kmap.variables == variables && r.kmap.minterms == minterms
    ensures r.Built? ==> r.kmap.simplified == (if NoneSet(r.kmap.Flat()) then "0" else if AllSet(r.kmap.Flat()) then "1" else "")
    ensures r.Built? && !AllSet(r.kmap.Flat()) ==> r.kmap.taken == []
  {
    var invalid := Validate(minterms, variables);
    if invalid.Some? {
      return Raised(invalid.value);
    }
    var n := |variables|;
    var flat := FillFlatMap(minterms, Pow2(n));
    if flat.None? {
      return Raised(IndexOutOfRange);
    }
    r := Build(minterms, variables, flat.value);
  }

  /**
   * The checks in action: an empty name passes (it is not truthy), a
   * duplicate minterm counts towards the limit, a negative minterm passes,
   * and the name check comes first.
   */
  lemma ValidationExamples()
    ensures Validate([0, 3], ["a", ""]) == None
    ensures Validate([1, 1, 1, 1, 1], ["a", "b"]) == Some(TooManyMinterms)
    ensures Validate([-4], ["a", "b"]) == None
    ensures Validate([4], ["a", "b"]) == Some(TooGreatMinterm)
    ensures Validate([4], ["ab", "c"]) == Some(MultiCharVar)
    ensures Validate([0], ["a"]) == Some(InvalidVarNumber)
  {
    assert Pow2(2) == 4 && Pow2(1) == 2;
    assert |["ab", "c"][0]| > 1;
    assert 4 in [4];
  }

  /** A constant function of four variables makes the constructor raise. */
  lemma ConstantFourRaises()
    ensures ConstructionError([], ["a", "b", "c", "d"]) == Some(IndexOutOfRange)
  {
    var flat := FlatValues([], Pow2(4));
    assert NoneSet(flat);
  }

  /**
   * The constructor with the guarded Gray swap: it raises only what the
   * validations and the marking loop raise, so every constant function builds.
   */
  method NewKMapGuarded(minterms: seq<int>, variables: seq<string>) returns (r: Outcome)
    ensures r.Raised? <==> Validate(minterms, variables).Some? || !Indexable(minterms, Pow2(|variables|))
    ensures r.Raised? && Validate(minterms, variables).Some? ==> r.error == Validate(minterms, variables).value
    ensures r.Built? ==> fresh(r.kmap) && r.kmap.Valid()
    ensures r.Built? ==> r.kmap.variables == variables && r.kmap.minterms == minterms
    ensures r.Built? ==> r.kmap.simplified == (if NoneSet(r.kmap.Flat()) then "0" else if AllSet(r.kmap.Flat()) then "1" else "")
    ensures r.Built? && !AllSet(r.kmap.Flat()) ==> r.kmap.taken == []
  {
    var invalid := Validate(minterms, variables);
    if invalid.Some? {
      return Raised(invalid.value);
    }
    var n := |variables|;
    var flat := FillFlatMap(minterms, Pow2(n));
    if flat.None? {
      return Raised(IndexOutOfRange);
    }
    var m := BuildGuarded(minterms, variables, flat.value);
    r := Built(m);
  }

  /** `map_` of a constructed map has `column_size` rows of `row_size` entries. */
  lemma ValueGridShape(minterms: seq<int>, n: int)
    requires 2 <= n <= 4
    ensures Rectangular(ValueGrid(minterms, n))
    ensures Width(ValueGrid(minterms, n)) == RowSize(n) && Height(ValueGrid(minterms, n)) == ColumnSize(n)
  {
    var grid := ValueGrid(minterms, n);
    LayoutShape(FlatValues(minterms, Pow2(n)), n);
    forall row | row in grid ensures |row| == |grid[0]| {
      var x :| 0 <= x < |grid| && grid[x] == row;
    }
  }

  /** `map_prototype` fits `map_`, and every label is an `n`-bit numeral. */
  lemma LabelGridFits(minterms: seq<int>, n: int)
    requires 2 <= n <= 4 && Rectangular(ValueGrid(minterms, n))
    requires Width(ValueGrid(minterms, n)) == RowSize(n) && Height(ValueGrid(minterms, n)) == ColumnSize(n)
    ensures LabelsFit(LabelGrid(n), ValueGrid(minterms, n), n)
  {
    var labels := LabelGrid(n);
    LabelLengths(n);
    forall x, y | 0 <= x < |labels| && 0 <= y < |labels[x]|
      ensures IsBinary(labels[x][y])
    {
      LayoutAt(LabelFlat(n), n, x, y);
      LabelRoundTrip(CellIndex(n, x, y), n);
    }
  }

  /** The constructor after the validations and the marking: the fields, then the Gray swaps. */
  method Build(minterms: seq<int>, variables: seq<string>, flat: seq<int>) returns (r: Outcome)
    requires 2 <= |variables| <= 4 && Indexable(minterms, Pow2(|variables|))
    requires flat == FlatValues(minterms, Pow2(|variables|))
    ensures r.Raised? <==> |variables| == 4 && (AllSet(flat) || NoneSet(flat))
    ensures r.Raised? ==> r.error == IndexOutOfRange
    ensures r.Built? ==> fresh(r.kmap) && r.kmap.Valid()
    ensures r.Built? ==> r.kmap.variables == variables && r.kmap.minterms == minterms
    ensures r.Built? ==> r.kmap.simplified == (if NoneSet(flat) then "0" else if AllSet(flat) then "1" else "")
    ensures r.Built? && !AllSet(flat) ==> r.kmap.taken == []
  {
    var n := |variables|;
    var m := new KMap(minterms, variables, flat);
    GrayShapeOfRows(flat, n);
    if !AllSet(flat) && !NoneSet(flat) {
      GrayShapeOfRows(LabelFlat(n), n);
    }
    var raised := m.GrayifyMaps();
    if raised {
      return Raised(IndexOutOfRange);
    }
    BuiltValid(m);
    return Built(m);
  }

  /** `Build` with the guarded Gray swap, which always builds. */
  method BuildGuarded(minterms: seq<int>, variables: seq<string>, flat: seq<int>) returns (m: KMap)
    requires 2 <= |variables| <= 4 && Indexable(minterms, Pow2(|variables|))
    requires flat == FlatValues(minterms, Pow2(|variables|))
    ensures fresh(m) && m.Valid()
    ensures m.variables == variables && m.minterms == minterms
    ensures m.simplified == (if NoneSet(flat) then "0" else if AllSet(flat) then "1" else "")
    ensures !AllSet(flat) ==> m.taken == []
  {
    var n := |variables|;
    m := new KMap(minterms, variables, flat);
    GrayShapeOfRows(flat, n);
    if !AllSet(flat) && !NoneSet(flat) {
      GrayShapeOfRows(LabelFlat(n), n);
    }
    m.GrayifyMapsGuarded();
    BuiltValid(m);
  }

  /** The state `Build` and `BuildGuarded` leave satisfies the invariant. */
  lemma BuiltValid(m: KMap)
    requires 2 <= |m.variables| <= 4 && Indexable(m.minterms, Pow2(|m.variables|))
    requires m.rowSize == RowSize(|m.variables|) && m.columnSize == ColumnSize(|m.variables|)
    requires m.grid == ValueGrid(m.minterms, |m.variables|)
    requires m.simplified == (if NoneSet(m.Flat()) then "0" else if AllSet(m.Flat()) then "1" else "")
    requires m.taken == (if AllSet(m.Flat()) then [Coordinates(0, 0, m.rowSize, m.columnSize)] else [])
    requires m.labels == (if AllSet(m.Flat()) || NoneSet(m.Flat()) then [] else LabelGrid(|m.variables|))
    ensures m.Valid()
  {
    var n := |m.variables|;
    ValueGridShape(m.minterms, n);
    if AllSet(m.Flat()) {
      assert m.Flat()[0] != 0;
    }
    if m.Varying() {
      LabelGridFits(m.minterms, n);
    }
  }
}

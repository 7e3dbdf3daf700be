/**
 * What the cover `simplify` builds means for the function: a cell's label
 * satisfies one of the product terms exactly when the cell holds a 1.
 * Every region the group finder tries spans 1, 2 or 4 consecutive rows and
 * 1, 2 or 4 consecutive entries on the torus, so along each dimension its
 * Gray codes form a sub-cube, and the collapsed pattern of its labels
 * matches the labels of its own cells and no others.
 */
module Correctness {
  import opened Geometry
  import opened Layout
  import opened Cover
  import opened Terms
  import opened KMaps
  import Arith

  /** The Gray code of position `i` along a dimension of `bits` bits, as the grids are laid out. */
  function Code(i: int, bits: nat): (r: string)
    requires 0 <= i
    ensures |r| == bits
  {
    Bits(Swap23(i, bits == 2), bits)
  }

  /** The positions `lo..hi` of a dimension of `m` positions, reduced modulo `m`. */
  function Span(lo: int, hi: int, m: int): (r: set<int>)
    requires m > 0
    ensures forall i :: i in r ==> 0 <= i < m
  {
    set v | lo <= v <= hi :: v % m
  }

  /** The codes of some positions. */
  function Codes(xs: set<int>, bits: nat): (r: set<string>)
    requires forall i :: i in xs ==> 0 <= i
    ensures forall s :: s in r ==> |s| == bits
  {
    set i | i in xs :: Code(i, bits)
  }

  lemma CodeBinary(i: int, bits: nat)
    requires 0 <= i
    ensures IsBinary(Code(i, bits))
  {
    BitsBinary(Swap23(i, bits == 2), bits);
  }

  /** Distinct positions have distinct codes. */
  lemma CodeInjective(i: int, j: int, bits: nat)
    requires bits == 1 || bits == 2
    requires 0 <= i < Pow2(bits) && 0 <= j < Pow2(bits)
    requires Code(i, bits) == Code(j, bits)
    ensures i == j
  {
    assert Pow2(1) == 2 && Pow2(2) == 4;
    var si, sj := Swap23(i, bits == 2), Swap23(j, bits == 2);
    FromBinaryBits(si, bits);
    FromBinaryBits(sj, bits);
    Arith.DivModUnique(si, 0, si, Pow2(bits));
    Arith.DivModUnique(sj, 0, sj, Pow2(bits));
  }

  /** A region's cells are the reduced rows times the reduced entries it spans. */
  lemma PointsProduct(c: Coordinates, rowSize: int, columnSize: int, p: Point)
    requires rowSize > 0 && columnSize > 0
    ensures p in Points(c, rowSize, columnSize) <==>
            p.x in Span(c.topX, c.botX, columnSize) && p.y in Span(c.topY, c.botY, rowSize)
  {
    if p in Points(c, rowSize, columnSize) {
      var q :| q in RawPoints(c) && p == Wrap(q, rowSize, columnSize);
      RawPointsMember(c, q);
    }
    if p.x in Span(c.topX, c.botX, columnSize) && p.y in Span(c.topY, c.botY, rowSize) {
      var vx :| c.topX <= vx <= c.botX && vx % columnSize == p.x;
      var vy :| c.topY <= vy <= c.botY && vy % rowSize == p.y;
      RawPointsMember(c, Point(vx, vy));
      assert Wrap(Point(vx, vy), rowSize, columnSize) == p;
    }
  }

  /** A window of at least `m` consecutive positions reaches every position. */
  lemma SpanFull(lo: int, hi: int, m: int, i: int)
    requires m > 0 && hi - lo + 1 >= m && 0 <= i < m
    ensures i in Span(lo, hi, m)
  {
    var q := (i - lo) / m;
    var v := lo + (i - lo) % m;
    assert i - lo == q * m + (i - lo) % m;
    assert v == (-q) * m + i;
    Arith.DivModUnique(v, -q, i, m);
  }

  lemma SpanOne(lo: int, m: int)
    requires m > 0
    ensures Span(lo, lo, m) == {lo % m}
  {
  }

  lemma SpanTwo(lo: int, m: int)
    requires m > 0
    ensures Span(lo, lo + 1, m) == {lo % m, (lo % m + 1) % m}
  {
    var q := lo / m;
    assert lo == q * m + lo % m;
    assert lo + 1 == q * m + (lo % m + 1);
    Arith.ModShift(lo % m + 1, q, m);
    assert (lo + 1) % m == (lo % m + 1) % m;
    assert lo % m in Span(lo, lo + 1, m);
    assert (lo + 1) % m in Span(lo, lo + 1, m);
  }

  /** The pattern of one code matches only that code. */
  lemma SingleExact(a: int, bits: nat, i: int)
    requires bits == 1 || bits == 2
    requires 0 <= a < Pow2(bits) && 0 <= i < Pow2(bits)
    requires Matches(Pattern({Code(a, bits)}, bits), Code(i, bits))
    ensures i == a
  {
    CodeBinary(a, bits);
    PatternSingleton(Code(a, bits), bits);
    MatchesConstant(Code(a, bits), Code(i, bits));
    CodeInjective(i, a, bits);
  }

  /** The pattern of the codes of two neighbouring positions matches only those two codes. */
  lemma PairExact(a: int, i: int)
    requires 0 <= a < 4 && 0 <= i < 4
    requires Matches(Pattern({Code(a, 2), Code((a + 1) % 4, 2)}, 2), Code(i, 2))
    ensures i == a || i == (a + 1) % 4
  {
    assert Pow2(2) == 4;
    var a1 := (a + 1) % 4;
    CodeBinary(a, 2);
    CodeBinary(a1, 2);
    CodeBinary(i, 2);
    GrayStep(a, 2);
    PatternPair(Code(a, 2), Code(a1, 2), Code(i, 2), 2);
    if Code(i, 2) == Code(a, 2) {
      CodeInjective(i, a, 2);
    } else {
      CodeInjective(i, a1, 2);
    }
  }

  lemma DimensionSingle(lo: int, bits: nat, i: int)
    requires bits == 1 || bits == 2
    requires 0 <= i < Pow2(bits)
    requires Matches(Pattern(Codes(Span(lo, lo, Pow2(bits)), bits), bits), Code(i, bits))
    ensures i in Span(lo, lo, Pow2(bits))
  {
    var m := Pow2(bits);
    SpanOne(lo, m);
    assert Codes(Span(lo, lo, m), bits) == {Code(lo % m, bits)};
    SingleExact(lo % m, bits, i);
  }

  lemma DimensionPair(lo: int, i: int)
    requires 0 <= i < 4
    requires Matches(Pattern(Codes(Span(lo, lo + 1, 4), 2), 2), Code(i, 2))
    ensures i in Span(lo, lo + 1, 4)
  {
    SpanTwo(lo, 4);
    assert Codes(Span(lo, lo + 1, 4), 2) == {Code(lo % 4, 2), Code((lo % 4 + 1) % 4, 2)};
    PairExact(lo % 4, i);
  }

  /**
   * Along one dimension: the pattern of the codes of 1, 2 or 4 consecutive
   * positions matches the code of a position only when the position is
   * one of them.
   */
  lemma DimensionExact(lo: int, hi: int, bits: nat, i: int)
    requires bits == 1 || bits == 2
    requires hi - lo + 1 == 1 || hi - lo + 1 == 2 || hi - lo + 1 == 4
    requires 0 <= i < Pow2(bits)
    requires Matches(Pattern(Codes(Span(lo, hi, Pow2(bits)), bits), bits), Code(i, bits))
    ensures i in Span(lo, hi, Pow2(bits))
  {
    assert Pow2(1) == 2 && Pow2(2) == 4;
    if hi - lo + 1 >= Pow2(bits) {
      SpanFull(lo, hi, Pow2(bits), i);
    } else if hi == lo {
      DimensionSingle(lo, bits, i);
    } else {
      DimensionPair(lo, i);
    }
  }

  /** The codes of the rows a region spans. */
  function RowCodes(c: Coordinates, n: int): set<string>
    requires 2 <= n <= 4
  {
    Codes(Span(c.topX, c.botX, ColumnSize(n)), RowBits(n))
  }

  /** The codes of the entries a region spans within a row. */
  function EntryCodes(c: Coordinates, n: int): set<string>
    requires 2 <= n <= 4
  {
    Codes(Span(c.topY, c.botY, RowSize(n)), EntryBits(n))
  }

  /** A region's labels are its row codes followed by its entry codes, in every combination. */
  lemma RegionProduct(grid: seq<seq<int>>, labels: seq<seq<string>>, n: int, c: Coordinates)
    requires 2 <= n <= 4 && Rectangular(grid)
    requires Height(grid) == ColumnSize(n) && Width(grid) == RowSize(n)
    requires labels == LabelGrid(n) && LabelsFit(labels, grid, n)
    ensures forall l :: l in RegionLabels(grid, labels, n, c) <==>
              exists s, t :: s in RowCodes(c, n) && t in EntryCodes(c, n) && l == s + t
  {
    var L, A, B := RegionLabels(grid, labels, n, c), RowCodes(c, n), EntryCodes(c, n);
    forall l ensures l in L <==> exists s, t :: s in A && t in B && l == s + t {
      if l in L {
        var p :| p in Cells(grid, c) && l == labels[p.x][p.y];
        LabelOfCell(grid, labels, n, c, p);
      }
      if exists s, t :: s in A && t in B && l == s + t {
        var s, t :| s in A && t in B && l == s + t;
        CellOfCodes(grid, labels, n, c, s, t);
      }
    }
  }

  lemma LabelOfCell(grid: seq<seq<int>>, labels: seq<seq<string>>, n: int, c: Coordinates, p: Point)
    requires 2 <= n <= 4 && Rectangular(grid)
    requires Height(grid) == ColumnSize(n) && Width(grid) == RowSize(n)
    requires labels == LabelGrid(n) && LabelsFit(labels, grid, n)
    requires p in Cells(grid, c)
    ensures Code(p.x, RowBits(n)) in RowCodes(c, n) && Code(p.y, EntryBits(n)) in EntryCodes(c, n)
    ensures labels[p.x][p.y] == Code(p.x, RowBits(n)) + Code(p.y, EntryBits(n))
  {
    Extents(n);
    PointsProduct(c, RowSize(n), ColumnSize(n), p);
    LabelSplits(n, p.x, p.y);
  }

  lemma CellOfCodes(grid: seq<seq<int>>, labels: seq<seq<string>>, n: int, c: Coordinates, s: string, t: string)
    requires 2 <= n <= 4 && Rectangular(grid)
    requires Height(grid) == ColumnSize(n) && Width(grid) == RowSize(n)
    requires labels == LabelGrid(n) && LabelsFit(labels, grid, n)
    requires s in RowCodes(c, n) && t in EntryCodes(c, n)
    ensures s + t in RegionLabels(grid, labels, n, c)
  {
    Extents(n);
    var rs, cs := RowSize(n), ColumnSize(n);
    var i :| i in Span(c.topX, c.botX, cs) && s == Code(i, RowBits(n));
    var j :| j in Span(c.topY, c.botY, rs) && t == Code(j, EntryBits(n));
    PointsProduct(c, rs, cs, Point(i, j));
    LabelSplits(n, i, j);
    assert s + t == labels[i][j];
  }

  /** A region's pattern is the pattern of its row codes followed by that of its entry codes. */
  lemma RegionPattern(grid: seq<seq<int>>, labels: seq<seq<string>>, n: int, c: Coordinates)
    requires 2 <= n <= 4 && Rectangular(grid)
    requires Height(grid) == ColumnSize(n) && Width(grid) == RowSize(n)
    requires labels == LabelGrid(n) && LabelsFit(labels, grid, n) && Shaped(c)
    ensures Pattern(RegionLabels(grid, labels, n, c), n) ==
            Pattern(RowCodes(c, n), RowBits(n)) + Pattern(EntryCodes(c, n), EntryBits(n))
  {
    Extents(n);
    var A, B := RowCodes(c, n), EntryCodes(c, n);
    RegionProduct(grid, labels, n, c);
    assert c.topX % ColumnSize(n) in Span(c.topX, c.botX, ColumnSize(n));
    assert c.topY % RowSize(n) in Span(c.topY, c.botY, RowSize(n));
    assert Code(c.topX % ColumnSize(n), RowBits(n)) in A;
    assert Code(c.topY % RowSize(n), EntryBits(n)) in B;
    PatternProduct(RegionLabels(grid, labels, n, c), A, B, RowBits(n), EntryBits(n));
  }

  /**
   * The pattern of a 1-, 2- or 4-wide region by 1, 2 or 4 cells matches
   * the label of a cell only when the region covers the cell.
   */
  lemma ShapedExact(grid: seq<seq<int>>, labels: seq<seq<string>>, n: int, c: Coordinates, x: int, y: int)
    requires 2 <= n <= 4 && Rectangular(grid)
    requires Height(grid) == ColumnSize(n) && Width(grid) == RowSize(n)
    requires labels == LabelGrid(n) && LabelsFit(labels, grid, n)
    requires Shaped(c) && 0 <= x < Height(grid) && 0 <= y < Width(grid)
    requires Matches(Pattern(RegionLabels(grid, labels, n, c), n), labels[x][y])
    ensures Point(x, y) in Cells(grid, c)
  {
    Extents(n);
    var rb, eb := RowBits(n), EntryBits(n);
    var pa, pb := Pattern(RowCodes(c, n), rb), Pattern(EntryCodes(c, n), eb);
    RegionPattern(grid, labels, n, c);
    LabelSplits(n, x, y);
    assert labels[x][y] == Code(x, rb) + Code(y, eb);
    MatchesConcat(pa, pb, Code(x, rb), Code(y, eb));
    DimensionExact(c.topX, c.botX, rb, x);
    DimensionExact(c.topY, c.botY, eb, y);
    PointsProduct(c, RowSize(n), ColumnSize(n), Point(x, y));
  }

  /**
   * A cover that is sound and covers exactly the 1-cells denotes the
   * function: a cell's label satisfies one of the regions' patterns
   * exactly when the cell holds a 1.
   */
  lemma CoverExact(grid: seq<seq<int>>, labels: seq<seq<string>>, n: int, taken: seq<Coordinates>, x: int, y: int)
    requires 2 <= n <= 4 && Rectangular(grid)
    requires Height(grid) == ColumnSize(n) && Width(grid) == RowSize(n)
    requires labels == LabelGrid(n) && LabelsFit(labels, grid, n)
    requires Sound(grid, taken) && Covered(grid, taken) == OneCells(grid)
    requires 0 <= x < Height(grid) && 0 <= y < Width(grid)
    ensures (exists k :: 0 <= k < |taken| && Matches(Pattern(RegionLabels(grid, labels, n, taken[k]), n), labels[x][y]))
            <==> grid[x][y] != 0
  {
    if grid[x][y] != 0 {
      assert Point(x, y) in OneCells(grid);
      CoveredMember(grid, taken, Point(x, y));
      var k :| 0 <= k < |taken| && Point(x, y) in Cells(grid, taken[k]);
      assert Kept(grid, taken[k]);
      PatternMatchesLabels(RegionLabels(grid, labels, n, taken[k]), n, labels[x][y]);
    }
    if exists k :: 0 <= k < |taken| && Matches(Pattern(RegionLabels(grid, labels, n, taken[k]), n), labels[x][y]) {
      var k :| 0 <= k < |taken| && Matches(Pattern(RegionLabels(grid, labels, n, taken[k]), n), labels[x][y]);
      assert Kept(grid, taken[k]);
      ShapedExact(grid, labels, n, taken[k], x, y);
      AllOnesIffInOnes(grid, taken[k]);
    }
  }

  /**
   * After `simplify` the regions denote the function: the label of a cell
   * satisfies the pattern of one of the taken regions exactly when the
   * number the label spells is one of the minterms (reduced modulo 2^n, as
   * `flatten_map[minterm] = 1` indexes).
   */
  lemma MapDenotes(m: KMap, x: int, y: int)
    requires m.Valid() && m.Varying() && Covered(m.grid, m.taken) == OneCells(m.grid)
    requires 0 <= x < m.columnSize && 0 <= y < m.rowSize
    ensures (exists k :: 0 <= k < |m.taken| &&
               Matches(Pattern(RegionLabels(m.grid, m.labels, |m.variables|, m.taken[k]), |m.variables|), m.labels[x][y]))
            <==> exists mt :: mt in m.minterms && mt % Pow2(|m.variables|) == FromBinary(m.labels[x][y])
  {
    var n := |m.variables|;
    CoverExact(m.grid, m.labels, n, m.taken, x, y);
    ValueMatchesLabel(m.minterms, n, x, y);
  }

  /**
   * The same through the strings `simplify` writes: with one-letter,
   * distinct variable names, reading a term back gives its region's
   * pattern, so the terms hold a cell's label exactly when it is a minterm.
   */
  lemma TermsDenote(m: KMap, x: int, y: int)
    requires m.Valid() && m.Varying() && Covered(m.grid, m.taken) == OneCells(m.grid)
    requires Readable(m.variables)
    requires 0 <= x < m.columnSize && 0 <= y < m.rowSize
    ensures (exists k :: 0 <= k < |m.taken| &&
               Matches(ParseTerm(TermList(m.grid, m.labels, m.variables, m.taken)[k], m.variables), m.labels[x][y]))
            <==> exists mt :: mt in m.minterms && mt % Pow2(|m.variables|) == FromBinary(m.labels[x][y])
  {
    var n := |m.variables|;
    var terms := TermList(m.grid, m.labels, m.variables, m.taken);
    forall k | 0 <= k < |m.taken|
      ensures ParseTerm(terms[k], m.variables) == Pattern(RegionLabels(m.grid, m.labels, n, m.taken[k]), n)
    {
      BinaryToVarsRoundTrip(Pattern(RegionLabels(m.grid, m.labels, n, m.taken[k]), n), m.variables);
    }
    MapDenotes(m, x, y);
  }

  /**
   * The same stated over the function's inputs: for every assignment `a`
   * of the `n` variables, read as an `n`-bit numeral, some taken region's
   * pattern matches `a` exactly when `a` is a minterm modulo 2^n.
   */
  lemma AssignmentDenotes(m: KMap, a: int)
    requires m.Valid() && m.Varying() && Covered(m.grid, m.taken) == OneCells(m.grid)
    requires 0 <= a < Pow2(|m.variables|)
    ensures var n := |m.variables|;
            (exists k :: 0 <= k < |m.taken| &&
               Matches(Pattern(RegionLabels(m.grid, m.labels, n, m.taken[k]), n), Bits(a, n)))
            <==> exists mt :: mt in m.minterms && mt % Pow2(n) == a
  {
    var n := |m.variables|;
    CellOfIndex(n, a);
    var x, y := Swap23(a / RowSize(n), n > 3), Swap23(a % RowSize(n), n > 2);
    LabelAt(n, x, y);
    LabelIsBits(a, n);
    LabelRoundTrip(a, n);
    MapDenotes(m, x, y);
  }

  /** A function that is not constantly 0 leaves a non-empty cover. */
  lemma CoverNonEmpty(m: KMap)
    requires m.Valid() && m.Varying() && Covered(m.grid, m.taken) == OneCells(m.grid)
    ensures |m.taken| > 0
  {
    var n := |m.variables|;
    var i :| 0 <= i < |m.Flat()| && m.Flat()[i] != 0;
    MarkedIsMod(m.minterms, Pow2(n), i);
    AssignmentDenotes(m, i);
  }

  /** Cutting `simplified` and reading each term back gives the taken regions' patterns, in order. */
  lemma ReadBack(m: KMap)
    requires m.Valid() && m.Varying() && Covered(m.grid, m.taken) == OneCells(m.grid)
    requires m.simplified == Expression(m.grid, m.labels, m.variables, m.taken)
    requires Readable(m.variables) && forall j :: 0 <= j < |m.variables| ==> m.variables[j] != " "
    ensures var n, terms := |m.variables|, SplitTerms(m.simplified);
            |terms| == |m.taken| &&
            forall k :: 0 <= k < |terms| ==>
              ParseTerm(terms[k], m.variables) == Pattern(RegionLabels(m.grid, m.labels, n, m.taken[k]), n)
  {
    var n := |m.variables|;
    forall j | 0 <= j < n ensures ' ' !in m.variables[j] {
      assert m.variables[j] == [m.variables[j][0]];
    }
    CoverNonEmpty(m);
    ExpressionSplits(m.grid, m.labels, m.variables, m.taken);
    var terms := TermList(m.grid, m.labels, m.variables, m.taken);
    forall k | 0 <= k < |m.taken|
      ensures ParseTerm(terms[k], m.variables) == Pattern(RegionLabels(m.grid, m.labels, n, m.taken[k]), n)
    {
      BinaryToVarsRoundTrip(Pattern(RegionLabels(m.grid, m.labels, n, m.taken[k]), n), m.variables);
    }
  }

  /**
   * The theorem about the string itself: cutting `simplified` at its
   * separators and reading each term back, some term matches assignment
   * `a` exactly when `a` is a minterm modulo 2^n.  The names must be
   * readable and none of them a space.
   */
  lemma ExpressionDenotes(m: KMap, a: int)
    requires m.Valid() && m.Varying() && Covered(m.grid, m.taken) == OneCells(m.grid)
    requires m.simplified == Expression(m.grid, m.labels, m.variables, m.taken)
    requires Readable(m.variables) && forall j :: 0 <= j < |m.variables| ==> m.variables[j] != " "
    requires 0 <= a < Pow2(|m.variables|)
    ensures var n, terms := |m.variables|, SplitTerms(m.simplified);
            (exists k :: 0 <= k < |terms| && Matches(ParseTerm(terms[k], m.variables), Bits(a, n)))
            <==> exists mt :: mt in m.minterms && mt % Pow2(n) == a
  {
    ReadBack(m);
    AssignmentDenotes(m, a);
  }
}

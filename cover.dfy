/**
 * The group finder of `KMap.simplify` (kmap.py:153-229) as functions over
 * the value grid `map_`: which regions each pass accepts, and the order of
 * the passes.  `taken` is an insertion-ordered list without duplicates,
 * which is the Python set `self.taken` up to iteration order.
 */
module Cover {
  import opened CycleList
  import opened Geometry
  import Arith

  /** The shape of `map_`: `column_size` rows, each of `row_size` entries. */
  predicate Rectangular(grid: seq<seq<int>>) {
    |grid| > 0 && |grid[0]| > 0 && forall row :: row in grid ==> |row| == |grid[0]|
  }

  /** `row_size`: the length of a row. */
  function Width(grid: seq<seq<int>>): int
    requires Rectangular(grid)
  {
    |grid[0]|
  }

  /** `column_size`: the number of rows. */
  function Height(grid: seq<seq<int>>): int
    requires Rectangular(grid)
  {
    |grid|
  }

  /** `self.map_[x][y]`: both indexings go through `CycleList` and wrap (kmap.py:168). */
  function Cell(grid: seq<seq<int>>, x: int, y: int): int
    requires Rectangular(grid)
  {
    Get(Get(grid, x).value, y).value
  }

  /** `coords.to_points(self.row_size, self.column_size)`: the cells a region covers. */
  function Cells(grid: seq<seq<int>>, c: Coordinates): set<Point>
    requires Rectangular(grid)
  {
    Points(c, Width(grid), Height(grid))
  }

  /** The 1-cells of the grid (non-zero, as `if minterm:` tests them). */
  function OneCells(grid: seq<seq<int>>): set<Point>
    requires Rectangular(grid)
  {
    set x, y | 0 <= x < |grid| && 0 <= y < |grid[x]| && grid[x][y] != 0 :: Point(x, y)
  }

  /** `_are_all1` (kmap.py:166-170): every raw cell of the region holds a 1. */
  predicate AllOnes(grid: seq<seq<int>>, c: Coordinates)
    requires Rectangular(grid)
  {
    forall p :: p in RawPoints(c) ==> Cell(grid, p.x, p.y) != 0
  }

  /** The union of the cells of all regions taken so far. */
  function Covered(grid: seq<seq<int>>, taken: seq<Coordinates>): set<Point>
    requires Rectangular(grid)
  {
    if |taken| == 0 then {}
    else Covered(grid, taken[..|taken| - 1]) + Cells(grid, taken[|taken| - 1])
  }

  /** `_is_taken` (kmap.py:153-164). */
  predicate Subsumed(grid: seq<seq<int>>, taken: seq<Coordinates>, c: Coordinates)
    requires Rectangular(grid)
  {
    |taken| != 0 && Cells(grid, c) <= Covered(grid, taken)
  }

  /** `self.taken.add(c)`: a region already present is not added again. */
  function Insert(taken: seq<Coordinates>, c: Coordinates): seq<Coordinates> {
    if c in taken then taken else taken + [c]
  }

  /** The size-8 pass adds a region whenever it is all ones (kmap.py:181-183). */
  function AddIfOnes(grid: seq<seq<int>>, taken: seq<Coordinates>, c: Coordinates): seq<Coordinates>
    requires Rectangular(grid)
  {
    if AllOnes(grid, c) then Insert(taken, c) else taken
  }

  /** The size-4, 2 and 1 passes also skip a region already covered (kmap.py:193-195, 203-205, 208-209). */
  function TryAdd(grid: seq<seq<int>>, taken: seq<Coordinates>, c: Coordinates): seq<Coordinates>
    requires Rectangular(grid)
  {
    if AllOnes(grid, c) && !Subsumed(grid, taken, c) then Insert(taken, c) else taken
  }

  /** The size-8 templates (kmap.py:173-179): the first one whatever the grid. */
  function Templates8(columnSize: int): seq<Coordinates> {
    [Coordinates(0, 0, 1, 3)] +
    if columnSize == 4 then [Coordinates(0, 0, 3, 1), Coordinates(0, 2, 3, 3), Coordinates(2, 0, 3, 3)] else []
  }

  /**
   * The size-4 templates at an anchor (kmap.py:186-191); the third one is
   * the fixed region `Coordinates(0, 0, 3, 0)`, not moved to the anchor.
   */
  function Templates4(columnSize: int, anchor: Coordinates): seq<Coordinates> {
    [Add(anchor, Coordinates(0, 0, 0, 3)), Add(anchor, Coordinates(0, 0, 1, 1))] +
    if columnSize == 4 then [Coordinates(0, 0, 3, 0)] else []
  }

  /** The size-2 templates at an anchor (kmap.py:198-201). */
  function Templates2(anchor: Coordinates): seq<Coordinates> {
    [Add(anchor, Coordinates(0, 0, 1, 0)), Add(anchor, Coordinates(0, 0, 0, 1))]
  }

  function AddAllIfOnes(grid: seq<seq<int>>, taken: seq<Coordinates>, cs: seq<Coordinates>): seq<Coordinates>
    requires Rectangular(grid)
    decreases |cs|
  {
    if cs == [] then taken else AddAllIfOnes(grid, AddIfOnes(grid, taken, cs[0]), cs[1..])
  }

  function TryAddAll(grid: seq<seq<int>>, taken: seq<Coordinates>, cs: seq<Coordinates>): seq<Coordinates>
    requires Rectangular(grid)
    decreases |cs|
  {
    if cs == [] then taken else TryAddAll(grid, TryAdd(grid, taken, cs[0]), cs[1..])
  }

  /** `__find_all8` (kmap.py:172-183). */
  function Find8(grid: seq<seq<int>>, taken: seq<Coordinates>): seq<Coordinates>
    requires Rectangular(grid)
  {
    AddAllIfOnes(grid, taken, Templates8(Height(grid)))
  }

  /** The three anchored passes of `simplify`. */
  datatype Pass = Fours | Twos | Ones

  /** The candidate regions one pass tries at an anchor: `__find_all4`, `__find_all2`, `__find_all1`. */
  function Candidates(grid: seq<seq<int>>, pass: Pass, anchor: Coordinates): seq<Coordinates>
    requires Rectangular(grid)
  {
    match pass
    case Fours => Templates4(Height(grid), anchor)
    case Twos => Templates2(anchor)
    case Ones => [anchor]
  }

  /** One iteration of a pass's nested loop: only a 1-cell anchors candidates (kmap.py:218-219). */
  function Visit(grid: seq<seq<int>>, taken: seq<Coordinates>, pass: Pass, x: int, y: int): seq<Coordinates>
    requires Rectangular(grid) && 0 <= x < Height(grid) && 0 <= y < Width(grid)
  {
    if grid[x][y] != 0 then TryAddAll(grid, taken, Candidates(grid, pass, Anchor(x, y))) else taken
  }

  /** Row `x` of a pass, visited from its first entry up to, not including, entry `y`. */
  function SweepRow(grid: seq<seq<int>>, taken: seq<Coordinates>, pass: Pass, x: int, y: nat): seq<Coordinates>
    requires Rectangular(grid) && 0 <= x < Height(grid) && y <= Width(grid)
  {
    if y == 0 then taken else Visit(grid, SweepRow(grid, taken, pass, x, y - 1), pass, x, y - 1)
  }

  /** A pass after its first `x` rows. */
  function SweepRows(grid: seq<seq<int>>, taken: seq<Coordinates>, pass: Pass, x: nat): seq<Coordinates>
    requires Rectangular(grid) && x <= Height(grid)
  {
    if x == 0 then taken else SweepRow(grid, SweepRows(grid, taken, pass, x - 1), pass, x - 1, Width(grid))
  }

  /** One whole pass over the grid, row by row. */
  function RunPass(grid: seq<seq<int>>, taken: seq<Coordinates>, pass: Pass): seq<Coordinates>
    requires Rectangular(grid)
  {
    SweepRows(grid, taken, pass, Height(grid))
  }

  /** The cover `simplify` builds (kmap.py:215-229): size 8, then 4, 2 and 1. */
  function Search(grid: seq<seq<int>>, taken: seq<Coordinates>): seq<Coordinates>
    requires Rectangular(grid)
  {
    RunPass(grid, RunPass(grid, RunPass(grid, Find8(grid, taken), Fours), Twos), Ones)
  }

  /** The four passes one after the other make up the search. */
  lemma SearchSteps(grid: seq<seq<int>>, t: seq<Coordinates>, t8: seq<Coordinates>, t4: seq<Coordinates>, t2: seq<Coordinates>, t1: seq<Coordinates>)
    requires Rectangular(grid)
    requires t8 == Find8(grid, t) && t4 == RunPass(grid, t8, Fours) && t2 == RunPass(grid, t4, Twos) && t1 == RunPass(grid, t2, Ones)
    ensures t1 == Search(grid, t)
  {
  }

  // ---------------------------------------------------------------------
  // Properties of the search

  /** Every region taken so far is all ones and has the side lengths of a template. */
  predicate Sound(grid: seq<seq<int>>, taken: seq<Coordinates>)
    requires Rectangular(grid)
  {
    forall k {:trigger Kept(grid, taken[k])} :: 0 <= k < |taken| ==> Kept(grid, taken[k])
  }

  /** A region the search may keep: all ones, with a template's side lengths. */
  predicate Kept(grid: seq<seq<int>>, c: Coordinates)
    requires Rectangular(grid)
  {
    AllOnes(grid, c) && Shaped(c)
  }

  /** Every template, anchored or fixed, spans 1, 2 or 4 rows and 1, 2 or 4 entries. */
  lemma TemplatesShaped(grid: seq<seq<int>>, pass: Pass, x: int, y: int)
    requires Rectangular(grid)
    ensures forall c :: c in Templates8(Height(grid)) ==> Shaped(c)
    ensures forall c :: c in Candidates(grid, pass, Anchor(x, y)) ==> Shaped(c)
  {
  }

  /**
   * From position `from` on, every region was new when it was taken: some
   * of its cells were not yet covered.
   */
  predicate FreshFrom(grid: seq<seq<int>>, taken: seq<Coordinates>, from: nat)
    requires Rectangular(grid)
  {
    forall k {:trigger Fresh(grid, taken[..k], taken[k])} :: from <= k < |taken| ==> Fresh(grid, taken[..k], taken[k])
  }

  /** A region that covers a cell no earlier region covers. */
  predicate Fresh(grid: seq<seq<int>>, earlier: seq<Coordinates>, c: Coordinates)
    requires Rectangular(grid)
  {
    !(Cells(grid, c) <= Covered(grid, earlier))
  }

  /** Every template-shaped region covers at least one cell, so the first one taken is fresh too. */
  lemma ShapedHasCell(grid: seq<seq<int>>, c: Coordinates)
    requires Rectangular(grid) && Shaped(c)
    ensures Cells(grid, c) != {}
  {
    var q := Point(c.topX, c.topY);
    assert InRect(c, q);
    PointsMember(c, Width(grid), Height(grid), Wrap(q, Width(grid), Height(grid)));
  }

  /** The search's invariant from position `from` on: the regions are kept, and each one is fresh. */
  predicate Keeping(grid: seq<seq<int>>, taken: seq<Coordinates>, from: nat)
    requires Rectangular(grid)
  {
    from <= |taken| && Sound(grid, taken) && FreshFrom(grid, taken, from)
  }

  /** Reading through the wrapping `CycleList`s is reading the reduced cell. */
  lemma CellWraps(grid: seq<seq<int>>, x: int, y: int)
    requires Rectangular(grid)
    ensures Cell(grid, x, y) == grid[x % Height(grid)][y % Width(grid)]
  {
    assert grid[x % Height(grid)] in grid;
  }

  /** `_are_all1` holds exactly when every covered cell (after reduction) is a 1-cell. */
  lemma AllOnesIffInOnes(grid: seq<seq<int>>, c: Coordinates)
    requires Rectangular(grid)
    ensures AllOnes(grid, c) <==> Cells(grid, c) <= OneCells(grid)
  {
    var w, h := Width(grid), Height(grid);
    if AllOnes(grid, c) {
      forall q | q in Cells(grid, c) ensures q in OneCells(grid) {
        var p :| p in RawPoints(c) && q == Wrap(p, w, h);
        CellWraps(grid, p.x, p.y);
        assert grid[q.x] in grid;
      }
    }
    if Cells(grid, c) <= OneCells(grid) {
      forall p | p in RawPoints(c) ensures Cell(grid, p.x, p.y) != 0 {
        var q := Wrap(p, w, h);
        assert q in Cells(grid, c);
        CellWraps(grid, p.x, p.y);
      }
    }
  }

  lemma {:induction false} CoveredPrefix(grid: seq<seq<int>>, t: seq<Coordinates>, t': seq<Coordinates>)
    requires Rectangular(grid) && t <= t'
    ensures Covered(grid, t) <= Covered(grid, t')
    decreases |t'|
  {
    if |t'| > |t| {
      assert t <= t'[..|t'| - 1];
      CoveredPrefix(grid, t, t'[..|t'| - 1]);
    } else {
      assert t == t';
    }
  }

  /** A covered cell is a cell of one of the regions. */
  lemma {:induction false} CoveredMember(grid: seq<seq<int>>, t: seq<Coordinates>, p: Point)
    requires Rectangular(grid) && p in Covered(grid, t)
    ensures exists k :: 0 <= k < |t| && p in Cells(grid, t[k])
  {
    var init := t[..|t| - 1];
    if p !in Cells(grid, t[|t| - 1]) {
      CoveredMember(grid, init, p);
      var k :| 0 <= k < |init| && p in Cells(grid, init[k]);
      assert t[k] == init[k];
    }
  }

  lemma CoveredAppend(grid: seq<seq<int>>, t: seq<Coordinates>, c: Coordinates)
    requires Rectangular(grid)
    ensures Covered(grid, t + [c]) == Covered(grid, t) + Cells(grid, c)
  {
    assert (t + [c])[..|t|] == t;
  }

  lemma {:induction false} CoveredContains(grid: seq<seq<int>>, t: seq<Coordinates>, k: int)
    requires Rectangular(grid) && 0 <= k < |t|
    ensures Cells(grid, t[k]) <= Covered(grid, t)
  {
    assert t[..k + 1] <= t;
    CoveredPrefix(grid, t[..k + 1], t);
    assert t[..k + 1] == t[..k] + [t[k]];
    CoveredAppend(grid, t[..k], t[k]);
  }

  lemma SoundShaped(grid: seq<seq<int>>, t: seq<Coordinates>)
    requires Rectangular(grid) && Sound(grid, t)
    ensures forall k :: 0 <= k < |t| ==> Shaped(t[k])
  {
    forall k | 0 <= k < |t| ensures Shaped(t[k]) {
      assert Kept(grid, t[k]);
    }
  }

  /** With every region all ones, nothing but 1-cells is covered. */
  lemma {:induction false} SoundCovered(grid: seq<seq<int>>, t: seq<Coordinates>)
    requires Rectangular(grid) && Sound(grid, t)
    ensures Covered(grid, t) <= OneCells(grid)
  {
    if |t| > 0 {
      var init := t[..|t| - 1];
      forall k | 0 <= k < |init| ensures Kept(grid, init[k]) {
        assert Kept(grid, t[k]);
      }
      SoundCovered(grid, init);
      assert Kept(grid, t[|t| - 1]);
      AllOnesIffInOnes(grid, t[|t| - 1]);
    }
  }

  lemma AddIfOnesSound(grid: seq<seq<int>>, t: seq<Coordinates>, c: Coordinates)
    requires Rectangular(grid) && Sound(grid, t) && Shaped(c)
    ensures Sound(grid, AddIfOnes(grid, t, c))
  {
  }

  lemma TryAddKeeps(grid: seq<seq<int>>, t: seq<Coordinates>, c: Coordinates, from: nat)
    requires Rectangular(grid) && Keeping(grid, t, from)
    requires Shaped(c)
    ensures var r := TryAdd(grid, t, c);
            t <= r && Keeping(grid, r, from)
  {
    var r := TryAdd(grid, t, c);
    if r != t {
      assert r == t + [c];
      forall k | 0 <= k < |r| ensures Kept(grid, r[k]) {
        if k < |t| {
          assert Kept(grid, t[k]);
        }
      }
      forall k | from <= k < |r| ensures Fresh(grid, r[..k], r[k]) {
        if k < |t| {
          assert r[..k] == t[..k];
          assert Fresh(grid, t[..k], t[k]);
        } else {
          assert r[..k] == t;
          if |t| == 0 {
            ShapedHasCell(grid, c);
          }
        }
      }
    }
  }

  lemma {:induction false} TryAddAllKeeps(grid: seq<seq<int>>, t: seq<Coordinates>, cs: seq<Coordinates>, from: nat)
    requires Rectangular(grid) && Keeping(grid, t, from)
    requires forall c :: c in cs ==> Shaped(c)
    ensures var r := TryAddAll(grid, t, cs);
            t <= r && Keeping(grid, r, from)
    decreases |cs|
  {
    if cs != [] {
      TryAddKeeps(grid, t, cs[0], from);
      TryAddAllKeeps(grid, TryAdd(grid, t, cs[0]), cs[1..], from);
    }
  }

  lemma VisitKeeps(grid: seq<seq<int>>, t: seq<Coordinates>, pass: Pass, x: int, y: int, from: nat)
    requires Rectangular(grid) && 0 <= x < Height(grid) && 0 <= y < Width(grid)
    requires Keeping(grid, t, from)
    ensures var r := Visit(grid, t, pass, x, y);
            t <= r && Keeping(grid, r, from)
  {
    if grid[x][y] != 0 {
      TemplatesShaped(grid, pass, x, y);
      TryAddAllKeeps(grid, t, Candidates(grid, pass, Anchor(x, y)), from);
    }
  }

  lemma InSuperset<T>(p: T, a: set<T>, b: set<T>)
    requires p in a && a <= b
    ensures p in b
  {
  }

  lemma PrefixTrans<T>(a: seq<T>, b: seq<T>, c: seq<T>)
    requires a <= b && b <= c
    ensures a <= c
  {
  }

  lemma {:induction false} RowKeeps(grid: seq<seq<int>>, t: seq<Coordinates>, pass: Pass, x: int, y: nat, from: nat)
    requires Rectangular(grid) && 0 <= x < Height(grid) && y <= Width(grid)
    requires Keeping(grid, t, from)
    ensures var r := SweepRow(grid, t, pass, x, y);
            t <= r && Keeping(grid, r, from)
  {
    if y > 0 {
      var before := SweepRow(grid, t, pass, x, y - 1);
      RowKeeps(grid, t, pass, x, y - 1, from);
      VisitKeeps(grid, before, pass, x, y - 1, from);
      var r := Visit(grid, before, pass, x, y - 1);
      PrefixTrans(t, before, r);
      assert SweepRow(grid, t, pass, x, y) == r;
    }
  }

  lemma {:induction false} RowsKeeps(grid: seq<seq<int>>, t: seq<Coordinates>, pass: Pass, x: nat, from: nat)
    requires Rectangular(grid) && x <= Height(grid)
    requires Keeping(grid, t, from)
    ensures var r := SweepRows(grid, t, pass, x);
            t <= r && Keeping(grid, r, from)
  {
    if x > 0 {
      var before := SweepRows(grid, t, pass, x - 1);
      RowsKeeps(grid, t, pass, x - 1, from);
      RowKeeps(grid, before, pass, x - 1, Width(grid), from);
      var r := SweepRow(grid, before, pass, x - 1, Width(grid));
      PrefixTrans(t, before, r);
      assert SweepRows(grid, t, pass, x) == r;
    }
  }

  lemma {:induction false} AddAllIfOnesKeeps(grid: seq<seq<int>>, t: seq<Coordinates>, cs: seq<Coordinates>)
    requires Rectangular(grid) && Sound(grid, t)
    requires forall c :: c in cs ==> Shaped(c)
    ensures var r := AddAllIfOnes(grid, t, cs);
            t <= r && Sound(grid, r)
    ensures forall c :: c in AddAllIfOnes(grid, t, cs) <==> c in t || (c in cs && AllOnes(grid, c))
    decreases |cs|
  {
    if cs != [] {
      var t' := AddIfOnes(grid, t, cs[0]);
      AddAllIfOnesKeeps(grid, t', cs[1..]);
      assert forall c :: c in cs <==> c == cs[0] || c in cs[1..];
    }
  }

  /**
   * The size-8 pass keeps every template that is all ones, whether or not
   * its cells are already covered: it has no subsumption test.
   */
  lemma Find8Accepts(grid: seq<seq<int>>, t: seq<Coordinates>, c: Coordinates)
    requires Rectangular(grid) && Sound(grid, t)
    requires c in Templates8(Height(grid))
    ensures c in Find8(grid, t) <==> c in t || AllOnes(grid, c)
  {
    TemplatesShaped(grid, Ones, 0, 0);
    AddAllIfOnesKeeps(grid, t, Templates8(Height(grid)));
  }

  /** The size-1 candidate at a 1-cell is that cell alone, and it is all ones. */
  lemma AnchorAlone(grid: seq<seq<int>>, x: int, y: int)
    requires Rectangular(grid) && 0 <= x < Height(grid) && 0 <= y < Width(grid)
    requires grid[x][y] != 0
    ensures Point(x, y) in Cells(grid, Anchor(x, y)) && AllOnes(grid, Anchor(x, y))
  {
    var a := Anchor(x, y);
    var w, h := Width(grid), Height(grid);
    assert Point(x, y) in RawPoints(a);
    forall p | p in RawPoints(a) ensures p == Point(x, y) {
      RawPointsMember(a, p);
    }
    Arith.DivModUnique(x, 0, x, h);
    Arith.DivModUnique(y, 0, y, w);
    assert Wrap(Point(x, y), w, h) == Point(x, y);
    forall p | p in RawPoints(a) ensures Cell(grid, p.x, p.y) != 0 {
      CellWraps(grid, p.x, p.y);
    }
  }

  /** A 1-cell visited by the size-1 pass is covered afterwards. */
  lemma VisitOneCovers(grid: seq<seq<int>>, t: seq<Coordinates>, x: int, y: int)
    requires Rectangular(grid) && 0 <= x < Height(grid) && 0 <= y < Width(grid)
    requires grid[x][y] != 0
    ensures Point(x, y) in Covered(grid, Visit(grid, t, Ones, x, y))
  {
    var a := Anchor(x, y);
    AnchorAlone(grid, x, y);
    assert [a][1..] == [];
    assert Visit(grid, t, Ones, x, y) == TryAddAll(grid, TryAdd(grid, t, a), []);
    if a in t {
      var k :| 0 <= k < |t| && t[k] == a;
      CoveredContains(grid, t, k);
    } else if !Subsumed(grid, t, a) {
      CoveredAppend(grid, t, a);
    }
  }

  /** Once the size-1 pass has visited a 1-cell of a row, the cell stays covered for the rest of the row. */
  lemma {:induction false} OnesRowCovers(grid: seq<seq<int>>, t: seq<Coordinates>, x: int, y: int, y': nat)
    requires Rectangular(grid) && 0 <= x < Height(grid) && 0 <= y < y' <= Width(grid)
    requires grid[x][y] != 0
    ensures Point(x, y) in Covered(grid, SweepRow(grid, t, Ones, x, y'))
  {
    var before := SweepRow(grid, t, Ones, x, y' - 1);
    if y == y' - 1 {
      VisitOneCovers(grid, before, x, y);
    } else {
      OnesRowCovers(grid, t, x, y, y' - 1);
      VisitGrows(grid, before, Ones, x, y' - 1);
      InSuperset(Point(x, y), Covered(grid, before), Covered(grid, Visit(grid, before, Ones, x, y' - 1)));
    }
  }

  /** Once the size-1 pass has visited a 1-cell, the cell stays covered for the rest of the pass. */
  lemma {:induction false} OnesRowsCovers(grid: seq<seq<int>>, t: seq<Coordinates>, x: int, y: int, x': nat)
    requires Rectangular(grid) && 0 <= x < x' <= Height(grid) && 0 <= y < Width(grid)
    requires grid[x][y] != 0
    ensures Point(x, y) in Covered(grid, SweepRows(grid, t, Ones, x'))
  {
    var before := SweepRows(grid, t, Ones, x);
    var after := SweepRows(grid, t, Ones, x + 1);
    var r := SweepRows(grid, t, Ones, x');
    OnesRowCovers(grid, before, x, y, Width(grid));
    RowsGrow(grid, t, Ones, x + 1, x');
    CoveredPrefix(grid, after, r);
    InSuperset(Point(x, y), Covered(grid, after), Covered(grid, r));
  }

  /** A later row count of a pass extends an earlier one. */
  lemma {:induction false} RowsGrow(grid: seq<seq<int>>, t: seq<Coordinates>, pass: Pass, a: nat, b: nat)
    requires Rectangular(grid) && a <= b <= Height(grid)
    ensures SweepRows(grid, t, pass, a) <= SweepRows(grid, t, pass, b)
    decreases b
  {
    if a < b {
      var before := SweepRows(grid, t, pass, b - 1);
      RowsGrow(grid, t, pass, a, b - 1);
      RowGrows(grid, before, pass, b - 1, Width(grid));
      PrefixTrans(SweepRows(grid, t, pass, a), before, SweepRows(grid, t, pass, b));
    }
  }

  lemma {:induction false} RowGrows(grid: seq<seq<int>>, t: seq<Coordinates>, pass: Pass, x: int, y: nat)
    requires Rectangular(grid) && 0 <= x < Height(grid) && y <= Width(grid)
    ensures t <= SweepRow(grid, t, pass, x, y)
  {
    if y > 0 {
      RowGrows(grid, t, pass, x, y - 1);
      VisitGrows(grid, SweepRow(grid, t, pass, x, y - 1), pass, x, y - 1);
    }
  }

  /** A visit only appends, so whatever was covered stays covered. */
  lemma VisitGrows(grid: seq<seq<int>>, t: seq<Coordinates>, pass: Pass, x: int, y: int)
    requires Rectangular(grid) && 0 <= x < Height(grid) && 0 <= y < Width(grid)
    ensures t <= Visit(grid, t, pass, x, y)
    ensures Covered(grid, t) <= Covered(grid, Visit(grid, t, pass, x, y))
  {
    TryAddAllGrows(grid, t, Candidates(grid, pass, Anchor(x, y)));
    CoveredPrefix(grid, t, Visit(grid, t, pass, x, y));
  }

  lemma {:induction false} TryAddAllGrows(grid: seq<seq<int>>, t: seq<Coordinates>, cs: seq<Coordinates>)
    requires Rectangular(grid)
    ensures t <= TryAddAll(grid, t, cs)
    decreases |cs|
  {
    if cs != [] {
      TryAddAllGrows(grid, TryAdd(grid, t, cs[0]), cs[1..]);
    }
  }

  lemma {:induction false} SearchKeeps(grid: seq<seq<int>>, t: seq<Coordinates>)
    requires Rectangular(grid) && Sound(grid, t)
    ensures var t8 := Find8(grid, t);
            var r := Search(grid, t);
            t <= t8 <= r && Sound(grid, r) && FreshFrom(grid, r, |t8|)
  {
    var t8 := Find8(grid, t);
    TemplatesShaped(grid, Ones, 0, 0);
    AddAllIfOnesKeeps(grid, t, Templates8(Height(grid)));
    assert Keeping(grid, t8, |t8|);
    var t4 := RunPass(grid, t8, Fours);
    RowsKeeps(grid, t8, Fours, Height(grid), |t8|);
    var t2 := RunPass(grid, t4, Twos);
    RowsKeeps(grid, t4, Twos, Height(grid), |t8|);
    RowsKeeps(grid, t2, Ones, Height(grid), |t8|);
    assert Search(grid, t) == RunPass(grid, t2, Ones);
  }

  /**
   * After the search, exactly the 1-cells are covered: every taken region
   * is all ones, and the size-1 pass leaves no 1-cell uncovered.
   */
  lemma SearchCoversOnes(grid: seq<seq<int>>, t: seq<Coordinates>)
    requires Rectangular(grid) && Sound(grid, t)
    ensures Sound(grid, Search(grid, t))
    ensures Covered(grid, Search(grid, t)) == OneCells(grid)
  {
    SearchKeeps(grid, t);
    var r := Search(grid, t);
    SoundCovered(grid, r);
    var t2 := RunPass(grid, RunPass(grid, Find8(grid, t), Fours), Twos);
    forall q | q in OneCells(grid) ensures q in Covered(grid, r) {
      var x, y := q.x, q.y;
      assert grid[x] in grid;
      OnesRowsCovers(grid, t2, x, y, Height(grid));
    }
  }

  /**
   * Every region the size-4, 2 and 1 passes add was all ones and not
   * already covered by the union of the regions taken before it (not even
   * the first region, which covers at least one cell).  The size-8 pass only adds at the front.
   */
  lemma SearchIrredundant(grid: seq<seq<int>>, t: seq<Coordinates>)
    requires Rectangular(grid) && Sound(grid, t)
    ensures t <= Find8(grid, t) <= Search(grid, t)
    ensures var r := Search(grid, t);
            forall k :: |Find8(grid, t)| <= k < |r| ==>
              AllOnes(grid, r[k]) && !(Cells(grid, r[k]) <= Covered(grid, r[..k]))
  {
    SearchKeeps(grid, t);
    var r := Search(grid, t);
    forall k | |Find8(grid, t)| <= k < |r|
      ensures AllOnes(grid, r[k]) && !(Cells(grid, r[k]) <= Covered(grid, r[..k]))
    {
      assert Kept(grid, r[k]);
      assert Fresh(grid, r[..k], r[k]);
    }
  }

  /** Once every 1-cell is covered, trying more candidates adds nothing. */
  lemma {:induction false} TryAddAllComplete(grid: seq<seq<int>>, t: seq<Coordinates>, cs: seq<Coordinates>)
    requires Rectangular(grid) && |t| != 0 && OneCells(grid) <= Covered(grid, t)
    ensures TryAddAll(grid, t, cs) == t
    decreases |cs|
  {
    if cs != [] {
      AllOnesIffInOnes(grid, cs[0]);
      assert TryAdd(grid, t, cs[0]) == t;
      TryAddAllComplete(grid, t, cs[1..]);
    }
  }

  lemma VisitComplete(grid: seq<seq<int>>, t: seq<Coordinates>, pass: Pass, x: int, y: int)
    requires Rectangular(grid) && 0 <= x < Height(grid) && 0 <= y < Width(grid)
    requires OneCells(grid) <= Covered(grid, t)
    ensures Visit(grid, t, pass, x, y) == t
  {
    if grid[x][y] != 0 {
      assert Point(x, y) in OneCells(grid);
      TryAddAllComplete(grid, t, Candidates(grid, pass, Anchor(x, y)));
    }
  }

  lemma {:induction false} RowComplete(grid: seq<seq<int>>, t: seq<Coordinates>, pass: Pass, x: int, y: nat)
    requires Rectangular(grid) && 0 <= x < Height(grid) && y <= Width(grid)
    requires OneCells(grid) <= Covered(grid, t)
    ensures SweepRow(grid, t, pass, x, y) == t
  {
    if y > 0 {
      RowComplete(grid, t, pass, x, y - 1);
      VisitComplete(grid, t, pass, x, y - 1);
    }
  }

  lemma {:induction false} RowsComplete(grid: seq<seq<int>>, t: seq<Coordinates>, pass: Pass, x: nat)
    requires Rectangular(grid) && x <= Height(grid)
    requires OneCells(grid) <= Covered(grid, t)
    ensures SweepRows(grid, t, pass, x) == t
  {
    if x > 0 {
      RowsComplete(grid, t, pass, x - 1);
      RowComplete(grid, t, pass, x - 1, Width(grid));
    }
  }

  /** The size-8 pass adds nothing when every all-ones template is already taken. */
  lemma {:induction false} AddAllIfOnesPresent(grid: seq<seq<int>>, t: seq<Coordinates>, cs: seq<Coordinates>)
    requires Rectangular(grid)
    requires forall c :: c in cs && AllOnes(grid, c) ==> c in t
    ensures AddAllIfOnes(grid, t, cs) == t
    decreases |cs|
  {
    if cs != [] {
      assert AddIfOnes(grid, t, cs[0]) == t;
      AddAllIfOnesPresent(grid, t, cs[1..]);
    }
  }

  /**
   * Running the search again on its own result changes nothing: calling
   * `simplify(just_take=True)` and then `simplify()` ends with the same
   * `taken` as the first call.
   */
  lemma SearchIdempotent(grid: seq<seq<int>>, t: seq<Coordinates>)
    requires Rectangular(grid) && Sound(grid, t)
    ensures Search(grid, Search(grid, t)) == Search(grid, t)
  {
    var r := Search(grid, t);
    SearchCoversOnes(grid, t);
    SearchIrredundant(grid, t);
    var t8 := Find8(grid, t);
    forall c | c in Templates8(Height(grid)) && AllOnes(grid, c) ensures c in r {
      Find8Accepts(grid, t, c);
      var k :| 0 <= k < |t8| && t8[k] == c;
      assert r[k] == c;
    }
    AddAllIfOnesPresent(grid, r, Templates8(Height(grid)));
    RowsComplete(grid, r, Fours, Height(grid));
    RowsComplete(grid, r, Twos, Height(grid));
    RowsComplete(grid, r, Ones, Height(grid));
  }
}

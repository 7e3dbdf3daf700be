/**
 * The two grids of a Karnaugh map and how they are laid out
 * (kmap.py:100-141): the grid extents, the binary cell labels, the
 * row-major fill and the fixed Gray swaps.
 */
module Layout {
  import opened Wrappers
  import opened CycleList
  import Arith

  function Pow2(n: nat): (r: nat)
    ensures r >= 1
  {
    if n == 0 then 1 else 2 * Pow2(n - 1)
  }

  /** `row_size`, the length of one row (kmap.py:100). */
  function RowSize(n: int): int {
    if n == 3 || n == 4 then 4 else 2
  }

  /** `column_size`, the number of rows (kmap.py:101). */
  function ColumnSize(n: int): int {
    if n == 2 || n == 3 then 2 else 4
  }

  /** The number of label bits that select the row, and those that select the entry in a row. */
  function RowBits(n: int): nat {
    if n == 4 then 2 else 1
  }

  function EntryBits(n: int): nat {
    if n == 2 then 1 else 2
  }

  lemma Extents(n: int)
    requires 2 <= n <= 4
    ensures RowSize(n) == Pow2(EntryBits(n)) && ColumnSize(n) == Pow2(RowBits(n))
    ensures RowBits(n) + EntryBits(n) == n
    ensures RowSize(n) * ColumnSize(n) == Pow2(n)
  {
  }

  // ---------------------------------------------------------------------
  // Binary labels

  function Digit(b: int): char
    requires 0 <= b < 2
  {
    if b == 0 then '0' else '1'
  }

  /** `bin(i)[2:]`: the shortest binary numeral of `i`, most significant digit first. */
  function Bin(i: nat): string
    decreases i
  {
    if i < 2 then [Digit(i)] else Bin(i / 2) + [Digit(i % 2)]
  }

  function Zeros(k: nat): string {
    seq(k, _ => '0')
  }

  /** `str.zfill(width)` on a numeral without a sign: pad with `0` on the left. */
  function ZFill(s: string, width: int): string {
    if |s| >= width then s else Zeros(width - |s|) + s
  }

  /** The label of flat position `i` of an `n`-variable map: `bin(i)[2:].zfill(n)` (kmap.py:122). */
  function Label(i: nat, n: nat): string {
    ZFill(Bin(i), n)
  }

  /** Reference definition: the `n` low bits of `i`, most significant first. */
  function Bits(i: nat, n: nat): (r: string)
    ensures |r| == n
  {
    if n == 0 then [] else Bits(i / 2, n - 1) + [Digit(i % 2)]
  }

  /** A numeral read back as a number (Python's `int(s, 2)`). */
  function FromBinary(s: string): nat {
    if s == [] then 0 else 2 * FromBinary(s[..|s| - 1]) + (if s[|s| - 1] == '1' then 1 else 0)
  }

  predicate IsBinary(s: string) {
    forall k :: 0 <= k < |s| ==> s[k] == '0' || s[k] == '1'
  }

  lemma {:induction false} BitsBinary(i: nat, n: nat)
    ensures IsBinary(Bits(i, n))
  {
    if n > 0 {
      BitsBinary(i / 2, n - 1);
    }
  }

  lemma {:induction false} BitsOfZero(n: nat)
    ensures Bits(0, n) == Zeros(n)
  {
    if n > 0 {
      BitsOfZero(n - 1);
    }
  }

  /** `bin` gives exactly the significant bits, and no more than `n` of them below `2^n`. */
  lemma {:induction false} BinIsBits(i: nat)
    ensures Bin(i) == Bits(i, |Bin(i)|) && i < Pow2(|Bin(i)|)
    decreases i
  {
    if i >= 2 {
      BinIsBits(i / 2);
    }
  }

  lemma {:induction false} BinLength(i: nat, n: nat)
    requires n >= 1 && i < Pow2(n)
    ensures |Bin(i)| <= n
    decreases i
  {
    if i >= 2 {
      BinLength(i / 2, n - 1);
    }
  }

  /** Padding a numeral with leading zeros keeps the same bits. */
  lemma {:induction false} BitsPad(i: nat, l: nat, m: nat)
    requires i < Pow2(l) && l <= m
    ensures Bits(i, m) == Zeros(m - l) + Bits(i, l)
    decreases l
  {
    if l == 0 {
      BitsOfZero(m);
    } else {
      BitsPad(i / 2, l - 1, m - 1);
      assert Zeros(m - l) + Bits(i / 2, l - 1) + [Digit(i % 2)] == Zeros(m - l) + Bits(i, l);
    }
  }

  /** The source's labels are the `n`-bit numerals of the flat positions. */
  lemma LabelIsBits(i: nat, n: nat)
    requires n >= 1 && i < Pow2(n)
    ensures Label(i, n) == Bits(i, n)
  {
    BinIsBits(i);
    BinLength(i, n);
    BitsPad(i, |Bin(i)|, n);
    if |Bin(i)| == n {
      assert Zeros(0) + Bits(i, n) == Bits(i, n);
    }
  }

  /** Reading a label back gives its position: `int(label, 2) == i` (round trip). */
  lemma {:induction false} FromBinaryBits(i: nat, n: nat)
    ensures FromBinary(Bits(i, n)) == i % Pow2(n)
  {
    if n == 0 {
      Arith.DivModUnique(i, i, 0, 1);
    } else {
      var s := Bits(i, n);
      assert s[..|s| - 1] == Bits(i / 2, n - 1);
      assert s[|s| - 1] == Digit(i % 2);
      FromBinaryBits(i / 2, n - 1);
      HalfMod(i, Pow2(n - 1));
    }
  }

  lemma HalfMod(i: nat, p: nat)
    requires p > 0
    ensures i % (2 * p) == 2 * ((i / 2) % p) + i % 2
  {
    var q, r := (i / 2) / p, (i / 2) % p;
    assert i / 2 == q * p + r;
    assert i == 2 * (i / 2) + i % 2;
    assert 2 * (q * p) == q * (2 * p);
    Arith.DivModUnique(i, q, 2 * r + i % 2, 2 * p);
  }

  lemma LabelRoundTrip(i: nat, n: nat)
    requires n >= 1 && i < Pow2(n)
    ensures |Label(i, n)| == n && IsBinary(Label(i, n))
    ensures FromBinary(Label(i, n)) == i
  {
    LabelIsBits(i, n);
    BitsBinary(i, n);
    FromBinaryBits(i, n);
    Arith.DivModUnique(i, 0, i, Pow2(n));
  }

  /** The bits of `a * 2^k + b` are those of `a` followed by those of `b`. */
  lemma {:induction false} BitsConcat(a: nat, b: nat, j: nat, k: nat)
    requires b < Pow2(k)
    ensures Bits(a * Pow2(k) + b, j + k) == Bits(a, j) + Bits(b, k)
    decreases k
  {
    if k > 0 {
      var m := a * Pow2(k - 1);
      var v := a * Pow2(k) + b;
      assert a * Pow2(k) == 2 * m by {
        assert Pow2(k) == 2 * Pow2(k - 1);
        assert a * (2 * Pow2(k - 1)) == 2 * (a * Pow2(k - 1));
      }
      assert v == (m + b / 2) * 2 + b % 2;
      Arith.DivModUnique(v, m + b / 2, b % 2, 2);
      BitsConcat(a, b / 2, j, k - 1);
      assert Bits(v, j + k) == Bits(m + b / 2, j + k - 1) + [Digit(b % 2)];
      assert Bits(b, k) == Bits(b / 2, k - 1) + [Digit(b % 2)];
    }
  }

  // ---------------------------------------------------------------------
  // Row-major fill

  /** The rows `flat[i:i+row_size]` for `i` in `range(0, len(flat), row_size)` (kmap.py:107-108, 126-129). */
  function Rows<T>(flat: seq<T>, rowSize: nat): (r: seq<seq<T>>)
    requires rowSize > 0 && |flat| % rowSize == 0
    decreases |flat|
  {
    if |flat| == 0 then []
    else
      MultipleStep(|flat|, rowSize);
      [flat[..rowSize]] + Rows(flat[rowSize..], rowSize)
  }

  /** A positive multiple of `d` is at least `d`, and stays a multiple after removing one `d`. */
  lemma MultipleStep(len: int, d: int)
    requires d > 0 && len > 0 && len % d == 0
    ensures len >= d && (len - d) % d == 0 && (len - d) / d == len / d - 1
  {
    var q := len / d;
    assert len == q * d;
    assert len - d == (q - 1) * d;
    Arith.DivModUnique(len - d, q - 1, 0, d);
  }

  lemma {:induction false} RowsAt<T>(flat: seq<T>, rowSize: nat, x: nat, y: nat)
    requires rowSize > 0 && |flat| % rowSize == 0
    requires x < |flat| / rowSize && y < rowSize
    ensures |Rows(flat, rowSize)| == |flat| / rowSize
    ensures |Rows(flat, rowSize)[x]| == rowSize
    ensures x * rowSize + y < |flat| && Rows(flat, rowSize)[x][y] == flat[x * rowSize + y]
    decreases |flat|
  {
    RowsLength(flat, rowSize);
    MultipleStep(|flat|, rowSize);
    var rest := flat[rowSize..];
    if x > 0 {
      RowsAt(rest, rowSize, x - 1, y);
      assert x * rowSize + y == rowSize + ((x - 1) * rowSize + y);
    }
  }

  lemma {:induction false} RowsLength<T>(flat: seq<T>, rowSize: nat)
    requires rowSize > 0 && |flat| % rowSize == 0
    ensures |Rows(flat, rowSize)| == |flat| / rowSize
    ensures forall x :: 0 <= x < |Rows(flat, rowSize)| ==> |Rows(flat, rowSize)[x]| == rowSize
    decreases |flat|
  {
    if |flat| > 0 {
      MultipleStep(|flat|, rowSize);
      RowsLength(flat[rowSize..], rowSize);
    }
  }

  // ---------------------------------------------------------------------
  // Marking minterms

  /** The list position `flatten_map[m]` writes, with Python's negative indexing. */
  function PyIndex(m: int, size: int): int {
    if m < 0 then m + size else m
  }

  predicate Marked(minterms: seq<int>, size: int, i: int) {
    exists m :: m in minterms && PyIndex(m, size) == i
  }

  /** `flatten_map` after the marking loop (kmap.py:102-104). */
  function FlatValues(minterms: seq<int>, size: nat): seq<int> {
    seq(size, i => if Marked(minterms, size, i) then 1 else 0)
  }

  /** Every minterm names a valid list position, so the marking loop raises nothing. */
  predicate Indexable(minterms: seq<int>, size: int) {
    forall m :: m in minterms ==> -size <= m < size
  }

  /**
   * The marking loop of kmap.py:102-104: `None` when some `flatten_map[m]`
   * raises `IndexError`, otherwise the 0/1 list of marked positions.
   */
  method FillFlatMap(minterms: seq<int>, size: nat) returns (r: Option<seq<int>>)
    ensures r.None? <==> !Indexable(minterms, size)
    ensures r.Some? ==> r.value == FlatValues(minterms, size)
  {
    var flat := seq(size, _ => 0);
    for k := 0 to |minterms|
      invariant |flat| == size
      invariant Indexable(minterms[..k], size)
      invariant forall i :: 0 <= i < size ==> flat[i] == (if Marked(minterms[..k], size, i) then 1 else 0)
    {
      var m := minterms[k];
      var index := if m < 0 then m + size else m;
      if !(0 <= index < size) {
        assert m in minterms;
        return None;
      }
      assert minterms[..k + 1] == minterms[..k] + [m];
      forall i | 0 <= i < size
        ensures Marked(minterms[..k + 1], size, i) <==> Marked(minterms[..k], size, i) || i == index
      {
        if i == index {
          assert m in minterms[..k + 1] && PyIndex(m, size) == i;
        }
        if Marked(minterms[..k + 1], size, i) {
          var m' :| m' in minterms[..k + 1] && PyIndex(m', size) == i;
          if m' != m {
            assert m' in minterms[..k];
          }
        }
      }
      ghost var before := flat;
      flat := flat[index := 1];
      assert forall i :: 0 <= i < size && i != index ==> flat[i] == before[i];
    }
    assert minterms[..|minterms|] == minterms;
    return Some(flat);
  }

  // ---------------------------------------------------------------------
  // Gray swaps

  /** Index `i` with 2 and 3 exchanged when `swap` holds. */
  function Swap23(i: int, swap: bool): int {
    if swap && i == 2 then 3 else if swap && i == 3 then 2 else i
  }

  /** The shape `__grayify_maps` needs: rows of 4 when it swaps entries, 4 rows when it swaps rows. */
  predicate GrayShape<T>(m: seq<seq<T>>, n: int) {
    && (n > 2 ==> forall x :: 0 <= x < |m| ==> |m[x]| == 4)
    && (n > 3 ==> |m| == 4)
  }

  /**
   * The grid after `__grayify_maps` (kmap.py:133-141), stated as a
   * permutation of positions: entry `y` of row `x` comes from entry
   * `Swap23(y, n > 2)` of row `Swap23(x, n > 3)`.
   */
  function Grayed<T>(m: seq<seq<T>>, n: int): (r: seq<seq<T>>)
    requires GrayShape(m, n)
    ensures |r| == |m| && forall x :: 0 <= x < |m| ==> |r[x]| == |m[x]|
  {
    seq(|m|, x requires 0 <= x < |m| =>
      seq(|m[x]|, y requires 0 <= y < |m[x]| => m[Swap23(x, n > 3)][Swap23(y, n > 2)]))
  }

  /** The Gray swap undoes itself. */
  lemma GrayedInvolution<T>(m: seq<seq<T>>, n: int)
    requires GrayShape(m, n)
    ensures GrayShape(Grayed(m, n), n) && Grayed(Grayed(m, n), n) == m
  {
    var g := Grayed(m, n);
    assert GrayShape(g, n);
    var h := Grayed(g, n);
    forall x | 0 <= x < |m| ensures h[x] == m[x] {
      assert |h[x]| == |m[x]|;
      forall y | 0 <= y < |m[x]| ensures h[x][y] == m[x][y] {
        var x', y' := Swap23(x, n > 3), Swap23(y, n > 2);
        assert Swap23(x', n > 3) == x && Swap23(y', n > 2) == y;
        assert |g[x']| == |m[x']| == |m[x]|;
        assert g[x'][y'] == m[x][y];
        assert h[x][y] == g[x'][y'];
      }
    }
  }

  /**
   * `__grayify_maps` on one grid (kmap.py:134-141): exchange entries 2 and 3
   * of every row when `n > 2`, then rows 2 and 3 when `n > 3`.  Reading
   * row 3 of an empty `CycleList` raises `IndexError`, reported as `None`.
   */
  method GraySwaps<T>(m: seq<seq<T>>, n: int) returns (r: Option<seq<seq<T>>>)
    requires n > 2 ==> forall x :: 0 <= x < |m| ==> |m[x]| == 4
    requires n > 3 ==> |m| == 0 || |m| == 4
    ensures r.None? <==> n > 3 && |m| == 0
    ensures r.Some? ==> GrayShape(m, n) && r.value == Grayed(m, n)
  {
    var g := m;
    if n > 2 {
      for x := 0 to |g|
        invariant |g| == |m|
        invariant forall i :: 0 <= i < x ==> g[i] == m[i][2 := m[i][3]][3 := m[i][2]]
        invariant forall i :: x <= i < |g| ==> g[i] == m[i]
      {
        var row := g[x];
        g := g[x := row[2 := row[3]][3 := row[2]]];
      }
    }
    if n > 3 {
      var third := Get(g, 3);
      if third.Err? {
        return None;
      }
      var second := Get(g, 2);
      g := g[2 := third.value][3 := second.value];
    }
    r := Some(g);
    assert GrayShape(m, n);
    forall x | 0 <= x < |m| ensures g[x] == Grayed(m, n)[x] {
      assert |g[x]| == |m[x]|;
      forall y | 0 <= y < |m[x]| ensures g[x][y] == Grayed(m, n)[x][y] {
        assert Grayed(m, n)[x][y] == m[Swap23(x, n > 3)][Swap23(y, n > 2)];
      }
    }
  }

  // ---------------------------------------------------------------------
  // The two grids of a map

  /** The flat position whose value and label end up at row `x`, entry `y`. */
  function CellIndex(n: int, x: int, y: int): int {
    Swap23(x, n > 3) * RowSize(n) + Swap23(y, n > 2)
  }

  /** `flatten_map_prototype` (kmap.py:120-122). */
  function LabelFlat(n: nat): (r: seq<string>)
    ensures |r| == Pow2(n)
  {
    seq(Pow2(n), i requires 0 <= i < Pow2(n) => Label(i, n))
  }

  lemma GrayShapeOfRows<T>(flat: seq<T>, n: int)
    requires 2 <= n <= 4 && |flat| == Pow2(n)
    ensures |flat| % RowSize(n) == 0
    ensures GrayShape(Rows(flat, RowSize(n)), n)
    ensures |Rows(flat, RowSize(n))| == ColumnSize(n)
  {
    Arith.DivModUnique(|flat|, ColumnSize(n), 0, RowSize(n));
    RowsLength(flat, RowSize(n));
  }

  /** A flat list laid out row-major and Gray-swapped, as both grids are built. */
  function Layout<T>(flat: seq<T>, n: int): (r: seq<seq<T>>)
    requires 2 <= n <= 4 && |flat| == Pow2(n)
  {
    GrayShapeOfRows(flat, n);
    Grayed(Rows(flat, RowSize(n)), n)
  }

  /** `map_` of a constructed map: the 0/1 value grid. */
  function ValueGrid(minterms: seq<int>, n: int): seq<seq<int>>
    requires 2 <= n <= 4
  {
    Layout(FlatValues(minterms, Pow2(n)), n)
  }

  /** `map_prototype` of a map with a non-constant function: the label grid. */
  function LabelGrid(n: int): seq<seq<string>>
    requires 2 <= n <= 4
  {
    Layout(LabelFlat(n), n)
  }

  /** Where each flat position lands: the grid has `column_size` rows of `row_size` entries. */
  lemma LayoutAt<T>(flat: seq<T>, n: int, x: int, y: int)
    requires 2 <= n <= 4 && |flat| == Pow2(n)
    requires 0 <= x < ColumnSize(n) && 0 <= y < RowSize(n)
    ensures |Layout(flat, n)| == ColumnSize(n) && |Layout(flat, n)[x]| == RowSize(n)
    ensures 0 <= CellIndex(n, x, y) < Pow2(n)
    ensures Layout(flat, n)[x][y] == flat[CellIndex(n, x, y)]
  {
    GrayShapeOfRows(flat, n);
    var rows := Rows(flat, RowSize(n));
    var x', y' := Swap23(x, n > 3), Swap23(y, n > 2);
    assert 0 <= x' < ColumnSize(n) && 0 <= y' < RowSize(n);
    RowsAt(flat, RowSize(n), x, 0);
    RowsAt(flat, RowSize(n), x', y');
    assert Layout(flat, n)[x][y] == rows[x'][y'];
  }

  /** Both grids have `column_size` rows of `row_size` entries. */
  lemma LayoutShape<T>(flat: seq<T>, n: int)
    requires 2 <= n <= 4 && |flat| == Pow2(n)
    ensures |Layout(flat, n)| == ColumnSize(n)
    ensures forall x :: 0 <= x < ColumnSize(n) ==> |Layout(flat, n)[x]| == RowSize(n)
  {
    LayoutAt(flat, n, 0, 0);
    forall x | 0 <= x < ColumnSize(n) ensures |Layout(flat, n)[x]| == RowSize(n) {
      LayoutAt(flat, n, x, 0);
    }
  }

  /** Every flat position lands on exactly one cell. */
  lemma CellOfIndex(n: int, i: int)
    requires 2 <= n <= 4 && 0 <= i < Pow2(n)
    ensures var x, y := Swap23(i / RowSize(n), n > 3), Swap23(i % RowSize(n), n > 2);
            0 <= x < ColumnSize(n) && 0 <= y < RowSize(n) && CellIndex(n, x, y) == i
  {
    var rs := RowSize(n);
    assert i == (i / rs) * rs + i % rs;
    assert i / rs < ColumnSize(n);
  }

  lemma CellIndexInjective(n: int, x: int, y: int, x': int, y': int)
    requires 2 <= n <= 4
    requires 0 <= x < ColumnSize(n) && 0 <= y < RowSize(n)
    requires 0 <= x' < ColumnSize(n) && 0 <= y' < RowSize(n)
    requires CellIndex(n, x, y) == CellIndex(n, x', y')
    ensures x == x' && y == y'
  {
    var rs := RowSize(n);
    var i := CellIndex(n, x, y);
    Arith.DivModUnique(i, Swap23(x, n > 3), Swap23(y, n > 2), rs);
    Arith.DivModUnique(i, Swap23(x', n > 3), Swap23(y', n > 2), rs);
  }

  /** The label of a cell is the label of its flat position. */
  lemma LabelAt(n: int, x: int, y: int)
    requires 2 <= n <= 4
    requires 0 <= x < ColumnSize(n) && 0 <= y < RowSize(n)
    ensures |LabelGrid(n)| == ColumnSize(n) && |LabelGrid(n)[x]| == RowSize(n)
    ensures 0 <= CellIndex(n, x, y) < Pow2(n)
    ensures LabelGrid(n)[x][y] == Label(CellIndex(n, x, y), n)
  {
    LayoutAt(LabelFlat(n), n, x, y);
  }

  /** The flat position of a cell: its swapped row above its swapped entry. */
  lemma IndexSplits(n: int, x: int, y: int)
    requires 2 <= n <= 4
    requires 0 <= x < ColumnSize(n) && 0 <= y < RowSize(n)
    ensures 0 <= Swap23(x, n > 3) && 0 <= Swap23(y, n > 2) < Pow2(EntryBits(n))
    ensures CellIndex(n, x, y) == Swap23(x, n > 3) * Pow2(EntryBits(n)) + Swap23(y, n > 2)
    ensures RowBits(n) + EntryBits(n) == n
  {
    Extents(n);
  }

  /** `BitsConcat` at a number already split into its high and low part. */
  lemma BitsOfSplit(i: nat, n: nat, a: nat, b: nat, j: nat, k: nat)
    requires b < Pow2(k) && i == a * Pow2(k) + b && n == j + k
    ensures Bits(i, n) == Bits(a, j) + Bits(b, k)
  {
    BitsConcat(a, b, j, k);
    BitsCongruent(i, a * Pow2(k) + b, n, j + k);
  }

  lemma BitsCongruent(i: nat, i': nat, n: nat, n': nat)
    requires i == i' && n == n'
    ensures Bits(i, n) == Bits(i', n')
  {
  }

  /** A label is the Gray code of its row followed by the Gray code of its entry. */
  lemma LabelSplits(n: int, x: int, y: int)
    requires 2 <= n <= 4
    requires 0 <= x < ColumnSize(n) && 0 <= y < RowSize(n)
    ensures |LabelGrid(n)| == ColumnSize(n) && |LabelGrid(n)[x]| == RowSize(n)
    ensures LabelGrid(n)[x][y] == Bits(Swap23(x, n > 3), RowBits(n)) + Bits(Swap23(y, n > 2), EntryBits(n))
  {
    var i := CellIndex(n, x, y);
    var a, b := Swap23(x, n > 3), Swap23(y, n > 2);
    LabelAt(n, x, y);
    IndexSplits(n, x, y);
    LabelIsBits(i, n);
    BitsOfSplit(i, n, a, b, RowBits(n), EntryBits(n));
  }

  /**
   * The value grid and the label grid agree cell by cell: `map_[x][y]` is 1
   * exactly when the label `map_prototype[x][y]`, read as a binary number,
   * is one of the minterms (negative minterms counted from the end).
   */
  lemma ValueMatchesLabel(minterms: seq<int>, n: int, x: int, y: int)
    requires 2 <= n <= 4 && Indexable(minterms, Pow2(n))
    requires 0 <= x < ColumnSize(n) && 0 <= y < RowSize(n)
    ensures |ValueGrid(minterms, n)| == |LabelGrid(n)| == ColumnSize(n)
    ensures |ValueGrid(minterms, n)[x]| == |LabelGrid(n)[x]| == RowSize(n)
    ensures ValueGrid(minterms, n)[x][y] == 0 || ValueGrid(minterms, n)[x][y] == 1
    ensures ValueGrid(minterms, n)[x][y] == 1 <==>
            exists m :: m in minterms && m % Pow2(n) == FromBinary(LabelGrid(n)[x][y])
  {
    var size := Pow2(n);
    var i := CellIndex(n, x, y);
    var flat := FlatValues(minterms, size);
    LayoutAt(flat, n, x, y);
    LayoutAt(LabelFlat(n), n, x, y);
    assert ValueGrid(minterms, n)[x][y] == flat[i];
    assert flat[i] == if Marked(minterms, size, i) then 1 else 0;
    LabelRoundTrip(i, n);
    assert FromBinary(LabelGrid(n)[x][y]) == i;
    MarkedIsMod(minterms, size, i);
  }

  /** Within the valid range, Python's index resolution is reduction modulo the length. */
  lemma MarkedIsMod(minterms: seq<int>, size: int, i: int)
    requires size > 0 && Indexable(minterms, size)
    ensures Marked(minterms, size, i) <==> exists m :: m in minterms && m % size == i
  {
    forall m | m in minterms ensures PyIndex(m, size) == m % size {
      if m < 0 {
        Arith.DivModUnique(m, -1, m + size, size);
      } else {
        Arith.DivModUnique(m, 0, m, size);
      }
    }
  }

  // ---------------------------------------------------------------------
  // Gray adjacency

  /** The number of positions at which two equally long strings differ. */
  function Hamming(s: string, t: string): nat
    requires |s| == |t|
  {
    if s == [] then 0 else Hamming(s[1..], t[1..]) + (if s[0] == t[0] then 0 else 1)
  }

  lemma {:induction false} HammingConcat(s: string, s': string, t: string, t': string)
    requires |s| == |t| && |s'| == |t'|
    ensures Hamming(s + s', t + t') == Hamming(s, t) + Hamming(s', t')
  {
    if s != [] {
      assert (s + s')[1..] == s[1..] + s' && (t + t')[1..] == t[1..] + t';
      HammingConcat(s[1..], s', t[1..], t');
    } else {
      assert s + s' == s' && t + t' == t';
    }
  }

  lemma {:induction false} HammingSelf(s: string)
    ensures Hamming(s, s) == 0
  {
    if s != [] {
      HammingSelf(s[1..]);
    }
  }

  lemma SmallNumerals()
    ensures Bits(0, 1) == "0" && Bits(1, 1) == "1"
    ensures Bits(0, 2) == "00" && Bits(1, 2) == "01" && Bits(2, 2) == "10" && Bits(3, 2) == "11"
  {
    assert Bits(0, 1) == Bits(0, 0) + "0";
    assert Bits(1, 1) == Bits(0, 0) + "1";
    assert Bits(0, 2) == Bits(0, 1) + "0";
    assert Bits(1, 2) == Bits(0, 1) + "1";
    assert Bits(2, 2) == Bits(1, 1) + "0";
    assert Bits(3, 2) == Bits(1, 1) + "1";
  }

  /** One step along a row or column code, wrapping around, flips exactly one bit. */
  lemma GrayStep(i: int, bits: nat)
    requires bits == 1 || bits == 2
    requires 0 <= i < Pow2(bits)
    ensures Hamming(Bits(Swap23(i, bits == 2), bits), Bits(Swap23((i + 1) % Pow2(bits), bits == 2), bits)) == 1
  {
    SmallNumerals();
    if bits == 1 {
      assert Pow2(1) == 2;
      GrayStepOne(i);
    } else {
      assert Pow2(2) == 4;
      GrayStepTwo(i);
    }
  }

  lemma GrayStepOne(i: int)
    requires 0 <= i < 2
    requires Bits(0, 1) == "0" && Bits(1, 1) == "1"
    ensures Hamming(Bits(Swap23(i, false), 1), Bits(Swap23((i + 1) % 2, false), 1)) == 1
  {
    if i == 0 {
      assert Hamming("0", "1") == 1;
    } else {
      assert Hamming("1", "0") == 1;
    }
  }

  lemma GrayStepTwo(i: int)
    requires 0 <= i < 4
    requires Bits(0, 2) == "00" && Bits(1, 2) == "01" && Bits(2, 2) == "10" && Bits(3, 2) == "11"
    ensures Hamming(Bits(Swap23(i, true), 2), Bits(Swap23((i + 1) % 4, true), 2)) == 1
  {
    if i == 0 {
      assert Hamming("00", "01") == 1;
    } else if i == 1 {
      assert Swap23(2, true) == 3;
      assert Hamming("01", "11") == 1;
    } else if i == 2 {
      assert Swap23(3, true) == 2;
      assert Hamming("11", "10") == 1;
    } else {
      assert (i + 1) % 4 == 0;
      assert Hamming("10", "00") == 1;
    }
  }

  lemma LabelLengths(n: int)
    requires 2 <= n <= 4
    ensures |LabelGrid(n)| == ColumnSize(n)
    ensures forall x :: 0 <= x < ColumnSize(n) ==> |LabelGrid(n)[x]| == RowSize(n)
    ensures forall x, y :: 0 <= x < ColumnSize(n) && 0 <= y < RowSize(n) ==> |LabelGrid(n)[x][y]| == n
  {
    Extents(n);
    forall x, y | 0 <= x < ColumnSize(n) && 0 <= y < RowSize(n)
      ensures |LabelGrid(n)[x]| == RowSize(n) && |LabelGrid(n)[x][y]| == n
    {
      LabelSplits(n, x, y);
    }
    LabelSplits(n, 0, 0);
  }

  /** The next entry of the same row, wrapping to the first. */
  lemma EntryNeighbour(n: int, x: int, y: int)
    requires 2 <= n <= 4
    requires 0 <= x < ColumnSize(n) && 0 <= y < RowSize(n)
    ensures |LabelGrid(n)| == ColumnSize(n) && |LabelGrid(n)[x]| == RowSize(n)
    ensures var l := LabelGrid(n)[x];
            |l[y]| == |l[(y + 1) % RowSize(n)]| && Hamming(l[y], l[(y + 1) % RowSize(n)]) == 1
  {
    Extents(n);
    var y1 := (y + 1) % RowSize(n);
    LabelSplits(n, x, y);
    LabelSplits(n, x, y1);
    var r := Bits(Swap23(x, n > 3), RowBits(n));
    var e, e1 := Bits(Swap23(y, n > 2), EntryBits(n)), Bits(Swap23(y1, n > 2), EntryBits(n));
    HammingConcat(r, e, r, e1);
    HammingSelf(r);
    GrayStep(y, EntryBits(n));
  }

  /** The same entry of the next row, wrapping to the first row. */
  lemma RowNeighbour(n: int, x: int, y: int)
    requires 2 <= n <= 4
    requires 0 <= x < ColumnSize(n) && 0 <= y < RowSize(n)
    ensures |LabelGrid(n)| == ColumnSize(n)
    ensures var x1 := (x + 1) % ColumnSize(n);
            |LabelGrid(n)[x]| == |LabelGrid(n)[x1]| == RowSize(n) &&
            |LabelGrid(n)[x][y]| == |LabelGrid(n)[x1][y]| &&
            Hamming(LabelGrid(n)[x][y], LabelGrid(n)[x1][y]) == 1
  {
    Extents(n);
    var x1 := (x + 1) % ColumnSize(n);
    LabelSplits(n, x, y);
    LabelSplits(n, x1, y);
    var r, r1 := Bits(Swap23(x, n > 3), RowBits(n)), Bits(Swap23(x1, n > 3), RowBits(n));
    var e := Bits(Swap23(y, n > 2), EntryBits(n));
    HammingConcat(r, e, r1, e);
    HammingSelf(e);
    GrayStep(x, RowBits(n));
  }

  /**
   * After `__grayify_maps` the labels of toroidally adjacent cells differ in
   * exactly one bit: the next entry of a row (wrapping to the first) and the
   * same entry of the next row (wrapping to the first row).
   */
  lemma GrayAdjacent(n: int, x: int, y: int)
    requires 2 <= n <= 4
    requires 0 <= x < ColumnSize(n) && 0 <= y < RowSize(n)
    ensures |LabelGrid(n)| == ColumnSize(n)
    ensures forall x' :: 0 <= x' < ColumnSize(n) ==> |LabelGrid(n)[x']| == RowSize(n)
    ensures forall x', y' :: 0 <= x' < ColumnSize(n) && 0 <= y' < RowSize(n) ==> |LabelGrid(n)[x'][y']| == n
    ensures Hamming(LabelGrid(n)[x][y], LabelGrid(n)[x][(y + 1) % RowSize(n)]) == 1
    ensures Hamming(LabelGrid(n)[x][y], LabelGrid(n)[(x + 1) % ColumnSize(n)][y]) == 1
  {
    LabelLengths(n);
    EntryNeighbour(n, x, y);
    RowNeighbour(n, x, y);
  }
}

# kmap: a verified model of a Karnaugh-map minimiser

`kmap.py` simplifies a Boolean function of two, three or four variables.
The function is given by its minterms. The program works in phases:

1. It lays the function out on a Karnaugh map: a grid of 0/1 cells in Gray-code order, and next to it a grid of the cells' binary labels.
2. It greedily covers the 1-cells with rectangles of 8, 4, 2 and 1 cells on the torus.
3. It writes one product term per rectangle and joins the terms with `" + "`.

This project models the whole module except its console entry point. It proves, among other things:

- the cover the search builds is sound and holds exactly the 1-cells;
- the search adds nothing when run a second time;
- neighbouring cells on the torus have labels one bit apart;
- the pattern of every region matches the label of a cell exactly when the region covers that cell.

Together these give the main theorem, `Correctness.MapDenotes`: a cell's label matches the pattern of one of the taken regions exactly when the number that label spells is a minterm.

`Correctness.TermsDenote` carries this over to the output terms. It needs the names to be readable (`Terms.Readable`): single characters, pairwise distinct, none of them `'`. Each term then reads back to its region's pattern. `KMaps.ExpressionSplits` cuts the `" + "`-joined expression back into those terms when no name holds a space. `Correctness.ExpressionDenotes` states the result over the function's inputs and on the string `simplified` itself: cut at its separators, with each term read back, some term matches an assignment exactly when that assignment is a minterm.

## Layout

| file | module | content |
|---|---|---|
| `wrappers.dfy` | `Wrappers` | `Option`, `Result` |
| `arith.dfy` | `Arith` | uniqueness of Euclidean division, residues under shifts |
| `cycle_list.dfy` | `CycleList` | `CycleList.__getitem__` |
| `geometry.dfy` | `Geometry` | `Point`, `Coordinates`, `to_points`, `__add__` |
| `layout.dfy` | `Layout` | sizes, binary labels, row chunking, marking of `flatten_map`, Gray swaps, the two grids, Gray adjacency |
| `cover.dfy` | `Cover` | `_is_taken`, `_are_all1`, the templates, the four passes as functions, and their properties |
| `terms.dfy` | `Terms` | `__simplify_terms`, the collapsed pattern of a region, `__binary_to_vars`, `" + ".join`, reading a term back |
| `kmaps.dfy` | `KMaps` | validation, construction outcome, class `KMap` with its imperative methods |
| `correctness.dfy` | `Correctness` | what the cover means: regions' patterns and the function |

### Representation choices

- **Grids.**
  - `map_` becomes a rectangular `seq<seq<int>>` and `map_prototype` a `seq<seq<string>>`.
  - Both are wrapped in `CycleList`, so every index `map_[x][y]` reduces `x` modulo the number of rows and `y` modulo the row length. `Cover.Cell` does the same.
  - The source's odd naming is kept. `x` indexes the `column_size` rows, `y` the `row_size` entries of a row.
- **`taken`.**
  - It becomes a sequence without duplicates, in the order regions were added. `set.add` of a region already present changes nothing (`Cover.Insert`).
  - Properties of the output are stated per region and per term, never by position in the string.
- **The search.**
  - It is specified by the functions `Cover.Find8`, `Cover.Visit`, `Cover.SweepRow`, `Cover.SweepRows`, `Cover.RunPass` and `Cover.Search`.
  - The class's methods (`FindAll8`, `FindAll4`, `FindAll2`, `FindAll1`, `VisitAt`, `SweepRowAt`, `Sweep`, `TakeAll`, `Simplify`) change `taken` in place. Each is proved equal to these functions. `SweepRowAt` is the inner loop of a pass and `VisitAt` its body.
- **Exceptions.** Every exception the constructor can raise is a value of `KMaps.KMapError`. `KMaps.NewKMap` returns `Raised(error)` or `Built(kmap)`.
- **Constant functions.**
  - All ones: the constructor sets `simplified` to `"1"` and `taken` to the one region `Coordinates(0, 0, row_size, column_size)`.
  - All zeros: it sets `simplified` to `"0"`. Nothing else is computed in either case.
- **A non-truthy name.** The name check `any(filter(lambda v: len(v) != 1, variables))` tests the truthiness of the names it keeps. An empty name therefore passes, although the test `len(v) != 1` is meant to require exactly one character. The model follows the code: `KMaps.Validate` rejects only names longer than one character.
- **Negative minterms.** `flatten_map[minterm] = 1` uses Python's negative indexing.
  - A minterm `m` with `-2**n <= m < 0` marks position `m + 2**n`.
  - A smaller one raises `IndexError`. This is `KMapError.IndexOutOfRange`, via `Layout.Indexable`.
- **Empty `CycleList`.** Indexing an empty `CycleList` with `index <= 0` calls the misspelt `super().__getitem` and so raises `AttributeError`. `CycleList.Get` models that.

## Model

| member | source | states |
|---|---|---|
| CycleList.Get | kmap.py:5-11 | indexing succeeds exactly on a non-empty list and returns an element of it; on an empty list it fails with `IndexError` for a positive index and `AttributeError` otherwise |
| CycleList.GetInRange | kmap.py:11 | within `0..len-1` the wrapped index is ordinary indexing |
| CycleList.GetPeriodic | kmap.py:11 | on a non-empty list every integer index is valid and `l[i] == l[i + k*len(l)] == l[i mod len(l)]` |
| CycleList.GetNegative | kmap.py:11 | `l[-j]` is `l[len(l) - j]` for `1 <= j <= len(l)` |
| Geometry.RawPoints | kmap.py:36-39 | the cells of the nested `range` loops: every `(x, y)` with `top_x <= x <= bot_x` and `top_y <= y <= bot_y` |
| Geometry.Wrap | kmap.py:44-46 | one cell reduced as `Point(x % column_size, y % row_size)`, with the non-negative remainder of Python's `%` for positive moduli |
| Geometry.ToPoints | kmap.py:30-49 | `ValueError` exactly when one modulus is given; with no moduli, exactly the cells of the inclusive rectangle; with both, those cells reduced to `(x mod column_size, y mod row_size)` |
| Geometry.Points | kmap.py:45-49 | every reduced cell lies inside the grid |
| Geometry.PointsMember | kmap.py:45-47 | a cell is in the reduced set exactly when some raw cell of the rectangle reduces to it |
| Geometry.RawPointsMember | kmap.py:37-40 | the raw set is exactly the cells between the two corners |
| Geometry.Add | kmap.py:51-58 | the sides of a sum of rectangles are the sums of the sides |
| Geometry.AnchoredTemplate | kmap.py:186-201 | adding a template to an anchor's one-cell rectangle translates the template's cells by the anchor |
| Layout.RowSize | kmap.py:100 | `row_size`: 4 for three or four variables, otherwise 2 |
| Layout.ColumnSize | kmap.py:101 | `column_size`: 2 for two or three variables, otherwise 4 |
| Layout.Extents | kmap.py:100-101 | `row_size * column_size == 2**n`; each extent is a power of two whose bits add up to `n` |
| Layout.Label | kmap.py:121-122 | `bin(i)[2:].zfill(n)`: the binary digits of `i`, padded with zeros on the left to `n` |
| Layout.Bin | kmap.py:122 | `bin(i)[2:]`: the binary digits of `i` without leading zeros, `0` for zero |
| Layout.ZFill | kmap.py:122 | `str.zfill(width)` on a string without a sign: zeros added on the left up to `width`, a longer string unchanged |
| Layout.LabelFlat | kmap.py:120-122 | `flatten_map_prototype`: the label of every position `0 .. 2**n - 1`, in order |
| Layout.PyIndex | kmap.py:104 | the list position `flatten_map[minterm]` writes: a negative minterm counts from the end |
| Layout.Marked | kmap.py:103-104 | some minterm of the list writes position `i` |
| Layout.FlatValues | kmap.py:102-104 | `flatten_map` after the marking loop: position `i` of the `2**n` zeros is 1 exactly when some minterm, with Python's negative indexing, names it |
| Layout.Grayed | kmap.py:133-141 | `__grayify_maps` on one grid: entries 2 and 3 of each row exchanged when n > 2, rows 2 and 3 exchanged when n > 3, everything else in place |
| Layout.LabelIsBits | kmap.py:121-122 | `bin(i)[2:].zfill(n)` is the `n`-bit numeral of `i` for every `i < 2**n` |
| Layout.LabelRoundTrip | kmap.py:121-122 | a label has `n` binary digits and reads back as its index |
| Layout.FromBinaryBits | kmap.py:121-122 | reading the `n`-bit numeral of `i` gives `i mod 2**n` |
| Layout.BitsConcat | kmap.py:121-122 | the numeral of `a * 2**k + b` is the numeral of `a` followed by that of `b` |
| Layout.Rows | kmap.py:107-108 | the rows `flat[i : i + row_size]` for `i` in `range(0, len(flat), row_size)`, in order |
| Layout.RowsAt | kmap.py:106-108 | slicing into rows of `row_size` puts flat position `x*row_size + y` at row `x`, entry `y` |
| Layout.RowsLength | kmap.py:106-108 | there are `len/row_size` rows of `row_size` entries |
| Layout.FillFlatMap | kmap.py:102-104 | the marking loop fails exactly when a minterm is below `-2**n`; otherwise it gives the 0/1 list of marked positions |
| Layout.MarkedIsMod | kmap.py:102-104 | position `i` is marked exactly when some minterm equals `i` modulo `2**n` |
| Layout.GraySwaps | kmap.py:133-141 | the swaps fail exactly when four variables meet an empty map; otherwise they give the map with entries 2 and 3 of each row exchanged (n > 2) and rows 2 and 3 exchanged (n > 3) |
| Layout.GrayedInvolution | kmap.py:133-141 | the swaps undo themselves |
| Layout.LayoutAt | kmap.py:106-141 | after chunking and swapping, cell `(x, y)` holds flat position `CellIndex(n, x, y)`, which is within range |
| Layout.LayoutShape | kmap.py:106-141 | a laid-out grid has `column_size` rows of `row_size` entries |
| Layout.LabelAt | kmap.py:119-141 | a cell's label is the label of its flat position, which is within range |
| Layout.CellOfIndex | kmap.py:106-141 | every flat position lands on a cell of the grid, which `CellIndexInjective` makes unique |
| Layout.CellIndexInjective | kmap.py:106-141 | distinct cells come from distinct flat positions |
| Layout.LabelSplits | kmap.py:119-141 | a cell's label is the Gray code of its row followed by the Gray code of its entry |
| Layout.ValueMatchesLabel | kmap.py:100-141 | for every cell the value is 0 or 1, and it is 1 exactly when the cell's label, read in binary, is a minterm modulo `2**n` |
| Layout.GrayStep | kmap.py:133-141 | after the swap, consecutive positions of a dimension (with wrap) have codes one bit apart |
| Layout.EntryNeighbour | kmap.py:133-141 | a cell's label and that of the next entry of its row (with wrap) differ in exactly one bit |
| Layout.RowNeighbour | kmap.py:133-141 | a cell's label and that of the same entry of the next row (with wrap) differ in exactly one bit |
| Layout.GrayAdjacent | kmap.py:133-141 | both adjacencies together, with the shape of the label grid |
| Layout.ValueGrid | kmap.py:102-141 | `map_` once built: `flatten_map` sliced into rows of `row_size` and Gray-swapped |
| Layout.LabelGrid | kmap.py:119-141 | `map_prototype` of a non-constant function: `flatten_map_prototype` sliced into rows of `row_size` and Gray-swapped |
| Layout.LabelLengths | kmap.py:119-129 | the label grid has `column_size` rows of `row_size` labels of `n` digits |
| Cover.Cell | kmap.py:168 | `self.map_[x][y]`: both indexings go through `CycleList.__getitem__` and wrap |
| Cover.Cells | kmap.py:157-162 | `coords.to_points(self.row_size, self.column_size)`: a region's cells reduced onto the grid |
| Cover.CellWraps | kmap.py:166-170 | `map_[x][y]` on the nested cycle lists is the cell at `x mod rows`, `y mod row length` |
| Cover.AllOnesIffInOnes | kmap.py:166-170 | `_are_all1` holds exactly when the region's cells are all 1-cells |
| Cover.TemplatesShaped | kmap.py:172-209 | every template tried spans 1, 2 or 4 rows by 1, 2 or 4 entries |
| Cover.AllOnes | kmap.py:166-170 | `_are_all1`: every raw cell of the region, read through the wrapping lists, is non-zero |
| Cover.Subsumed | kmap.py:153-164 | `_is_taken`: false on an empty `taken`; otherwise whether the union of the taken regions' reduced cells contains all of the region's reduced cells |
| Cover.Insert | kmap.py:183 | `set.add`: a region already present leaves `taken` unchanged, a new one is appended |
| Cover.AddIfOnes | kmap.py:182-183 | one step of `__find_all8`'s loop: `self.taken.add(coords)` when the template is all ones |
| Cover.AddAllIfOnes | kmap.py:181-183 | the loop `for coords in coords8`: the templates tried one after the other, in order |
| Cover.TryAdd | kmap.py:193-209 | the acceptance test of the size-4, 2 and 1 passes: add the region when it is all ones and not `_is_taken` |
| Cover.TryAddAll | kmap.py:185-209 | the loops `for coords in coords4` and `for coords in coords2`, and the single test of `__find_all1`: candidates tried one after the other, in order, each against the `taken` the earlier ones left |
| Cover.Templates8 | kmap.py:173-179 | the size-8 templates: `Coordinates(0, 0, 1, 3)`, and on a 4-row grid the three others |
| Cover.Templates4 | kmap.py:186-191 | the size-4 templates: the anchor plus `(0, 0, 0, 3)` and `(0, 0, 1, 1)`, and on a 4-row grid the fixed `Coordinates(0, 0, 3, 0)`, not moved to the anchor |
| Cover.Templates2 | kmap.py:198-201 | the size-2 templates: the anchor plus `(0, 0, 1, 0)` and `(0, 0, 0, 1)` |
| Cover.Candidates | kmap.py:185-209 | the regions `__find_all4`, `__find_all2` and `__find_all1` try at an anchor, in order |
| Cover.Find8 | kmap.py:172-183 | `__find_all8`: each size-8 template in order is added when it is all ones, with no covering test |
| Cover.Visit | kmap.py:216-219 | one iteration of a pass's nested loop: a 0-cell changes nothing, a 1-cell tries the pass's candidates at its one-cell anchor |
| Cover.SweepRow | kmap.py:217-219 | the inner loop of a pass: the entries of one row visited from the first up to, not including, entry `y` |
| Cover.SweepRows | kmap.py:216-219 | the outer loop of a pass: its first `x` rows, each swept in full |
| Cover.RunPass | kmap.py:216-229 | one pass visits the rows in order, and each row's entries in order |
| Cover.Search | kmap.py:215-229 | the search: `__find_all8`, then the size-4, size-2 and size-1 passes, each starting from the previous one's `taken` |
| Cover.ShapedHasCell | kmap.py:172-209 | every region of a template's shape covers at least one cell |
| Cover.CoveredPrefix | kmap.py:153-164 | adding regions never uncovers a cell |
| Cover.CoveredMember | kmap.py:153-164 | a covered cell is a cell of some taken region |
| Cover.CoveredAppend | kmap.py:153-164 | adding a region covers exactly its cells in addition |
| Cover.CoveredContains | kmap.py:153-164 | every taken region's cells are covered |
| Cover.SoundCovered | kmap.py:166-170 | if every taken region is all ones, only 1-cells are covered |
| Cover.SoundShaped | kmap.py:172-209 | every region of a sound cover spans 1, 2 or 4 rows by 1, 2 or 4 entries |
| Cover.AddIfOnesSound | kmap.py:181-183 | the size-8 acceptance keeps every region all ones |
| Cover.AddAllIfOnesKeeps | kmap.py:172-183 | the size-8 pass only appends, keeps every region all ones, and ends holding exactly the old regions plus the all-ones templates |
| Cover.Find8Accepts | kmap.py:172-183 | a size-8 template is taken exactly when it was already taken or is all ones, covered or not |
| Cover.AnchorAlone | kmap.py:207-209 | the size-1 candidate at a 1-cell covers that cell and is all ones |
| Cover.TryAddKeeps | kmap.py:193-209 | an accepted candidate is all ones and was not covered before; nothing else is added |
| Cover.TryAddAllKeeps | kmap.py:185-209 | the same for all candidates of one anchor |
| Cover.VisitKeeps | kmap.py:215-229 | the same for one visit of a pass |
| Cover.RowKeeps | kmap.py:215-229 | the same for part of a row |
| Cover.RowsKeeps | kmap.py:215-229 | the same for a whole pass |
| Cover.SearchKeeps | kmap.py:215-229 | the search only appends, keeps every region all ones, and every region after the size-8 pass was not covered when added |
| Cover.SearchIrredundant | kmap.py:185-209 | every region the size-4, 2 and 1 passes add is all ones and was not already covered by the regions before it, the first region included |
| Cover.VisitOneCovers | kmap.py:207-209 | the size-1 pass at a 1-cell leaves that cell covered |
| Cover.OnesRowCovers | kmap.py:225-229 | a 1-cell visited by the size-1 pass stays covered for the rest of its row |
| Cover.OnesRowsCovers | kmap.py:225-229 | a 1-cell visited by the size-1 pass stays covered for the rest of the pass |
| Cover.VisitGrows | kmap.py:215-229 | a visit only appends and never uncovers a cell |
| Cover.RowGrows | kmap.py:215-229 | a row of a pass only appends |
| Cover.TryAddAllGrows | kmap.py:185-209 | trying candidates only appends |
| Cover.RowsGrow | kmap.py:215-229 | more rows of a pass only append |
| Cover.SearchCoversOnes | kmap.py:211-229 | after the search every region is all ones and the covered cells are exactly the 1-cells |
| Cover.TryAddAllComplete | kmap.py:185-209 | once every 1-cell is covered, no candidate is accepted |
| Cover.VisitComplete | kmap.py:215-229 | once every 1-cell is covered, a visit changes nothing |
| Cover.RowComplete | kmap.py:215-229 | the same for part of a row |
| Cover.RowsComplete | kmap.py:215-229 | the same for a whole pass |
| Cover.AddAllIfOnesPresent | kmap.py:172-183 | the size-8 pass changes nothing when its all-ones templates are already taken |
| Cover.SearchIdempotent | kmap.py:211-229 | searching again from the search's result gives the same `taken` |
| Terms.Sum | kmap.py:248 | `sum(int(i) for i in t)` over a string of binary digits |
| Terms.SumCounts | kmap.py:247-248 | the digit sum of a column counts its ones: it equals the length exactly when all digits are 1, and is 0 exactly when all are 0 |
| Terms.SimplifyTerms | kmap.py:247-254 | a column collapses to `1` when all its digits are 1, to `0` when all are 0, and to `-` when both occur |
| Terms.CollapseIsPattern | kmap.py:240-243 | mapping the collapse over the labels of a region gives, position by position, the pattern of the set of those labels |
| Terms.PatternMatchesLabels | kmap.py:240-243 | a region's pattern matches each of its own labels |
| Terms.MatchesConstant | kmap.py:247-254 | a pattern without `-` matches only itself |
| Terms.PatternSingleton | kmap.py:247-254 | the pattern of one label is that label |
| Terms.PatternPair | kmap.py:247-254 | the pattern of two labels one bit apart matches only those two labels |
| Terms.PatternProduct | kmap.py:247-254 | the pattern of all concatenations of row codes with entry codes is the row pattern followed by the entry pattern |
| Terms.PatternProductLeft | kmap.py:247-254 | the first half of that pattern is the row pattern |
| Terms.PatternProductRight | kmap.py:247-254 | the second half of that pattern is the entry pattern |
| Terms.ProductLeft | kmap.py:247-254 | a row position is constant over the concatenations exactly when it is constant over the row codes |
| Terms.ProductRight | kmap.py:247-254 | an entry position is constant over the concatenations exactly when it is constant over the entry codes |
| Terms.MatchesConcat | kmap.py:247-254 | a concatenated pattern matches a concatenated label exactly when both halves match |
| Terms.Collapse | kmap.py:242 | `map(self.__simplify_terms, *terms)`: position `i` of the result is `__simplify_terms` of the `i`-th digits of all the labels |
| Terms.Literal | kmap.py:146 | the lookup `{"-": "", "0": f"{v}'", "1": v}` for one digit and one name |
| Terms.BinaryToVars | kmap.py:143-151 | `__binary_to_vars`: `zip` of the pattern with the names, each position giving nothing for `-`, the name and `'` for `0`, the name for `1`, joined; `zip` stops at the shorter |
| Terms.Join | kmap.py:245 | `sep.join`: the terms in order with `sep` between neighbours, `""` for no terms |
| Terms.SplitTerms | kmap.py:245 | the inverse reading of `" + ".join`: the string cut at each separator |
| Terms.JoinSplits | kmap.py:245 | cutting a `" + "`-join of one or more space-free terms gives back exactly those terms, in order |
| Terms.TermHasNoSpace | kmap.py:143-151 | a term written from names without spaces holds no space |
| Terms.TermStart | kmap.py:143-151 | a term starts with one of the variable names, or is empty |
| Terms.BinaryToVarsRoundTrip | kmap.py:143-151 | with distinct one-letter names other than `'`, the term `__binary_to_vars` writes reads back to the pattern: the name for `1`, the name and `'` for `0`, nothing for `-` |
| KMaps.Validate | kmap.py:89-96 | the checks in order: `MultiCharVarError` exactly when some name is longer than one character; then `TooGreatMintermError` when a minterm is at least `2**n`; then `TooManyMintermsError` when there are more than `2**n` entries, duplicates included; then `InvalidVarNumber` unless `n` is 2, 3 or 4; no error exactly when all four pass |
| KMaps.ConstructionError | kmap.py:88-141 | the exception `KMap(...)` raises: the first failing validation; else `IndexError` from `flatten_map[minterm]` for a minterm below `-2**n`; else `IndexError` from the row swap of the empty `map_prototype` when four variables meet a constant function; else none |
| KMaps.AllSet | kmap.py:112 | `all(flatten_map)`: every position is non-zero |
| KMaps.NoneSet | kmap.py:116 | `all(map(lambda i: not i, flatten_map))`: every position is zero |
| KMaps.ValidationExamples | kmap.py:89-96 | an empty name and a negative minterm pass; duplicates count; the name check comes first |
| KMaps.ConstantFourRaises | kmap.py:124-141 | with four variables and no minterms the constructor raises `IndexError` |
| KMaps.Chunk | kmap.py:106-108 | the slicing loop produces the rows of `row_size` entries |
| KMaps.KMap.constructor | kmap.py:98-129 | sizes, the value grid, `simplified` and `taken` for constant functions, and the label grid only for a non-constant one |
| KMaps.KMap.GrayifyMaps | kmap.py:133-141 | both grids receive the same swaps; it raises exactly when four variables meet the empty label grid |
| KMaps.KMap.GrayifyMapsGuarded | kmap.py:133-141 | the swaps with the empty label grid left alone |
| KMaps.KMap.IsTaken | kmap.py:153-164 | `_is_taken` returns whether `taken` is non-empty and covers all of the region's cells |
| KMaps.KMap.AreAll1 | kmap.py:166-170 | `_are_all1` returns whether every raw cell of the region holds a 1 |
| KMaps.KMap.AddUntaken | kmap.py:193-195 | a candidate is added when all ones and not covered, at most once |
| KMaps.KMap.FindAll8 | kmap.py:172-183 | `__find_all8` takes the size-8 templates that are all ones, without a covering test |
| KMaps.KMap.FindAll4 | kmap.py:185-195 | `__find_all4` tries the two anchored templates and, on a 4-row grid, the fixed `Coordinates(0, 0, 3, 0)` |
| KMaps.KMap.FindAll2 | kmap.py:197-205 | `__find_all2` tries the two anchored size-2 templates |
| KMaps.KMap.FindAll1 | kmap.py:207-209 | `__find_all1` tries the anchor itself |
| KMaps.KMap.FindAt | kmap.py:217-219 | one iteration of a pass's nested loop: only a 1-cell anchors candidates |
| KMaps.KMap.VisitAt | kmap.py:217-219 | one iteration of the inner loop: the visit the pass function prescribes, which does nothing at a 0-cell |
| KMaps.KMap.SweepRowAt | kmap.py:217-219 | the inner loop over one row computes that row of the pass |
| KMaps.KMap.Sweep | kmap.py:215-229 | one nested loop of `simplify` computes the pass, row by row |
| KMaps.KMap.RegionTerm | kmap.py:236-243 | the term of one region is `__binary_to_vars` of the collapse of its labels |
| KMaps.KMap.LabelsOf | kmap.py:238-240 | the labels read cell by cell are exactly the labels of the region's cells, each an `n`-digit numeral, and there is one exactly when the region has a cell |
| KMaps.KMap.TakeAll | kmap.py:215-229 | the four passes extend `taken` to the search's result and keep the invariant |
| KMaps.RegionLabels | kmap.py:236-239 | the labels `map_prototype[point.x][point.y]` read for the points of one taken region |
| KMaps.Term | kmap.py:237-243 | the term `simplify` appends for one region: `__binary_to_vars` of the column-wise collapse of the region's labels, here through the pattern of the set of labels, which `Terms.CollapseIsPattern` shows equal |
| KMaps.TermList | kmap.py:236-243 | the list `simplified` before the join: one term per taken region, in the order of `taken` |
| KMaps.Expression | kmap.py:234-245 | `simplified`: the terms of the taken regions, one per region in order, joined with `" + "` |
| KMaps.ExpressionSplits | kmap.py:234-245 | with no space in any name, the expression of a non-empty cover cuts back into exactly the list of its regions' terms |
| KMaps.KMap.Synthesize | kmap.py:234-245 | `simplified` becomes the join with `" + "` of one term per taken region |
| KMaps.KMap.Simplify | kmap.py:211-245 | nothing changes once `simplified` is set; otherwise `taken` becomes the search's result, which covers exactly the 1-cells, and unless `just_take` the expression is written |
| KMaps.NewKMap | kmap.py:88-131 | the constructor raises exactly the error `ConstructionError` names; a built map satisfies the invariant, with `"0"` / `"1"` for constant functions and an empty `taken` otherwise |
| KMaps.NewKMapGuarded | kmap.py:88-131 | with the guarded swap, construction raises only what validation and marking raise |
| KMaps.Build | kmap.py:98-141 | after validation and marking: it raises `IndexError` exactly for a constant function of four variables; otherwise the built map satisfies the invariant |
| KMaps.BuildGuarded | kmap.py:98-141 | with the guarded swap, every validated and marked function builds a map that satisfies the invariant |
| KMaps.BuiltValid | kmap.py:98-131 | the constructed state satisfies the class invariant |
| KMaps.ValueGridShape | kmap.py:106-141 | `map_` has `column_size` rows of `row_size` entries |
| KMaps.LabelGridFits | kmap.py:119-141 | `map_prototype` has the shape of `map_`, and every label is an `n`-digit numeral |
| Correctness.CodeInjective | kmap.py:121-141 | distinct positions of a dimension have distinct Gray codes |
| Correctness.PointsProduct | kmap.py:37-47 | a region's reduced cells are its reduced rows times its reduced entries |
| Correctness.SpanFull | kmap.py:45-47 | a window of at least `m` consecutive positions reaches every position modulo `m` |
| Correctness.SpanTwo | kmap.py:45-47 | two consecutive positions reduce to a position and its successor |
| Correctness.DimensionExact | kmap.py:133-141 | along one dimension, the pattern of the codes of 1, 2 or 4 consecutive positions matches a position's code only when the position is among them |
| Correctness.RegionProduct | kmap.py:236-240 | a region's labels are all concatenations of its row codes with its entry codes |
| Correctness.LabelOfCell | kmap.py:236-240 | a covered cell's label is its row code followed by its entry code |
| Correctness.CellOfCodes | kmap.py:236-240 | every such concatenation is the label of a covered cell |
| Correctness.ShapedExact | kmap.py:236-243 | the term of a 1/2/4 by 1/2/4 region matches a cell's label only when the region covers the cell |
| Correctness.CoverExact | kmap.py:211-245 | with a sound cover of exactly the 1-cells, a cell's label matches some region's pattern exactly when the cell holds a 1 |
| Correctness.MapDenotes | kmap.py:211-245 | after `simplify`, a cell's label matches some region's term exactly when the number the label spells is a minterm |
| Correctness.TermsDenote | kmap.py:143-151 | the same, read back from the strings `simplify` writes, for distinct one-letter names |
| Correctness.AssignmentDenotes | kmap.py:100-245 | for every assignment `a < 2**n` of the variables, written as an `n`-bit numeral, some region's pattern matches it exactly when some minterm equals `a` modulo `2**n` |
| Correctness.CoverNonEmpty | kmap.py:211-229 | for a function that is not constantly 0, the search takes at least one region |
| Correctness.ReadBack | kmap.py:234-245 | cutting `simplified` at `" + "` gives one string per taken region, and each reads back to that region's pattern |
| Correctness.ExpressionDenotes | kmap.py:211-245 | the theorem on the string itself: cutting `simplified` and reading each term back, some term matches assignment `a` exactly when `a` is a minterm modulo `2**n` |

## Left out

- The `__main__` block (kmap.py:257-266) is left out: it is console input and output.
- The `__hash__` methods of `Point` and `Coordinates` (kmap.py:19-20, 62-68) are left out. The model uses value equality.
- The iteration order of the `taken` set is left out. It follows the hashes, so the order of the terms in `simplified` is not modelled. The model lists the regions in insertion order, and properties of the expression are stated per term.
- The exception classes (kmap.py:71-84) become the constructors of one datatype.
- `ToPoints` requires positive moduli. The source never passes anything else, and a zero modulus would raise `ZeroDivisionError`, which is not modelled.
- Type errors are left out: a non-`Coordinates` operand of `__add__`, and non-integer minterms.
- Empty regions are left out. `map(self.__simplify_terms, *terms)` with no terms would raise `TypeError`. Every region `simplify` builds has at least one cell, and `KMap.RegionTerm` requires such a region.
- The region `Coordinates(0, 0, row_size, column_size)` taken for the constant-1 function is kept as written, although its corner `(row_size, column_size)` names the extents in the other order, so that it falls outside the grid's rows for two and three variables; since `simplify` returns early for it, it is never expanded into cells or terms, and no cover property is claimed for it.

## Findings

| source | as written | input that shows it | evidently intended | confidence | as-written member | corrected member |
|---|---|---|---|---|---|---|
| kmap.py:124-141 | `__grayify_maps` swaps rows 2 and 3 of `map_prototype` even when the function is constant and `map_prototype` is left empty, so `map_prototype[3]` on an empty `CycleList` raises `IndexError` | `KMap([], "abcd")` or `KMap(list(range(16)), "abcd")` | a constant function of four variables builds like one of two or three variables, with `simplified` `"0"` or `"1"` | not executed | KMaps.ConstantFourRaises | KMaps.NewKMapGuarded |

/** The per-class area table of the LULC tool: for each requested class, the
    number of grid cells holding it and the area they cover. */
module AreaStats {
  import opened Rounding

  /** The clipped land-cover raster as read into memory: rows of class codes.
      Cells outside the clip boundary hold 0, the raster's no-data value. */
  type Grid = seq<seq<int>>

  /** Square metres in a square kilometre. */
  const SquareMetresPerKm2: real := 1000000.0

  /** One row of the table: `{"Class", "Pixel_Count", "Area_km2"}`. */
  datatype AreaRecord = AreaRecord(classValue: int, pixelCount: nat, areaKm2: real)

  /** The number of cells in the grid. */
  function CellCount(grid: Grid): nat {
    if grid == [] then 0 else |grid[0]| + CellCount(grid[1..])
  }

  /** The number of cells of `row` equal to `v`. */
  function CountIn(row: seq<int>, v: int): (n: nat)
    ensures n <= |row|
    ensures n == 0 <==> v !in row
  {
    if row == [] then 0
    else (if row[0] == v then 1 else 0) + CountIn(row[1..], v)
  }

  /** `np.sum(raster_array == v)`: the number of cells of the grid equal to
      `v`, at most every cell. */
  function CountEq(grid: Grid, v: int): (n: nat)
    ensures n <= CellCount(grid)
  {
    if grid == [] then 0 else CountIn(grid[0], v) + CountEq(grid[1..], v)
  }

  /** A class counts 0 cells exactly when no row holds it. */
  lemma {:induction false} CountEqZero(grid: Grid, v: int)
    ensures CountEq(grid, v) == 0 <==> forall i :: 0 <= i < |grid| ==> v !in grid[i]
  {
    if grid != [] {
      CountEqZero(grid[1..], v);
      assert forall i :: 1 <= i < |grid| ==> grid[i] == grid[1..][i - 1];
    }
  }

  /** The number of cells of `row` whose value is in `classes`. */
  function MembersIn(row: seq<int>, classes: set<int>): (n: nat)
    ensures n <= |row|
  {
    if row == [] then 0
    else (if row[0] in classes then 1 else 0) + MembersIn(row[1..], classes)
  }

  /** The number of cells of the grid whose value is in `classes`. */
  function Members(grid: Grid, classes: set<int>): (n: nat)
    ensures n <= CellCount(grid)
  {
    if grid == [] then 0 else MembersIn(grid[0], classes) + Members(grid[1..], classes)
  }

  /** Adding a class not yet in the set adds exactly its own cells. */
  lemma {:induction false} MembersInAdd(row: seq<int>, v: int, classes: set<int>)
    requires v !in classes
    ensures MembersIn(row, classes + {v}) == CountIn(row, v) + MembersIn(row, classes)
  {
    if row != [] {
      MembersInAdd(row[1..], v, classes);
    }
  }

  lemma {:induction false} MembersAdd(grid: Grid, v: int, classes: set<int>)
    requires v !in classes
    ensures Members(grid, classes + {v}) == CountEq(grid, v) + Members(grid, classes)
  {
    if grid != [] {
      MembersInAdd(grid[0], v, classes);
      MembersAdd(grid[1..], v, classes);
    }
  }

  /** When every cell's value is in the set, every cell is counted. */
  lemma {:induction false} MembersCoverAll(grid: Grid, classes: set<int>)
    requires forall i, j :: 0 <= i < |grid| && 0 <= j < |grid[i]| ==> grid[i][j] in classes
    ensures Members(grid, classes) == CellCount(grid)
  {
    if grid != [] {
      MembersInCoverAll(grid[0], classes);
      MembersCoverAll(grid[1..], classes);
    }
  }

  lemma {:induction false} MembersInCoverAll(row: seq<int>, classes: set<int>)
    requires forall j :: 0 <= j < |row| ==> row[j] in classes
    ensures MembersIn(row, classes) == |row|
  {
    if row != [] {
      MembersInCoverAll(row[1..], classes);
    }
  }

  /** Lines 156-157 before rounding: the ground area of `count` square cells
      of side `pixelSize` metres, in square kilometres (over exact reals,
      `count * pixelSize²` is the same product however it is grouped). */
  function AreaKm2(count: nat, pixelSize: real): real {
    count as real * pixelSize * pixelSize / SquareMetresPerKm2
  }

  /** The sign of a product from the signs of its factors. */
  lemma ProductSign(a: real, b: real)
    ensures (0.0 <= a && 0.0 <= b) || (a <= 0.0 && b <= 0.0) ==> 0.0 <= a * b
    ensures (0.0 < a && 0.0 < b) || (a < 0.0 && b < 0.0) ==> 0.0 < a * b
  {
  }

  /** The unrounded area is never negative, grows with the cell count, and is
      0 exactly when there are no cells (for a non-zero pixel size). */
  lemma AreaKm2Spec(count: nat, more: nat, pixelSize: real)
    requires count <= more
    ensures 0.0 <= AreaKm2(count, pixelSize) <= AreaKm2(more, pixelSize)
    ensures count == 0 ==> AreaKm2(count, pixelSize) == 0.0
    ensures pixelSize != 0.0 ==> (AreaKm2(count, pixelSize) == 0.0 <==> count == 0)
  {
    ProductSign(count as real * pixelSize, pixelSize);
    ProductSign((more - count) as real * pixelSize, pixelSize);
    assert more as real * pixelSize * pixelSize
        == count as real * pixelSize * pixelSize + (more - count) as real * pixelSize * pixelSize;
  }

  /** `table` is what the loop of lines 153-162 builds: one record per
      requested class, in request order, each echoing its class, counting the
      grid cells equal to it and giving their area rounded to 4 decimals. */
  ghost predicate IsAreaTable(table: seq<AreaRecord>, grid: Grid, classValues: seq<int>, pixelSize: real) {
    |table| == |classValues|
    && forall i :: 0 <= i < |table| ==>
         table[i].classValue == classValues[i]
         && table[i].pixelCount == CountEq(grid, classValues[i])
         && table[i].areaKm2 == Round4(AreaKm2(table[i].pixelCount, pixelSize))
  }

  /** Lines 153-162: the area table, built by appending one record per
      requested class. The grid is a value, so counting leaves it as it was. */
  method Aggregate(grid: Grid, classValues: seq<int>, pixelSize: real) returns (result: seq<AreaRecord>)
    ensures IsAreaTable(result, grid, classValues, pixelSize)
  {
    result := [];
    for i := 0 to |classValues|
      invariant IsAreaTable(result, grid, classValues[..i], pixelSize)
    {
      var classValue := classValues[i];
      var pixelCount := CountEq(grid, classValue);
      var areaKm2 := AreaKm2(pixelCount, pixelSize);
      result := result + [AreaRecord(classValue, pixelCount, Round4(areaKm2))];
    }
    assert classValues[..|classValues|] == classValues;
  }

  /** Every record of an area table: its count is between 0 and the number of
      cells, it is 0 exactly when the class is absent from the grid, and then
      its area is 0 too; a requested class repeated in the list gets
      identical records. */
  lemma AreaTableRecords(table: seq<AreaRecord>, grid: Grid, classValues: seq<int>, pixelSize: real, i: nat, j: nat)
    requires IsAreaTable(table, grid, classValues, pixelSize)
    requires i < |table| && j < |table|
    ensures table[i].pixelCount <= CellCount(grid)
    ensures table[i].pixelCount == 0 <==> forall r :: 0 <= r < |grid| ==> classValues[i] !in grid[r]
    ensures table[i].pixelCount == 0 ==> table[i].areaKm2 == 0.0
    ensures classValues[i] == classValues[j] ==> table[i] == table[j]
  {
    CountEqZero(grid, classValues[i]);
    Round4Spec(0.0, 0.0);
    AreaKm2Spec(0, 0, pixelSize);
  }

  /** Area grows with the pixel count: a record with more pixels never shows
      a smaller rounded area. */
  lemma AreaTableMonotone(table: seq<AreaRecord>, grid: Grid, classValues: seq<int>, pixelSize: real, i: nat, j: nat)
    requires IsAreaTable(table, grid, classValues, pixelSize)
    requires i < |table| && j < |table|
    requires table[i].pixelCount <= table[j].pixelCount
    ensures table[i].areaKm2 <= table[j].areaKm2
  {
    AreaKm2Spec(table[i].pixelCount, table[j].pixelCount, pixelSize);
    Round4Spec(AreaKm2(table[i].pixelCount, pixelSize), AreaKm2(table[j].pixelCount, pixelSize));
  }

  /** True when no class is requested twice. */
  predicate Distinct(classValues: seq<int>) {
    forall i, j :: 0 <= i < j < |classValues| ==> classValues[i] != classValues[j]
  }

  /** The sum of the pixel counts of a table. */
  function PixelTotal(table: seq<AreaRecord>): nat {
    if table == [] then 0 else table[0].pixelCount + PixelTotal(table[1..])
  }

  /** For pairwise-distinct requested classes, the pixel counts add up to the
      number of cells holding one of those classes: never more than the
      cells of the grid, and all of them when every value in the grid was
      requested. */
  lemma {:induction false} AreaTableTotal(table: seq<AreaRecord>, grid: Grid, classValues: seq<int>, pixelSize: real)
    requires IsAreaTable(table, grid, classValues, pixelSize)
    requires Distinct(classValues)
    ensures PixelTotal(table) == Members(grid, set v | v in classValues)
    ensures PixelTotal(table) <= CellCount(grid)
    ensures (forall i, j :: 0 <= i < |grid| && 0 <= j < |grid[i]| ==> grid[i][j] in classValues) ==>
              PixelTotal(table) == CellCount(grid)
  {
    var classes := set v | v in classValues;
    if classValues == [] {
      assert classes == {};
      EmptyMembers(grid);
    } else {
      var rest := classValues[1..];
      assert IsAreaTable(table[1..], grid, rest, pixelSize);
      AreaTableTotal(table[1..], grid, rest, pixelSize);
      var restClasses := set v | v in rest;
      assert classes == restClasses + {classValues[0]};
      assert classValues[0] !in restClasses;
      MembersAdd(grid, classValues[0], restClasses);
    }
    if forall i, j :: 0 <= i < |grid| && 0 <= j < |grid[i]| ==> grid[i][j] in classValues {
      MembersCoverAll(grid, classes);
    }
  }

  lemma {:induction false} EmptyMembers(grid: Grid)
    ensures Members(grid, {}) == 0
  {
    if grid != [] {
      EmptyMembersIn(grid[0]);
      EmptyMembers(grid[1..]);
    }
  }

  lemma {:induction false} EmptyMembersIn(row: seq<int>)
    ensures MembersIn(row, {}) == 0
  {
    if row != [] {
      EmptyMembersIn(row[1..]);
    }
  }

  /** A class present in one cell of 1 m resolution covers 0.000001 km², which
      `round(…, 4)` reports as 0.0: after rounding, a zero area no longer means
      an absent class. */
  lemma RoundedAreaMayVanish()
    ensures AreaKm2(1, 1.0) > 0.0 && Round4(AreaKm2(1, 1.0)) == 0.0
  {
    RoundHalfEvenUnique(AreaKm2(1, 1.0) * Scale, 0);
  }

  lemma ExampleCounts()
    ensures CountEq([[1, 1, 2], [2, 2, 0]], 1) == 2
    ensures CountEq([[1, 1, 2], [2, 2, 0]], 2) == 3
  {
    var g: Grid := [[1, 1, 2], [2, 2, 0]];
    assert g[1..] == [[2, 2, 0]] && g[1..][1..] == [];
    assert g[0][1..] == [1, 2] && g[0][1..][1..] == [2] && g[0][1..][1..][1..] == [];
    assert g[1][1..] == [2, 0] && g[1][1..][1..] == [0] && g[1][1..][1..][1..] == [];
  }

  lemma ExampleAreas()
    ensures Round4(AreaKm2(2, 10.0)) == 0.0002
    ensures Round4(AreaKm2(3, 10.0)) == 0.0003
  {
    RoundHalfEvenUnique(AreaKm2(2, 10.0) * Scale, 2);
    RoundHalfEvenUnique(AreaKm2(3, 10.0) * Scale, 3);
  }

  /** The 10 m grid [[1, 1, 2], [2, 2, 0]] with classes 1 and 2 requested:
      two cells (0.0002 km²) of class 1, three (0.0003 km²) of class 2. */
  lemma ExampleTable(table: seq<AreaRecord>)
    requires IsAreaTable(table, [[1, 1, 2], [2, 2, 0]], [1, 2], 10.0)
    ensures table == [AreaRecord(1, 2, 0.0002), AreaRecord(2, 3, 0.0003)]
  {
    ExampleCounts();
    ExampleAreas();
  }
}

# LULC class-area aggregation, modelled in Dafny

The LULC Area Calculator is an ArcGIS Pro toolbox tool. It projects a
land-use/land-cover raster, clips it to a boundary, and writes a table of the
area each land-cover class covers. Everything except one step is a call into
the ArcGIS engine, pandas or matplotlib. That one step, inside `Tool.execute`
in `Mizbah_code.py`, is modelled here:

1. **Class-list parsing and check** (lines 120-122). The comma-separated class
   text is split on `,`. Each field is stripped of whitespace, blank fields
   are dropped, and the rest go through Python's `int()`. The tool raises
   `ValueError` if a field is not an integer literal, or if the number of
   values differs from the declared number of classes.
2. **Per-class counting** (lines 153-162). For each requested class, in
   request order, the tool counts the cells of the clipped raster equal to it
   (`np.sum(raster_array == class_val)`). It appends a record
   `{Class, Pixel_Count, Area_km2}` with
   `Area_km2 = round(count * pixel_size**2 / 1e6, 4)`.

Modules, one per concern:

- `outcomes.dfy` (`Outcomes`): the `Result` type and the two errors the step
  raises (`InvalidLiteral`, `ClassCountMismatch`).
- `pytext.dfy` (`PyText`): Python's `str.split(',')` and `str.strip()`. The
  whitespace set is exactly that of `str.isspace()`.
- `int_literal.dfy` (`IntLiteral`): Python's `int()` on a base-10 literal.
  This is an optional sign and ASCII digits, with single underscores allowed
  between digits. It comes with `str()` for integers as its inverse.
- `class_list.dfy` (`ClassList`): the list comprehension of line 120 and the
  count check of lines 121-122.
- `rounding.dfy` (`Rounding`): `round(x, 4)`, to the nearest ten-thousandth,
  ties to even. The area is a NumPy `float64` (the count from `np.sum` is a
  NumPy integer), so this is NumPy's rounding, not that of Python's `float`.
- `area_stats.dfy` (`AreaStats`): the cell count, the area, and the loop that
  builds the table (`Aggregate`, a method with a loop invariant).
- `lulc_tool.dfy` (`LulcTool`): lines 120-162 end to end (`Execute`).

The clipped raster is an input here (`Grid`, rows of class codes). The clip
sets cells outside the boundary to 0 (line 145), so a requested class 0
counts those no-data cells.

Where the code is the authority, the model follows the code:

- Duplicate class values are not rejected. They yield identical records
  (`AreaStats.AreaTableRecords`).
- A zero or negative pixel size is not rejected. The area depends only on its
  square.
- The declared count is compared with the number of non-blank fields. Blank
  fields are dropped before the count check, so `"1,,2"` satisfies a declared
  count of 2.
- After rounding, a zero area does not mean the class is absent. One 1 m
  cell covers 0.000001 km², which rounds to 0.0
  (`AreaStats.RoundedAreaMayVanish`). Before rounding, the area is 0 exactly
  when the count is 0 (`AreaStats.AreaKm2Spec`).

## Model

| member | source | states |
|---|---|---|
| `PyText.Split` | Mizbah_code.py:120 | `s.split(',')` gives at least one field, no field contains a comma, and joining the fields with commas gives back `s` |
| `PyText.SplitJoin` | Mizbah_code.py:120 | splitting a comma-join of comma-free fields gives back those fields, so `Split` and `Join` are inverses |
| `PyText.LeadingSpaces` | Mizbah_code.py:120 | the index where `strip()` starts: everything before it is whitespace, and the character at it (if any) is not |
| `PyText.TrailingStart` | Mizbah_code.py:120 | the index where `strip()` ends: everything from it on is whitespace, and the character before it (if any) is not |
| `PyText.Strip` | Mizbah_code.py:120 | `x.strip()`, the text between `LeadingSpaces` and `TrailingStart`; no contract of its own: its properties are stated by `StripSlice`, `StripSpec`, `StripIdempotent` and `StripUnchanged` |
| `PyText.StripSlice` | Mizbah_code.py:120 | `x.strip()` is a contiguous middle part of `x`, and only whitespace lies before and after it |
| `PyText.StripSpec` | Mizbah_code.py:120 | `x.strip()` neither starts nor ends with whitespace, and it is empty exactly when `x` is all whitespace |
| `PyText.StripIdempotent` | Mizbah_code.py:120 | stripping twice equals stripping once |
| `PyText.StripUnchanged` | Mizbah_code.py:120 | a string that neither starts nor ends with whitespace is its own strip |
| `IntLiteral.ParseInt` | Mizbah_code.py:120 | `int(t)` fails with an error naming `t`; a literal it accepts is non-empty, ends in a digit, and holds only digits, `_`, `+` and `-` |
| `IntLiteral.Digits` | Mizbah_code.py:120 | the decimal digits of `n` are a valid digit run whose value is `n`, with no leading zero |
| `IntLiteral.ParseFormat` | Mizbah_code.py:120 | `int(str(n)) == n` for every integer `n` |
| `IntLiteral.ParseIntLeadingZeros` | Mizbah_code.py:120 | `int("007") == 7`: leading zeros are accepted |
| `IntLiteral.ParseIntSigned` | Mizbah_code.py:120 | `int("-12") == -12` and `int("+3") == 3` |
| `IntLiteral.ParseIntGrouped` | Mizbah_code.py:120 | `int("1_000") == 1000`: single underscores between digits are accepted |
| `IntLiteral.ParseIntRejects` | Mizbah_code.py:120 | `int()` refuses "1__0", "_1", "1_", "", "-", "1 2" and "x", the last with an error naming "x" |
| `ClassList.Kept` | Mizbah_code.py:120 | the comprehension keeps at most as many fields as the split produced |
| `ClassList.KeptAppend` | Mizbah_code.py:120 | the filter works field by field: the kept fields of `a + b` are those of `a` followed by those of `b` |
| `ClassList.KeptSingle` | Mizbah_code.py:120 | one field is dropped if it is all whitespace, and otherwise kept as its stripped text |
| `ClassList.ParseAll` | Mizbah_code.py:120 | on success there is one value per kept field, in order, each the value `int()` gives that field |
| `ClassList.ParseAllFailure` | Mizbah_code.py:120 | on failure the error names the first field `int()` refuses and every earlier field parses; no partial list comes out |
| `ClassList.KeptPlain` | Mizbah_code.py:120 | fields without surrounding whitespace are all kept, unchanged |
| `ClassList.ParseClassValues` | Mizbah_code.py:120 | the comprehension `[int(x.strip()) for x in s.split(',') if x.strip()]`; no contract of its own: its properties are stated by `ParseAll`, `ParseAllFailure`, `ParseAndCheck`, `BlankFieldDropped`, `TrailingSepDropped` and the examples |
| `ClassList.ParseAndCheck` | Mizbah_code.py:120-122 | succeeds exactly when every non-blank field is an integer literal and there are `numClasses` of them; the result then holds those values in order; if all fields parse but their number differs, the error is `ClassCountMismatch(numClasses, number of fields)`; an `InvalidLiteral` error names the first field that `int()` refuses |
| `ClassList.SplitAtSep` | Mizbah_code.py:120 | a comma divides the text into the fields of the part before it followed by the fields of the part after it |
| `ClassList.BlankFieldDropped` | Mizbah_code.py:120 | a whitespace-only field between two commas (as in "1,,2" or "1, ,2") is dropped, not refused |
| `ClassList.TrailingSepDropped` | Mizbah_code.py:120 | a trailing comma does not change the parsed list |
| `ClassList.ExampleBlankList` | Mizbah_code.py:120-122 | " , " parses to the empty list; a declared count of 0 accepts it, and every other count fails with `ClassCountMismatch(n, 0)` |
| `ClassList.ExampleInvalidField` | Mizbah_code.py:120 | "1,x,y" fails, naming the first bad field "x" |
| `ClassList.ExampleCountMismatch` | Mizbah_code.py:121-122 | "1,2" with 3 classes declared fails with `ClassCountMismatch(3, 2)` |
| `Rounding.RoundHalfEven` | Mizbah_code.py:161 | the result is within 1/2 of `y`, and a tie goes to the even integer |
| `Rounding.RoundHalfEvenUnique` | Mizbah_code.py:161 | only one integer meets `RoundHalfEven`'s contract |
| `Rounding.RoundHalfEvenMonotone` | Mizbah_code.py:161 | rounding preserves order |
| `Rounding.Round4` | Mizbah_code.py:161 | `round(x, 4)` is within 0.00005 of `x` |
| `Rounding.Round4Spec` | Mizbah_code.py:161 | `round(x, 4)` is a whole number of ten-thousandths, preserves order, and maps 0 to 0 |
| `AreaStats.CountIn` | Mizbah_code.py:155 | the number of cells of a row equal to `v` is at most the row's length, and 0 exactly when `v` is not in the row |
| `AreaStats.CountEq` | Mizbah_code.py:155 | `np.sum(raster_array == v)` is at most the number of cells |
| `AreaStats.CountEqZero` | Mizbah_code.py:155 | the count is 0 exactly when no row holds the class |
| `AreaStats.MembersAdd` | Mizbah_code.py:154-155 | adding a new class to a set of classes adds exactly that class's count to the number of cells in the set |
| `AreaStats.MembersCoverAll` | Mizbah_code.py:154-155 | when every cell's value is in the set, every cell is counted |
| `AreaStats.AreaKm2` | Mizbah_code.py:156-157 | `count * pixel_size**2 / 1e6`; no contract of its own: its properties are stated by `AreaKm2Spec` |
| `AreaStats.AreaKm2Spec` | Mizbah_code.py:156-157 | the unrounded area is never negative, never decreases as the count grows, is 0 for a count of 0, and for a non-zero pixel size is 0 only then |
| `AreaStats.IsAreaTable` | Mizbah_code.py:153-162 | what the table must be: one record per requested class, in order, each with the class, its cell count and its rounded area; no contract of its own: it is the postcondition of `Aggregate`, and `AreaTableRecords`, `AreaTableMonotone` and `AreaTableTotal` state its consequences |
| `AreaStats.Aggregate` | Mizbah_code.py:153-162 | the loop returns one record per requested class, in request order; each echoes its class, counts the cells equal to it, and gives that count's area rounded to 4 decimals |
| `AreaStats.AreaTableRecords` | Mizbah_code.py:153-162 | in every record, 0 ≤ count ≤ cell count; the count is 0 exactly when the class is absent, and the area is then 0; a class requested twice gets two identical records |
| `AreaStats.AreaTableMonotone` | Mizbah_code.py:156-161 | a record with more pixels never shows a smaller rounded area |
| `AreaStats.AreaTableTotal` | Mizbah_code.py:153-155 | for pairwise-distinct classes, the pixel counts add up to the number of cells holding one of them; that sum is at most the cell count, and equals it when every value in the grid was requested |
| `AreaStats.RoundedAreaMayVanish` | Mizbah_code.py:156-161 | one cell of 1 m has a positive area that rounds to 0.0 km² |
| `AreaStats.ExampleTable` | Mizbah_code.py:153-162 | the 10 m grid [[1,1,2],[2,2,0]] with classes [1,2] gives [(1, 2, 0.0002), (2, 3, 0.0003)] |
| `LulcTool.Execute` | Mizbah_code.py:120-162 | a bad class list fails with the check's error, whatever the grid and pixel size (so it fails before any raster work); otherwise the result is the area table of the parsed classes, with `numClasses` records |

## Left out

- ArcGIS engine calls are left out because they are foreign, proprietary operations: projection and clipping (lines 127, 137-150), reading the raster into an array (line 150), polygon conversion, dissolve, field and cursor updates, and adding the layer to the map. The clipped raster is an input.
- Folder creation and output paths (lines 124-133), the CSV export (lines 164-166) and the bar chart are left out as I/O. `messages.addMessage` logging and `arcpy.env.overwriteOutput` are left out too.
- Reading the tool parameters as text and converting them with `int()` and `float()` (lines 111-118) is left out. `numClasses` and `pixelSize` are typed inputs.
- Toolbox and parameter declarations (lines 10-104) and the empty `updateParameters`/`updateMessages` hooks are host-UI boilerplate.
- Rounding.Round4: rounds the exact real value. NumPy's `round` on a `float64` multiplies the binary double by 10^4, rounds half to even and divides back, each step in binary floating point. Those steps, and the area computed in floating point, can differ from the exact values in their last bits, which can move a result that sits next to a tie.
- AreaStats.AreaKm2Spec: the area is computed over exact reals, not in binary floating point.
- IntLiteral.ParseInt: accepts ASCII digits only. Python's `int()` also accepts other Unicode decimal digits, and recent versions refuse literals longer than 4300 digits.
- AreaStats.CountEq: cells are unbounded integers. The raster's NumPy integer width, and how NumPy compares it with an out-of-range class value, are not modelled.
- LulcTool.Execute: the order of side effects is not modelled. "Fails before any raster work" is stated as the failure not depending on the grid or the pixel size.

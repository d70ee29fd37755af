/** The class-area step of the LULC Area Calculator tool (`Tool.execute`):
    parse and check the class list, then tabulate the area of each class in
    the clipped raster. */
module LulcTool {
  import opened Outcomes
  import opened ClassList
  import opened AreaStats

  /** Lines 120-162 of `Tool.execute`, with the clipped raster already read
      into `grid`. A class list that does not parse, or whose length is not
      `numClasses`, raises before anything else happens: the failure is the
      one the check reports and depends on neither the grid nor the pixel
      size. Otherwise the result is the area table of the parsed classes. */
  method Execute(classValuesText: string, numClasses: int, grid: Grid, pixelSize: real)
    returns (outcome: Result<seq<AreaRecord>>)
    ensures var checked := ParseAndCheck(classValuesText, numClasses);
      checked.Failure? ==> outcome == Failure(checked.error)
    ensures var checked := ParseAndCheck(classValuesText, numClasses);
      checked.Success? ==> outcome.Success? && IsAreaTable(outcome.value, grid, checked.value, pixelSize)
    ensures outcome.Success? ==> |outcome.value| == numClasses
  {
    var classValues := ParseAndCheck(classValuesText, numClasses);
    if classValues.Failure? {
      return Failure(classValues.error);
    }
    var result := Aggregate(grid, classValues.value, pixelSize);
    return Success(result);
  }
}

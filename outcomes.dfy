/** Success/failure values for the tool's fallible steps, and the two ways the
    class-area step of the LULC tool can fail. */
module Outcomes {

  /** What `Tool.execute` raises before it reaches the raster. */
  datatype ToolError =
    /** Python's `int()` raised `ValueError` on a class field (its stripped text). */
    | InvalidLiteral(text: string)
    /** The parsed class list and the declared number of classes differ. */
    | ClassCountMismatch(declared: int, parsed: nat)

  datatype Result<+T> = Success(value: T) | Failure(error: ToolError)
}

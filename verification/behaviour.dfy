/** Where the source does something its authors evidently did not mean,
    the operations concerned take a `Policy`: `AsWritten` follows the code
    line by line, `Intended` is the corrected behaviour the rest of the
    model relies on. */
module Behaviour {

  datatype Policy = AsWritten | Intended
}

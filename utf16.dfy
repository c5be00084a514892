/** JavaScript strings as the playground's code sees them. */
module Utf16 {

  /** A UTF-16 code unit. */
  type CodeUnit = bv16

  /** A JavaScript string: a sequence of UTF-16 code units, which is what `length` counts. */
  type Text = seq<CodeUnit>
}

/** UTF-16 code units, the alphabet of the document and of the text codec. */
module Units {
  type Unit = bv16
  type Text = seq<Unit>

  const NEWLINE: Unit := 0x0A

  /** Lower-cases `A`..`Z` and leaves every other code unit alone. */
  function FoldAscii(c: Unit): Unit {
    if 0x41 <= c <= 0x5A then c + 0x20 else c
  }
}

/** The 64 x 32 monochrome frame buffer. */
module DisplayGrid {

  const COLUMNS: nat := 64
  const ROWS: nat := 32

  datatype MonochromePixel = Black | White

  /** `pixels[row][column]`, row-major as `[[MonochromePixel; COLUMNS]; ROWS]`. */
  datatype Display = Display(pixels: seq<seq<MonochromePixel>>)
  {
    predicate Valid()
    {
      |pixels| == ROWS && forall row | 0 <= row < ROWS :: |pixels[row]| == COLUMNS
    }

    /** `Display::new`: a 32-row, 64-column grid with every pixel Black. */
    static function New(): (d: Display)
      ensures d.Valid()
      ensures forall row, column | 0 <= row < ROWS && 0 <= column < COLUMNS ::
        d.pixels[row][column] == Black
    {
      Display(seq(ROWS, _ => seq(COLUMNS, _ => Black)))
    }
  }
}

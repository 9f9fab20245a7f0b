/** The drawing surface the renderer writes on: a PIL `ImageDraw` over a fresh
    transparent RGBA image, seen as the list of `draw.text` calls made on it. */
module Drawing {

  /** A loaded font: its size in pixels (`font.size`) and the width that
      PIL measures for a string in that font. */
  datatype Font = Font(size: nat, measure: string -> nat)

  /** One text drawn on the image: its top-left position, the text, the
      font size it was drawn in and its fill colour. */
  datatype TextDraw = TextDraw(x: real, y: int, text: string, size: nat, color: string)

  class Canvas {
    /** Every text drawn on the image so far, in drawing order. */
    var drawn: seq<TextDraw>

    /** A fresh, fully transparent image: nothing drawn yet. */
    constructor ()
      ensures drawn == []
    {
      drawn := [];
    }

    /** Draws `text` at `(x, y)` in `font` and `color`: one more record, nothing
        else changes. */
    method Text(x: real, y: int, text: string, font: Font, color: string)
      modifies this
      ensures drawn == old(drawn) + [TextDraw(x, y, text, font.size, color)]
    {
      drawn := drawn + [TextDraw(x, y, text, font.size, color)];
    }
  }
}

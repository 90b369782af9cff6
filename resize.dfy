/**
 * `autoResize` in script.js: the compose box grows with its content between
 * 24 and 120 pixels, and shows a scroll bar only when the content is taller
 * than the box can get.
 */
module Resize {
  import Text

  const MinHeight := 24
  const MaxHeight := 120

  /** `Math.min(Math.max(scrollHeight, minHeight), maxHeight)` */
  function NewHeight(scrollHeight: int): int
  {
    var grown := if scrollHeight > MinHeight then scrollHeight else MinHeight;
    if grown < MaxHeight then grown else MaxHeight
  }

  /** The `overflowY` style: `auto` when the content is taller than the maximum. */
  function OverflowY(scrollHeight: int): string
  {
    if scrollHeight > MaxHeight then "auto" else "hidden"
  }

  /** The two styles `autoResize` leaves on the compose box. */
  datatype Style = Style(height: string, overflowY: string)

  function AutoResize(scrollHeight: int): Style
  {
    Style(Text.IntToString(NewHeight(scrollHeight)) + "px", OverflowY(scrollHeight))
  }

  /**
   * The height is the content's height clamped to [24, 120]: never outside
   * the bounds, the content's own height when it fits, the nearer bound
   * otherwise.
   */
  lemma NewHeightClamps(scrollHeight: int)
    ensures MinHeight <= NewHeight(scrollHeight) <= MaxHeight
    ensures MinHeight <= scrollHeight <= MaxHeight ==> NewHeight(scrollHeight) == scrollHeight
    ensures scrollHeight < MinHeight ==> NewHeight(scrollHeight) == MinHeight
    ensures scrollHeight > MaxHeight ==> NewHeight(scrollHeight) == MaxHeight
  {
  }

  /** A taller content never gives a shorter box. */
  lemma NewHeightMonotone(a: int, b: int)
    requires a <= b
    ensures NewHeight(a) <= NewHeight(b)
  {
  }

  /** Resizing to the height it just chose changes nothing. */
  lemma NewHeightIdempotent(scrollHeight: int)
    ensures NewHeight(NewHeight(scrollHeight)) == NewHeight(scrollHeight)
  {
  }

  /** The scroll bar appears exactly when the box cuts some of the content off. */
  lemma ScrollsIffClipped(scrollHeight: int)
    ensures AutoResize(scrollHeight).overflowY == "auto" <==> NewHeight(scrollHeight) < scrollHeight
  {
  }
}

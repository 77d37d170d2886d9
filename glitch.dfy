/**
 * The overlay shown after a loss: 20 lines of 80 characters, each picked
 * from a fixed palette by one `Math.random()` draw.
 */
module Glitch {

  /** `"01▓▒░#@$%^&*"`: twelve characters. */
  const Palette := "01\U{2593}\U{2592}\U{2591}#@$%^&*"
  const OverlayLines := 20
  const OverlayColumns := 80

  /**
   * `Math.floor(u * chars.length)` for a draw `u` in `[0, 1)`, computed over
   * the reals: always a valid palette index, and index `i` is picked by
   * exactly the draws in `[i/12, (i+1)/12)`.
   */
  function PaletteIndex(u: real): (i: int)
    requires 0.0 <= u < 1.0
    ensures 0 <= i < |Palette|
    ensures i as real / 12.0 <= u < (i + 1) as real / 12.0
  {
    (u * |Palette| as real).Floor
  }

  /** Line `i` of the overlay; draw number `80 * i + j` picks its character `j`. */
  function OverlayLine(random: nat -> real, i: nat): string
    requires forall k :: 0.0 <= random(k) < 1.0
  {
    seq(OverlayColumns, j requires 0 <= j < OverlayColumns => Palette[PaletteIndex(random(OverlayColumns * i + j))])
  }

  /**
   * The whole overlay for a stream of draws, taken line by line, left to
   * right: exactly 20 lines of 80 characters, every one from the palette.
   */
  function Overlay(random: nat -> real): (lines: seq<string>)
    requires forall k :: 0.0 <= random(k) < 1.0
    ensures |lines| == OverlayLines
    ensures forall i :: 0 <= i < OverlayLines ==> |lines[i]| == OverlayColumns
    ensures forall i, j :: 0 <= i < OverlayLines && 0 <= j < OverlayColumns ==>
      lines[i][j] == Palette[PaletteIndex(random(OverlayColumns * i + j))]
    ensures forall i, j :: 0 <= i < OverlayLines && 0 <= j < OverlayColumns ==> lines[i][j] in Palette
  {
    seq(OverlayLines, i requires 0 <= i < OverlayLines => OverlayLine(random, i))
  }
}

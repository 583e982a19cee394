/** How cmds/screenrecord/TextRenderer.cpp lays the glyphs out in a texture: initXOffset and
    powerOfTwoCeil. */
module GlyphTexture {
  import Arithmetic

  // ---- Texture offsets ---------------------------------------------------------------------------

  /** uint16_t arithmetic. */
  function Wrap16(x: nat): (r: nat) { x % 0x1_0000 }

  /** The sum of the widths and gaps of the glyphs from a to b. */
  function Span(widths: seq<nat>, a: nat, b: nat): nat
    requires a <= b <= |widths|
  {
    if a == b then 0 else Span(widths, a, b - 1) + widths[b - 1] + 1
  }

  /** The first glyph of the row that glyph i is in. */
  function RowStart(yoffset: seq<nat>, i: nat): (a: nat)
    requires i < |yoffset|
    ensures a <= i
    ensures forall k: nat :: a <= k <= i ==> yoffset[k] == yoffset[i]
    ensures a > 0 ==> yoffset[a - 1] != yoffset[i]
  {
    if i > 0 && yoffset[i - 1] == yoffset[i] then RowStart(yoffset, i - 1) else i
  }

  /** Where glyph i is in its row of the texture: after its predecessors, modulo 2^16. */
  function OffsetAt(widths: seq<nat>, yoffset: seq<nat>, i: nat): nat
    requires i < |widths| == |yoffset|
  {
    Wrap16(Span(widths, RowStart(yoffset, i), i))
  }

  lemma NextOffset(widths: seq<nat>, yoffset: seq<nat>, i: nat)
    requires i + 1 < |widths| == |yoffset|
    ensures OffsetAt(widths, yoffset, i + 1) ==
            if yoffset[i + 1] == yoffset[i] then Wrap16(OffsetAt(widths, yoffset, i) + widths[i] + 1) else 0
  {
    var a := RowStart(yoffset, i);
    Arithmetic.ModuloAdd(Span(widths, a, i), widths[i] + 1, 0x1_0000);
  }

  /** initXOffset. */
  method InitXOffset(widths: seq<nat>, yoffset: seq<nat>, xOffset: array<nat>)
    requires |widths| == |yoffset| == xOffset.Length
    requires forall y :: y in yoffset ==> y < 0x1_0000
    modifies xOffset
    ensures forall i: nat :: i < xOffset.Length ==> xOffset[i] == OffsetAt(widths, yoffset, i)
  {
    var offset, prevYOffset := 0, 0xFFFF;
    for i := 0 to |widths|
      invariant i == 0 ==> offset == 0
      invariant i > 0 ==> prevYOffset == yoffset[i - 1]
      invariant i > 0 ==> offset == Wrap16(OffsetAt(widths, yoffset, i - 1) + widths[i - 1] + 1)
      invariant forall k: nat :: k < i ==> xOffset[k] == OffsetAt(widths, yoffset, k)
    {
      if prevYOffset != yoffset[i] {
        prevYOffset := yoffset[i];
        offset := 0;
      }
      if i > 0 { NextOffset(widths, yoffset, i - 1); }
      xOffset[i] := offset;
      offset := Wrap16(offset + widths[i] + 1);
    }
  }

  lemma {:induction false} SpanSplits(widths: seq<nat>, a: nat, b: nat, c: nat)
    requires a <= b <= c <= |widths|
    ensures Span(widths, a, c) == Span(widths, a, b) + Span(widths, b, c)
  {
    if b < c { SpanSplits(widths, a, b, c - 1); }
  }

  lemma {:induction false} SameRow(yoffset: seq<nat>, i: nat, j: nat)
    requires i <= j < |yoffset| && RowStart(yoffset, j) <= i
    ensures RowStart(yoffset, i) == RowStart(yoffset, j)
  {
    if i < j { SameRow(yoffset, i, j - 1); }
  }

  /** Glyphs i < j of a row short enough for uint16_t do not overlap in the texture, and there is a
      pixel between each two. */
  lemma GlyphsDoNotOverlap(widths: seq<nat>, yoffset: seq<nat>, i: nat, j: nat)
    requires |widths| == |yoffset| && i < j < |yoffset| && RowStart(yoffset, j) <= i
    requires Span(widths, RowStart(yoffset, j), j) < 0x1_0000
    ensures OffsetAt(widths, yoffset, i) + widths[i] + 1 <= OffsetAt(widths, yoffset, j)
  {
    var a := RowStart(yoffset, j);
    SameRow(yoffset, i, j);
    SpanSplits(widths, a, i + 1, j);
    var x, y := Span(widths, a, i), Span(widths, a, j);
    assert x + widths[i] + 1 <= y < 0x1_0000;
    assert Wrap16(x) == x && Wrap16(y) == y;
  }

  // ---- Texture height ----------------------------------------------------------------------------

  /** powerOfTwoCeil. */
  method PowerOfTwoCeil(val: bv32) returns (r: bv32)
    ensures 1 <= val <= 0x8000_0000 ==> r >= val && r & (r - 1) == 0 && (r == 1 || (r >> 1) < val)
    ensures val == 0 || val > 0x8000_0000 ==> r == 0
  {
    r := val - 1;
    r := r | (r >> 1);
    r := r | (r >> 2);
    r := r | (r >> 4);
    r := r | (r >> 8);
    r := r | (r >> 16);
    r := r + 1;
  }
}

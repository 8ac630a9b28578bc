/** The drawing primitives the console uses: clipped rectangles, 8x8 glyphs and damage regions. */
module Framebuffer {

  /** A font gives each character eight rows of eight dots. */
  type Font = (char, nat, nat) -> bool

  datatype Region = Region(x: int, y: int, width: int, height: int)

  predicate Inside(r: Region, x: int, y: int)
  {
    r.x <= x < r.x + r.width && r.y <= y < r.y + r.height
  }

  function Min(a: int, b: int): int { if a < b then a else b }
  function Max(a: int, b: int): int { if a > b then a else b }

  /** No edge of `a` sticks out of `b`. */
  predicate Within(a: Region, b: Region)
  {
    b.x <= a.x && b.y <= a.y && a.x + a.width <= b.x + b.width && a.y + a.height <= b.y + b.height
  }

  /** Signed 32-bit saturation. */
  function Saturate(v: int): int
  {
    if v < -0x8000_0000 then -0x8000_0000 else if v > 0x7FFF_FFFF then 0x7FFF_FFFF else v
  }

  /** A region whose edges are 32-bit coordinates that are not negative. */
  predicate OnPlane(r: Region)
  {
    && 0 <= r.x && 0 <= r.y && 0 <= r.width && 0 <= r.height
    && r.x + r.width <= 0x7FFF_FFFF && r.y + r.height <= 0x7FFF_FFFF
  }

  /** The smallest region around two; the sums saturate, which changes nothing for regions on the plane. */
  function Union(a: Region, b: Region): (r: Region)
    ensures OnPlane(a) && OnPlane(b) ==>
      && OnPlane(r) && Within(a, r) && Within(b, r)
      && (forall q :: Within(a, q) && Within(b, q) ==> Within(r, q))
      && (forall x, y :: Inside(a, x, y) || Inside(b, x, y) ==> Inside(r, x, y))
  {
    var left, top := Min(a.x, b.x), Min(a.y, b.y);
    var right := Max(Saturate(a.x + a.width), Saturate(b.x + b.width));
    var bottom := Max(Saturate(a.y + a.height), Saturate(b.y + b.height));
    Region(left, top, Saturate(right - left), Saturate(bottom - top))
  }

  /** Fills the part of a region that lies on the screen. */
  method Rect(pixels: array2<nat>, r: Region, value: nat)
    modifies pixels
    ensures forall y, x :: 0 <= y < pixels.Length0 && 0 <= x < pixels.Length1 ==>
      pixels[y, x] == if Inside(r, x, y) then value else old(pixels[y, x])
  {
    var left, right := Min(Max(r.x, 0), pixels.Length1), Min(Max(r.x + r.width, 0), pixels.Length1);
    var top, bottom := Min(Max(r.y, 0), pixels.Length0), Min(Max(r.y + r.height, 0), pixels.Length0);
    if right <= left || bottom <= top {
      return;
    }
    for row := top to bottom
      invariant forall y, x :: 0 <= y < pixels.Length0 && 0 <= x < pixels.Length1 ==>
        pixels[y, x] == if top <= y < row && left <= x < right then value else old(pixels[y, x])
    {
      forall x | left <= x < right {
        pixels[row, x] := value;
      }
    }
  }

  /** Draws the dots of a character, each a rectangle of one pixel. */
  method Glyph(pixels: array2<nat>, font: Font, x0: int, y0: int, c: char, ink: nat)
    modifies pixels
    ensures forall y, x :: 0 <= y < pixels.Length0 && 0 <= x < pixels.Length1 ==>
      pixels[y, x] == if Dot(font, c, x - x0, y - y0) then ink else old(pixels[y, x])
  {
    for row := 0 to 8
      invariant forall y, x :: 0 <= y < pixels.Length0 && 0 <= x < pixels.Length1 ==>
        pixels[y, x] == if y - y0 < row && Dot(font, c, x - x0, y - y0) then ink else old(pixels[y, x])
    {
      GlyphRow(pixels, font, x0, y0, row, c, ink);
    }
  }

  predicate Dot(font: Font, c: char, dx: int, dy: int)
  {
    0 <= dx < 8 && 0 <= dy < 8 && font(c, dy, dx)
  }

  method GlyphRow(pixels: array2<nat>, font: Font, x0: int, y0: int, row: nat, c: char, ink: nat)
    requires row < 8
    modifies pixels
    ensures forall y, x :: 0 <= y < pixels.Length0 && 0 <= x < pixels.Length1 ==>
      pixels[y, x] == if y - y0 == row && Dot(font, c, x - x0, y - y0) then ink else old(pixels[y, x])
  {
    for column := 0 to 8
      invariant forall y, x :: 0 <= y < pixels.Length0 && 0 <= x < pixels.Length1 ==>
        pixels[y, x]
        == if y - y0 == row && x - x0 < column && Dot(font, c, x - x0, y - y0) then ink else old(pixels[y, x])
    {
      if font(c, row, column) {
        Rect(pixels, Region(x0 + column, y0 + row, 1, 1), ink);
      }
    }
  }
}

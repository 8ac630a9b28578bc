/** The boot console's text: an unbounded document of wrapped lines. */
module ConsoleText {

  // The grid has 45 rows of 74 columns.

  type Document = seq<seq<char>>

  /** At least the current line, and no line longer than the grid is wide. */
  predicate IsDocument(d: Document)
  {
    |d| >= 1 && forall i :: 0 <= i < |d| ==> |d[i]| <= 74
  }

  predicate IsControl(c: char)
  {
    c < 0x20 as char || 0x7F as char <= c <= 0x9F as char
  }

  /** Typing one character: a full line wraps before the next character, and backspace stays on its line. */
  function Type(d: Document, c: char): (r: Document)
    requires IsDocument(d)
    ensures IsDocument(r)
  {
    var last := d[|d| - 1];
    if c == '\n' then d + [[]]
    else if c == '\U{8}' then
      if last == [] then d else d[|d| - 1 := last[..|last| - 1]]
    else if IsControl(c) then d
    else if |last| == 74 then d + [[c]]
    else d[|d| - 1 := last + [c]]
  }

  function TypeAll(d: Document, s: seq<char>): (r: Document)
    requires IsDocument(d)
    ensures IsDocument(r)
  {
    if s == [] then d else Type(TypeAll(d, s[..|s| - 1]), s[|s| - 1])
  }

  lemma {:induction false} TypeAllAppend(d: Document, a: seq<char>, b: seq<char>)
    requires IsDocument(d)
    ensures TypeAll(d, a + b) == TypeAll(TypeAll(d, a), b)
  {
    if b == [] {
      assert a + b == a;
    } else {
      var n := |b| - 1;
      assert (a + b)[..|a| + n] == a + b[..n];
      TypeAllAppend(d, a, b[..n]);
    }
  }

  /** The length of the last line if it is the 45th, which is the last row of the grid before it scrolls. */
  function LastRowLength(d: Document): (n: nat)
    requires IsDocument(d)
    ensures n <= 74
  {
    if |d| == 45 then |d[44]| else 0
  }

  /** How wide the 45th line has ever been, after one more character. */
  function Reach(d: Document, reach: nat, c: char): nat
    requires IsDocument(d)
  {
    Longer(reach, LastRowLength(Type(d, c)))
  }

  function ReachAll(d: Document, reach: nat, s: seq<char>): nat
    requires IsDocument(d)
  {
    if s == [] then reach else Longer(ReachAll(d, reach, s[..|s| - 1]), LastRowLength(TypeAll(d, s)))
  }

  function Longer(a: nat, b: nat): nat { if a < b then b else a }

  lemma TypeNext(d: Document, reach: nat, s: seq<char>, i: nat)
    requires IsDocument(d) && i < |s|
    ensures TypeAll(d, s[..i + 1]) == Type(TypeAll(d, s[..i]), s[i])
    ensures ReachAll(d, reach, s[..i + 1]) == Reach(TypeAll(d, s[..i]), ReachAll(d, reach, s[..i]), s[i])
  {
    assert s[..i + 1][..i] == s[..i];
  }

  lemma ReachStep(d: Document, reach: nat, front: seq<char>, s: seq<char>)
    requires IsDocument(d) && s != [] && s[..|s| - 1] == front
    ensures ReachAll(d, reach, s) == Longer(ReachAll(d, reach, front), LastRowLength(TypeAll(d, s)))
  {
  }

  lemma {:induction false} ReachAllAppend(d: Document, reach: nat, a: seq<char>, b: seq<char>)
    requires IsDocument(d)
    ensures ReachAll(d, reach, a + b) == ReachAll(TypeAll(d, a), ReachAll(d, reach, a), b)
  {
    if b == [] {
      assert a + b == a;
    } else {
      var front, d', reach' := b[..|b| - 1], TypeAll(d, a), ReachAll(d, reach, a);
      ReachAllAppend(d, reach, a, front);
      TypeAllAppend(d, a, b);
      assert (a + b)[..|a + b| - 1] == a + front;
      ReachStep(d, reach, a + front, a + b);
      ReachStep(d', reach', front, b);
    }
  }

  const BLANK: Document := [[]]

  /** After some of the text has been typed on an empty screen, the 45th line is the last and is full. */
  predicate FillsLastRow(text: seq<char>, k: nat)
    requires k <= |text|
  {
    LastRowLength(TypeAll(BLANK, text[..k])) == 74
  }

  /** The 45th line has been filled at some time, as far as the text goes. */
  ghost predicate HasFilledLastRow(text: seq<char>)
  {
    exists k :: 0 <= k <= |text| && FillsLastRow(text, k)
  }

  lemma FilledSoFar(text: seq<char>)
    requires text != []
    ensures HasFilledLastRow(text) <==> HasFilledLastRow(text[..|text| - 1]) || FillsLastRow(text, |text|)
  {
    var front := text[..|text| - 1];
    forall k: nat | k <= |front| ensures FillsLastRow(front, k) == FillsLastRow(text, k) {
      assert front[..k] == text[..k];
    }
  }

  /** The mark stands at the edge of the grid exactly when the 45th line has been full. */
  lemma {:induction false} ReachIsFull(text: seq<char>)
    ensures ReachAll(BLANK, 0, text) <= 74
    ensures ReachAll(BLANK, 0, text) == 74 <==> HasFilledLastRow(text)
  {
    if text == [] {
      assert text[..0] == [];
    } else {
      ReachIsFull(text[..|text| - 1]);
      FilledSoFar(text);
      assert text[..|text|] == text;
    }
  }

  /** A line with blanks up to the width of the grid. */
  function Pad(line: seq<char>): (r: seq<char>)
    requires |line| <= 74
    ensures |r| == 74
  {
    line + seq(74 - |line|, _ => ' ')
  }

  /** Row r of the grid: the document's last 45 lines, then blank rows. */
  function Visible(d: Document, r: nat): (line: seq<char>)
    requires IsDocument(d) && r < 45
    ensures |line| == 74
  {
    var first := if |d| > 45 then |d| - 45 else 0;
    if first + r < |d| then Pad(d[first + r]) else Pad([])
  }

  /** The row of the last line. */
  function CursorRow(d: Document): (r: nat)
    requires IsDocument(d)
    ensures r < 45
  {
    if |d| > 45 then 44 else |d| - 1
  }

  lemma VisibleEdit(d: Document, line: seq<char>, r: nat)
    requires IsDocument(d) && |line| <= 74 && r < 45
    ensures Visible(d[|d| - 1 := line], r) == if r == CursorRow(d) then Pad(line) else Visible(d, r)
    ensures CursorRow(d[|d| - 1 := line]) == CursorRow(d)
  {
  }

  lemma VisibleNewLine(d: Document, r: nat)
    requires IsDocument(d) && r < 45
    ensures |d| < 45 ==> Visible(d + [[]], r) == Visible(d, r) && CursorRow(d + [[]]) == CursorRow(d) + 1
    ensures |d| >= 45 ==>
      Visible(d + [[]], r) == (if r == 44 then Pad([]) else Visible(d, r + 1)) && CursorRow(d + [[]]) == 44
  {
  }

  lemma WrapThenAppend(d: Document, c: char)
    ensures var e := d + [[]]; e[|d| := e[|d|] + [c]] == d + [[c]]
  {
    var e := d + [[]];
    assert e[|d|] + [c] == [c];
  }

  lemma PadAppend(line: seq<char>, c: char)
    requires |line| < 74
    ensures Pad(line + [c]) == Pad(line)[|line| := c]
  {
  }

  lemma PadDrop(line: seq<char>)
    requires 0 < |line| <= 74
    ensures Pad(line[..|line| - 1]) == Pad(line)[|line| - 1 := ' ']
  {
  }
}

/** The grid, the cursor and the screen, kept in step with the document. */
module TextConsole {
  import opened ConsoleText
  import opened Framebuffer
  import opened Options

  const PANEL := 0x000D_1118
  const INK := 0x00E5_EAE7
  const BACKGROUND := 0x0008_0B10
  const BORDER := 0x0035_3A38
  const HEADER := 0x0012_1820
  const ACCENT := 0x006F_BF9A

  predicate Body(x: int, y: int)
  {
    24 <= x < 616 && 66 <= y < 471
  }

  function CellRegion(col: nat, row: nat): Region
  {
    Region(24 + 8 * col, 66 + 9 * row, 8, 9)
  }

  const BODY := Region(24, 66, 592, 405)

  /** A pixel of a drawn cell. */
  function CellPixel(font: Font, c: char, dx: int, dy: int): nat
  {
    if c != ' ' && Dot(font, c, dx, dy) then INK else PANEL
  }

  /** The pixel a full redraw of the grid would leave. */
  function Redrawn(cells: seq<seq<char>>, font: Font, x: int, y: int): nat
    requires Body(x, y) && |cells| == 45 && forall r :: 0 <= r < 45 ==> |cells[r]| == 74
  {
    CellPixel(font, cells[(y - 66) / 9][(x - 24) / 8], (x - 24) % 8, (y - 66) % 9)
  }

  /** The damage so far, extended by what changed now. */
  function Extended(damage: Option<Region>, changed: Option<Region>): (r: Option<Region>)
    requires damage.Some? ==> OnPlane(damage.value) && Within(damage.value, BODY)
    requires changed.Some? ==> OnPlane(changed.value) && Within(changed.value, BODY)
    ensures r.Some? ==> OnPlane(r.value) && Within(r.value, BODY)
    ensures forall x, y :: damage.Some? && Inside(damage.value, x, y) ==> r.Some? && Inside(r.value, x, y)
    ensures forall x, y :: changed.Some? && Inside(changed.value, x, y) ==> r.Some? && Inside(r.value, x, y)
  {
    if changed.None? then damage
    else Some(if damage.Some? then Union(damage.value, changed.value) else changed.value)
  }

  class Console {
    const font: Font
    const cells: array<seq<char>>
    const pixels: array2<nat>
    var enabled: bool
    var col: nat
    var row: nat
    ghost var doc: Document
    ghost var reached: nat

    ghost predicate Shape()
      reads this, cells
    {
      && cells.Length == 45 && (forall r :: 0 <= r < 45 ==> |cells[r]| == 74)
      && pixels.Length0 == 480 && pixels.Length1 == 640
    }

    /** The grid shows the end of the document, with the cursor on the row of its last line. */
    ghost predicate Lines()
      reads this, cells
    {
      && Shape()
      && IsDocument(doc)
      && (forall r :: 0 <= r < 45 ==> cells[r] == Visible(doc, r))
      && row == CursorRow(doc)
    }

    /** And the cursor stands behind the last character. */
    ghost predicate Grid()
      reads this, cells
    {
      Lines() && col == |doc[|doc| - 1]|
    }

    method DrawCell(c: nat, r: nat)
      requires Shape() && c < 74 && r < 45
      modifies pixels
      ensures forall y, x :: 0 <= y < 480 && 0 <= x < 640 ==>
        pixels[y, x] == if Inside(CellRegion(c, r), x, y)
                        then CellPixel(font, cells[r][c], x - (24 + 8 * c), y - (66 + 9 * r)) else old(pixels[y, x])
    {
      var x, y := 24 + c * 8, 66 + r * 9;
      Rect(pixels, Region(x, y, 8, 9), PANEL);
      var character := cells[r][c];
      if character != ' ' {
        Glyph(pixels, font, x, y, character, INK);
      }
    }

    method RedrawBody()
      requires Shape()
      modifies pixels
      ensures forall y, x :: 0 <= y < 480 && 0 <= x < 640 ==>
        pixels[y, x] == if Body(x, y) then Redrawn(cells[..], font, x, y) else old(pixels[y, x])
    {
      Rect(pixels, BODY, PANEL);
      for r := 0 to 45
        invariant forall y, x :: 0 <= y < 480 && 0 <= x < 640 ==>
          pixels[y, x] == if !Body(x, y) then old(pixels[y, x])
                          else if (y - 66) / 9 < r then Redrawn(cells[..], font, x, y) else PANEL
      {
        RedrawRow(r);
      }
    }

    method RedrawRow(r: nat)
      requires Shape() && r < 45
      requires forall y, x :: 0 <= y < 480 && 0 <= x < 640 && Body(x, y) && (y - 66) / 9 == r ==> pixels[y, x] == PANEL
      modifies pixels
      ensures forall y, x :: 0 <= y < 480 && 0 <= x < 640 ==>
        pixels[y, x] == if Body(x, y) && (y - 66) / 9 == r then Redrawn(cells[..], font, x, y) else old(pixels[y, x])
    {
      for c := 0 to 74
        invariant forall y, x :: 0 <= y < 480 && 0 <= x < 640 ==>
          pixels[y, x] == if Body(x, y) && (y - 66) / 9 == r && (x - 24) / 8 < c
                          then Redrawn(cells[..], font, x, y) else old(pixels[y, x])
      {
        if cells[r][c] != ' ' {
          DrawCell(c, r);
        }
      }
    }

    /** The last text row overlaps the panel's border; its cells cover that only once they are drawn, up to
        column `reached`, or when scrolling redraws everything. */
    ghost predicate Covered(x: int)
      reads this
    {
      |doc| > 45 || (x - 24) / 8 < reached
    }

    ghost function Painted(x: int, y: int): nat
      requires Shape() && Body(x, y)
      reads this, cells
    {
      if y >= 469 && !Covered(x) then (if y == 469 then BORDER else BACKGROUND) else Redrawn(cells[..], font, x, y)
    }

    ghost predicate Screen()
      requires Shape()
      reads this, cells, pixels
    {
      forall y, x :: 0 <= y < 480 && 0 <= x < 640 && Body(x, y) ==> pixels[y, x] == Painted(x, y)
    }

    ghost predicate Valid()
      reads this, cells, pixels
    {
      && Grid()
      && Screen()
      && reached <= 74
      && (|doc| < 45 ==> reached == 0)
      && LastRowLength(doc) <= reached
    }

    constructor (font: Font)
      ensures !enabled && fresh(cells) && fresh(pixels) && Shape()
    {
      this.font := font;
      cells := new seq<char>[45](_ => Pad([]));
      pixels := new nat[480, 640]((_, _) => 0);
      enabled, col, row := false, 0, 0;
      doc, reached := [[]], 0;
    }

    /** Clears the grid and draws the chrome: header, accent line, panel and border. */
    method Enable()
      requires Shape()
      modifies this, cells, pixels
      ensures Valid() && enabled && doc == [[]] && reached == 0
    {
      col, row := 0, 0;
      forall r | 0 <= r < 45 {
        cells[r] := Pad([]);
      }
      doc, reached := [[]], 0;
      enabled := true;
      DrawChrome();
    }

    method DrawChrome()
      requires Shape()
      modifies pixels
      ensures forall y, x :: 0 <= y < 480 && 0 <= x < 640 && Body(x, y) ==>
        pixels[y, x] == if y < 469 then PANEL else if y == 469 then BORDER else BACKGROUND
    {
      var width, height := pixels.Length1, pixels.Length0;
      Rect(pixels, Region(0, 0, width, height), BACKGROUND);
      Rect(pixels, Region(0, 0, width, 54), HEADER);
      Rect(pixels, Region(0, 52, width, 2), ACCENT);
      Rect(pixels, Region(14, 58, width - 28, height - 68), PANEL);
      Rect(pixels, Region(14, 58, width - 28, 1), BORDER);
      Rect(pixels, Region(14, 58 + (height - 68) - 1, width - 28, 1), BORDER);
      Rect(pixels, Region(14, 58, 1, height - 68), BORDER);
      Rect(pixels, Region(14 + (width - 28) - 1, 58, 1, height - 68), BORDER);
    }

    /** Stores a character under the cursor and draws its cell. */
    method PutCell(c: nat, character: char, ghost after: Document, ghost reached': nat)
      requires Shape() && Screen() && c < 74 && row < 45 && |after| == |doc|
      requires (row == 44 && |doc| <= 45) ==> c <= reached && reached' == Max(reached, c + 1)
      requires !(row == 44 && |doc| <= 45) ==> reached' == reached
      modifies this`doc, this`reached, cells, pixels
      ensures doc == after && reached == reached'
      ensures Shape() && Screen()
      ensures cells[row] == old(cells[row])[c := character]
      ensures forall r :: 0 <= r < 45 && r != row ==> cells[r] == old(cells[r])
      ensures forall y, x :: 0 <= y < 480 && 0 <= x < 640 && !Inside(CellRegion(c, row), x, y) ==>
        pixels[y, x] == old(pixels[y, x])
    {
      cells[row] := cells[row][c := character];
      DrawCell(c, row);
      doc, reached := after, reached';
    }

    /** Moves the cursor to a new line, scrolling and redrawing when the grid is full. */
    method NewLine() returns (scrolled: bool)
      requires Valid()
      modifies this, cells, pixels
      ensures Valid() && enabled == old(enabled)
      ensures doc == old(doc) + [[]] && reached == old(reached)
      ensures scrolled <==> |old(doc)| >= 45
      ensures forall y, x :: 0 <= y < 480 && 0 <= x < 640 && !(scrolled && Body(x, y)) ==>
        pixels[y, x] == old(pixels[y, x])
    {
      col := 0;
      if row + 1 < 45 {
        row := row + 1;
        doc := doc + [[]];
        forall r | 0 <= r < 45 ensures Visible(doc, r) == Visible(old(doc), r) { VisibleNewLine(old(doc), r); }
        VisibleNewLine(old(doc), 0);
        return false;
      }
      ShiftUp();
      doc := doc + [[]];
      forall r | 0 <= r < 45 ensures cells[r] == Visible(doc, r) { VisibleNewLine(old(doc), r); }
      RedrawBody();
      return true;
    }

    /** Every row takes the one below it; the last becomes blank. */
    method ShiftUp()
      requires Shape()
      modifies cells
      ensures Shape()
      ensures cells[44] == Pad([]) && forall r :: 0 <= r < 44 ==> cells[r] == old(cells[r + 1])
    {
      for r := 1 to 45
        invariant forall i :: 0 <= i < r - 1 ==> cells[i] == old(cells[i + 1])
        invariant forall i :: r - 1 <= i < 45 ==> cells[i] == old(cells[i])
        invariant Shape()
      {
        cells[r - 1] := cells[r];
      }
      cells[44] := Pad([]);
    }

    /** Changes one character of the last line and draws its cell. */
    method EditLast(c: nat, character: char, ghost line: seq<char>, ghost reached': nat)
      requires Lines() && Screen() && c < 74 && |line| <= 74 && Pad(line) == Pad(doc[|doc| - 1])[c := character]
      requires |doc| == 45 ==> c <= reached && reached' == Max(reached, c + 1)
      requires |doc| != 45 ==> reached' == reached
      modifies this`doc, this`reached, cells, pixels
      ensures Lines() && Screen()
      ensures doc == old(doc)[|old(doc)| - 1 := line] && reached == reached'
      ensures forall y, x :: 0 <= y < 480 && 0 <= x < 640 && !Inside(CellRegion(c, row), x, y) ==>
        pixels[y, x] == old(pixels[y, x])
    {
      ghost var after := doc[|doc| - 1 := line];
      forall r | 0 <= r < 45
        ensures Visible(after, r) == if r == row then Pad(line) else Visible(doc, r)
      {
        VisibleEdit(doc, line, r);
      }
      assert Visible(doc, row) == Pad(doc[|doc| - 1]);
      VisibleEdit(doc, line, row);
      PutCell(c, character, after, reached');
    }

    /** Erases the character before the cursor. */
    method Erase()
      requires Valid() && col != 0
      modifies this, cells, pixels
      ensures Valid() && enabled == old(enabled) && row == old(row) && col == old(col) - 1
      ensures doc == Type(old(doc), '\U{8}') && reached == old(reached)
      ensures forall y, x :: 0 <= y < 480 && 0 <= x < 640 && !Inside(CellRegion(col, row), x, y) ==>
        pixels[y, x] == old(pixels[y, x])
    {
      col := col - 1;
      ghost var last := doc[|doc| - 1];
      PadDrop(last);
      EditLast(col, ' ', last[..|last| - 1], reached);
    }

    /** Appends a character to the current line. */
    method Append(character: char)
      requires Valid() && col < 74
      modifies this, cells, pixels
      ensures Valid() && enabled == old(enabled) && row == old(row) && col == old(col) + 1
      ensures doc == old(doc)[|old(doc)| - 1 := old(doc)[|old(doc)| - 1] + [character]]
      ensures reached == Max(old(reached), LastRowLength(doc))
      ensures forall y, x :: 0 <= y < 480 && 0 <= x < 640 && !Inside(CellRegion(col - 1, row), x, y) ==>
        pixels[y, x] == old(pixels[y, x])
    {
      ghost var last := doc[|doc| - 1];
      PadAppend(last, character);
      EditLast(col, character, last + [character], if |doc| == 45 then Max(reached, col + 1) else reached);
      col := col + 1;
    }

    /** Types one character. Every pixel that changes lies in the returned region. */
    method WriteCharacter(character: char) returns (damage: Option<Region>)
      requires Valid()
      modifies this, cells, pixels
      ensures Valid() && enabled == old(enabled)
      ensures doc == Type(old(doc), character) && reached == Reach(old(doc), old(reached), character)
      ensures forall y, x :: 0 <= y < 480 && 0 <= x < 640 && pixels[y, x] != old(pixels[y, x]) ==>
        damage.Some? && Inside(damage.value, x, y)
      ensures damage.Some? ==> OnPlane(damage.value) && Within(damage.value, BODY)
    {
      if character == '\n' {
        var scrolled := NewLine();
        return if scrolled then Some(BODY) else None;
      }
      if character == '\U{8}' {
        if col == 0 {
          return None;
        }
        Erase();
        return Some(CellRegion(col, row));
      }
      if IsControl(character) {
        return None;
      }
      damage := Print(character);
    }

    method Print(character: char) returns (damage: Option<Region>)
      requires Valid() && !IsControl(character)
      modifies this, cells, pixels
      ensures Valid() && enabled == old(enabled)
      ensures doc == Type(old(doc), character) && reached == Reach(old(doc), old(reached), character)
      ensures forall y, x :: 0 <= y < 480 && 0 <= x < 640 && pixels[y, x] != old(pixels[y, x]) ==>
        damage.Some? && Inside(damage.value, x, y)
      ensures damage.Some? ==> OnPlane(damage.value) && Within(damage.value, BODY)
    {
      var scrolled := false;
      if col >= 74 {
        scrolled := NewLine();
        WrapThenAppend(old(doc), character);
      }
      Append(character);
      CellInBody(col - 1, row);
      return Some(if scrolled then BODY else CellRegion(col - 1, row));
    }

    /** Writes a string, right to left if it holds a Hebrew character; the region presented covers every change. */
    method WriteStr(value: seq<char>) returns (damage: Option<Region>)
      requires enabled ==> Valid()
      modifies this, cells, pixels
      ensures enabled == old(enabled)
      ensures !enabled ==> damage.None? && doc == old(doc) && reached == old(reached) && cells[..] == old(cells[..])
      ensures enabled ==> Valid() && doc == TypeAll(old(doc), InOrder(value))
      ensures enabled ==> reached == ReachAll(old(doc), old(reached), InOrder(value))
      ensures forall y, x :: 0 <= y < pixels.Length0 && 0 <= x < pixels.Length1 && pixels[y, x] != old(pixels[y, x]) ==>
        damage.Some? && Inside(damage.value, x, y)
      ensures damage.Some? ==> OnPlane(damage.value) && Within(damage.value, BODY)
    {
      if !enabled {
        return None;
      }
      damage := WriteAll(InOrder(value));
    }

    method WriteAll(ordered: seq<char>) returns (damage: Option<Region>)
      requires Valid()
      modifies this, cells, pixels
      ensures Valid() && enabled == old(enabled)
      ensures doc == TypeAll(old(doc), ordered) && reached == ReachAll(old(doc), old(reached), ordered)
      ensures forall y, x :: 0 <= y < 480 && 0 <= x < 640 && pixels[y, x] != old(pixels[y, x]) ==>
        damage.Some? && Inside(damage.value, x, y)
      ensures damage.Some? ==> OnPlane(damage.value) && Within(damage.value, BODY)
    {
      damage := None;
      for i := 0 to |ordered|
        invariant Valid() && enabled == old(enabled)
        invariant doc == TypeAll(old(doc), ordered[..i])
        invariant reached == ReachAll(old(doc), old(reached), ordered[..i])
        invariant forall y, x :: 0 <= y < 480 && 0 <= x < 640 && pixels[y, x] != old(pixels[y, x]) ==>
          damage.Some? && Inside(damage.value, x, y)
        invariant damage.Some? ==> OnPlane(damage.value) && Within(damage.value, BODY)
      {
        TypeNext(old(doc), old(reached), ordered, i);
        var changed := WriteCharacter(ordered[i]);
        damage := Extended(damage, changed);
      }
      assert ordered[..|ordered|] == ordered;
    }

    /** Every pixel of the text area is what a full redraw of the grid would leave. */
    ghost predicate IsRedrawn()
      requires Shape()
      reads this, cells, pixels
    {
      forall y, x :: 0 <= y < 480 && 0 <= x < 640 && Body(x, y) ==> pixels[y, x] == Redrawn(cells[..], font, x, y)
    }

    lemma CoveredIsRedrawn()
      requires Valid()
      ensures IsRedrawn() <==> |doc| > 45 || reached == 74
    {
      if |doc| <= 45 && reached < 74 {
        var x, y := 24 + 8 * reached, 470;
        assert Body(x, y) && !Covered(x);
        assert (y - 66) % 9 == 8;
        assert pixels[y, x] == BACKGROUND != Redrawn(cells[..], font, x, y);
      }
    }

    /** Everything typed since the console was enabled, as the console has kept it. */
    ghost predicate Shows(text: seq<char>)
      reads this
    {
      doc == TypeAll(BLANK, text) && reached == ReachAll(BLANK, 0, text)
    }

    /** The screen of a text is what a full redraw would give if and only if the text runs past 45 lines, or its
        45th line has at some time been full: until then that row's untouched cells still show the panel's border. */
    lemma MatchesRedraw(text: seq<char>)
      requires Valid() && Shows(text)
      ensures IsRedrawn() <==> |TypeAll(BLANK, text)| > 45 || HasFilledLastRow(text)
    {
      CoveredIsRedrawn();
      ReachIsFull(text);
    }
  }

  /** The order in which the characters of a string are written. */
  function InOrder(value: seq<char>): seq<char>
  {
    if HasHebrew(value) then Reversed(value) else value
  }

  function AllInOrder(values: seq<seq<char>>): seq<char>
  {
    if values == [] then [] else AllInOrder(values[..|values| - 1]) + InOrder(values[|values| - 1])
  }

  /** Enabling the console and writing any strings: the grid is the end of their document, and the screen is a full
      redraw of it exactly when the text has scrolled or filled its 45th line. */
  method EnableAndWrite(console: Console, values: seq<seq<char>>)
    requires console.Shape()
    modifies console, console.cells, console.pixels
    ensures console.Valid() && console.doc == TypeAll(BLANK, AllInOrder(values))
    ensures console.IsRedrawn()
            <==> |TypeAll(BLANK, AllInOrder(values))| > 45 || HasFilledLastRow(AllInOrder(values))
  {
    console.Enable();
    for i := 0 to |values|
      invariant console.enabled && console.Valid() && console.Shows(AllInOrder(values[..i]))
    {
      ghost var text := AllInOrder(values[..i]);
      assert values[..i + 1][..i] == values[..i];
      TypeAllAppend(BLANK, text, InOrder(values[i]));
      ReachAllAppend(BLANK, 0, text, InOrder(values[i]));
      var damage := console.WriteStr(values[i]);
    }
    assert values[..|values|] == values;
    console.MatchesRedraw(AllInOrder(values));
  }

  /** Right after the console is enabled the lowest pixel row of the text area is not what a redraw would paint. */
  lemma FreshScreenDiffers(console: Console)
    requires console.Valid() && console.doc == [[]] && console.reached == 0
    ensures console.pixels[470, 24] != Redrawn(console.cells[..], console.font, 24, 470)
  {
    assert !console.Covered(24) && (470 - 66) % 9 == 8;
    assert console.pixels[470, 24] == console.Painted(24, 470);
  }

  predicate HasHebrew(s: seq<char>)
  {
    exists i :: 0 <= i < |s| && 0x0590 as char <= s[i] <= 0x05FF as char
  }

  function Reversed(s: seq<char>): seq<char>
  {
    if s == [] then [] else Reversed(s[1..]) + [s[0]]
  }

  lemma CellInBody(c: nat, r: nat)
    requires c < 74 && r < 45
    ensures forall x, y :: Inside(CellRegion(c, r), x, y) ==> Inside(BODY, x, y)
  {
  }
}

/**
 Sprite drawing, the body of the `Dxyn` handler in `src/chip.rs`, and
 `byte_to_enumeration`.

 The source walks the sprite rows in order and, within a row, the eight
 columns from the most significant bit down. For each set bit it looks up the
 cell at ((y + row) mod 32, (x + col) mod 64), records a collision when that
 cell is lit, and toggles the cell by XOR with all ones. `DrawPixels` and
 `DrawRows` are that double loop as a fold.

 The reference view is `SpriteCells`, the list of cells a sprite touches, and
 `Toggled`, the framebuffer with exactly those cells flipped. For sprites of at
 most 32 rows no cell is visited twice, so the fold flips exactly the cells of
 the list and reports a collision exactly when one of them was lit.
 */
module Sprite {
  import opened Bits
  import opened Framebuffer

  /** `byte_to_enumeration(b)`: `b` masked with 0x80, 0x40, ..., 0x01, for columns 0..7. */
  function ByteToEnumeration(b: Byte): (pixels: seq<Byte>)
    ensures |pixels| == 8
    ensures forall col :: 0 <= col < 8 ==> (pixels[col] != 0 <==> Bit(b, 7 - col))
  {
    var pixels := [BitAnd(b, 0x80), BitAnd(b, 0x40), BitAnd(b, 0x20), BitAnd(b, 0x10),
                   BitAnd(b, 0x08), BitAnd(b, 0x04), BitAnd(b, 0x02), BitAnd(b, 0x01)];
    MaskValues();
    forall col | 0 <= col < 8
      ensures pixels[col] != 0 <==> Bit(b, 7 - col)
    {
      BitAndMask(b, 7 - col);
    }
    pixels
  }

  lemma MaskValues()
    ensures BitMask(7) == 0x80 && BitMask(6) == 0x40 && BitMask(5) == 0x20 && BitMask(4) == 0x10
    ensures BitMask(3) == 0x08 && BitMask(2) == 0x04 && BitMask(1) == 0x02 && BitMask(0) == 0x01
  {
  }

  /** The index of one framebuffer cell. */
  type Cell = p: int | 0 <= p < VIDEO_SIZE

  /** The cell the source looks up for sprite position (`row`, `col`) drawn at (`x`, `y`): coordinates wrap. */
  function CellOf(x: nat, y: nat, row: nat, col: nat): (p: Cell)
  {
    PixelIndex((y + row) % VIDEO_HEIGHT, (x + col) % VIDEO_WIDTH)
  }

  /** The sprite row a cell belongs to, for a sprite whose top edge is at `y`. */
  function RowOf(y: nat, p: nat): int
  {
    (p / VIDEO_WIDTH - y) % VIDEO_HEIGHT
  }

  /** The sprite column a cell belongs to, for a sprite whose left edge is at `x`. */
  function ColOf(x: nat, p: nat): int
  {
    (p % VIDEO_WIDTH - x) % VIDEO_WIDTH
  }

  /** Wrapping is undone by `RowOf` and `ColOf`: distinct sprite positions give distinct cells. */
  lemma CellCoordinates(x: nat, y: nat, row: nat, col: nat)
    requires row < VIDEO_HEIGHT && col < VIDEO_WIDTH
    ensures RowOf(y, CellOf(x, y, row, col)) == row
    ensures ColOf(x, CellOf(x, y, row, col)) == col
  {
    var p := CellOf(x, y, row, col);
    assert p / VIDEO_WIDTH == (y + row) % VIDEO_HEIGHT;
    assert p % VIDEO_WIDTH == (x + col) % VIDEO_WIDTH;
  }

  /** The cells set bits of one sprite row touch, from column `col` on, in drawing order. */
  function RowCells(pixels: seq<Byte>, x: nat, y: nat, row: nat, col: nat): seq<Cell>
    requires col <= |pixels|
    decreases |pixels| - col
  {
    if col == |pixels| then []
    else (if pixels[col] != 0 then [CellOf(x, y, row, col)] else []) + RowCells(pixels, x, y, row, col + 1)
  }

  /** The cells a sprite touches, from row `row` on, in drawing order. */
  function SpriteCells(sprite: seq<Byte>, x: nat, y: nat, row: nat): seq<Cell>
    requires row <= |sprite|
    decreases |sprite| - row
  {
    if row == |sprite| then []
    else RowCells(ByteToEnumeration(sprite[row]), x, y, row, 0) + SpriteCells(sprite, x, y, row + 1)
  }

  /** One visit of a set sprite bit: note a collision when cell `p` is lit, then toggle it. */
  function Visit(buf: VideoBuf, hit: bool, p: Cell): (r: (VideoBuf, bool))
    ensures r.0[p] == buf[p] ^ ON
    ensures forall q: Cell :: q != p ==> r.0[q] == buf[q]
    ensures r.1 <==> hit || buf[p] == ON
  {
    (buf[p := buf[p] ^ ON], hit || buf[p] == ON)
  }

  /** Visit `cells` in order. */
  function ToggleFold(buf: VideoBuf, hit: bool, cells: seq<Cell>): (r: (VideoBuf, bool))
    decreases |cells|
  {
    if cells == [] then (buf, hit)
    else
      var s := Visit(buf, hit, cells[0]);
      ToggleFold(s.0, s.1, cells[1..])
  }

  /** The framebuffer with exactly the cells in `cells` toggled. */
  function Toggled(buf: VideoBuf, cells: seq<Cell>): (t: VideoBuf)
    ensures forall p :: 0 <= p < VIDEO_SIZE ==> t[p] == if p in cells then buf[p] ^ ON else buf[p]
  {
    seq(VIDEO_SIZE, p requires 0 <= p < VIDEO_SIZE => if p in cells then buf[p] ^ ON else buf[p])
  }

  /** Some cell of `cells` is lit. */
  predicate AnyLit(buf: VideoBuf, cells: seq<Cell>)
  {
    exists p :: p in cells && buf[p] == ON
  }

  /** No cell occurs twice. */
  predicate NoDup(cells: seq<Cell>)
  {
    forall i, j :: 0 <= i < j < |cells| ==> cells[i] != cells[j]
  }

  /**
   The inner loop of `Dxyn` over columns `col..7` of one row: every set pixel
   records whether its cell was lit and toggles it.
   */
  function DrawPixels(buf: VideoBuf, hit: bool, pixels: seq<Byte>, x: nat, y: nat, row: nat, col: nat): (r: (VideoBuf, bool))
    requires col <= |pixels|
    ensures r == ToggleFold(buf, hit, RowCells(pixels, x, y, row, col))
    decreases |pixels| - col
  {
    if col == |pixels| then (buf, hit)
    else
      var p := CellOf(x, y, row, col);
      var rest := RowCells(pixels, x, y, row, col + 1);
      if pixels[col] != 0 then
        assert ([p] + rest)[1..] == rest;
        var s := Visit(buf, hit, p);
        DrawPixels(s.0, s.1, pixels, x, y, row, col + 1)
      else
        assert [] + rest == rest;
        DrawPixels(buf, hit, pixels, x, y, row, col + 1)
  }

  /** The outer loop of `Dxyn` over rows `row..`. */
  function DrawRows(buf: VideoBuf, hit: bool, sprite: seq<Byte>, x: nat, y: nat, row: nat): (r: (VideoBuf, bool))
    requires row <= |sprite|
    ensures r == ToggleFold(buf, hit, SpriteCells(sprite, x, y, row))
    decreases |sprite| - row
  {
    if row == |sprite| then (buf, hit)
    else
      var r0 := DrawPixels(buf, hit, ByteToEnumeration(sprite[row]), x, y, row, 0);
      ToggleFoldAppend(buf, hit, RowCells(ByteToEnumeration(sprite[row]), x, y, row, 0), SpriteCells(sprite, x, y, row + 1));
      DrawRows(r0.0, r0.1, sprite, x, y, row + 1)
  }

  /** Folding over a concatenation folds over the first part, then the second. */
  lemma {:induction false} ToggleFoldAppend(buf: VideoBuf, hit: bool, a: seq<Cell>, b: seq<Cell>)
    ensures var r := ToggleFold(buf, hit, a); ToggleFold(buf, hit, a + b) == ToggleFold(r.0, r.1, b)
    decreases |a|
  {
    if a != [] {
      var s := Visit(buf, hit, a[0]);
      assert (a + b)[0] == a[0] && (a + b)[1..] == a[1..] + b;
      ToggleFoldAppend(s.0, s.1, a[1..], b);
    } else {
      assert a + b == b;
    }
  }

  /** Over cells that occur once each, the fold toggles exactly those cells and collides exactly when one was lit. */
  lemma {:induction false} ToggleFoldDistinct(buf: VideoBuf, hit: bool, cells: seq<Cell>)
    requires NoDup(cells)
    ensures ToggleFold(buf, hit, cells).0 == Toggled(buf, cells)
    ensures ToggleFold(buf, hit, cells).1 <==> hit || AnyLit(buf, cells)
    decreases |cells|
  {
    if cells == [] {
      assert Toggled(buf, cells) == buf;
    } else {
      var p := cells[0];
      var rest := cells[1..];
      assert cells == [p] + rest;
      HeadNotInRest(cells);
      var s := Visit(buf, hit, p);
      ToggleFoldDistinct(s.0, s.1, rest);
      ToggleOneMore(buf, p, rest);
    }
  }

  lemma HeadNotInRest(cells: seq<Cell>)
    requires cells != [] && NoDup(cells)
    ensures NoDup(cells[1..]) && cells[0] !in cells[1..]
  {
    forall j | 0 <= j < |cells[1..]|
      ensures cells[1..][j] != cells[0]
    {
      assert cells[1..][j] == cells[j + 1];
    }
  }

  /** Toggling a cell first and the remaining distinct cells after is toggling them all. */
  lemma ToggleOneMore(buf: VideoBuf, p: Cell, rest: seq<Cell>)
    requires p !in rest
    ensures Toggled(buf[p := buf[p] ^ ON], rest) == Toggled(buf, [p] + rest)
    ensures (buf[p] == ON || AnyLit(buf[p := buf[p] ^ ON], rest)) <==> AnyLit(buf, [p] + rest)
  {
    var buf' := buf[p := buf[p] ^ ON];
    forall q: Cell
      ensures Toggled(buf', rest)[q] == Toggled(buf, [p] + rest)[q]
    {
      assert q in [p] + rest <==> q == p || q in rest;
    }
    if AnyLit(buf', rest) {
      var q :| q in rest && buf'[q] == ON;
      assert q in [p] + rest && buf[q] == ON;
    }
    if AnyLit(buf, [p] + rest) && buf[p] != ON {
      var q :| q in [p] + rest && buf[q] == ON;
      assert q in rest && buf'[q] == ON;
    }
  }

  /** Every cell of a row lies in that row and at a column from `col` on; none repeats. */
  lemma {:induction false} RowCellsFacts(pixels: seq<Byte>, x: nat, y: nat, row: nat, col: nat)
    requires col <= |pixels| <= VIDEO_WIDTH && row < VIDEO_HEIGHT
    ensures forall i :: 0 <= i < |RowCells(pixels, x, y, row, col)| ==>
      var p := RowCells(pixels, x, y, row, col)[i];
      RowOf(y, p) == row && col <= ColOf(x, p) < |pixels|
    ensures NoDup(RowCells(pixels, x, y, row, col))
    decreases |pixels| - col
  {
    if col < |pixels| {
      RowCellsFacts(pixels, x, y, row, col + 1);
      CellCoordinates(x, y, row, col);
    }
  }

  /** Every cell of the rows from `row` on lies in one of those rows; none repeats. */
  lemma {:induction false} SpriteCellsFacts(sprite: seq<Byte>, x: nat, y: nat, row: nat)
    requires row <= |sprite| <= VIDEO_HEIGHT
    ensures forall i :: 0 <= i < |SpriteCells(sprite, x, y, row)| ==>
      var p := SpriteCells(sprite, x, y, row)[i];
      row <= RowOf(y, p) < |sprite|
    ensures NoDup(SpriteCells(sprite, x, y, row))
    decreases |sprite| - row
  {
    if row < |sprite| {
      var a := RowCells(ByteToEnumeration(sprite[row]), x, y, row, 0);
      var b := SpriteCells(sprite, x, y, row + 1);
      RowCellsFacts(ByteToEnumeration(sprite[row]), x, y, row, 0);
      SpriteCellsFacts(sprite, x, y, row + 1);
      assert SpriteCells(sprite, x, y, row) == a + b;
      forall i, j | 0 <= i < j < |a + b|
        ensures (a + b)[i] != (a + b)[j]
      {
        if i < |a| && j >= |a| {
          assert RowOf(y, (a + b)[i]) == row;
          assert RowOf(y, (a + b)[j]) > row;
        }
      }
    }
  }

  /**
   The whole `Dxyn` drawing loop for a sprite at (`x`, `y`): the new framebuffer
   and whether any set bit met a lit cell.
   */
  function DrawSprite(buf: VideoBuf, sprite: seq<Byte>, x: nat, y: nat): (r: (VideoBuf, bool))
    requires |sprite| <= VIDEO_HEIGHT
    ensures r.0 == Toggled(buf, SpriteCells(sprite, x, y, 0))
    ensures r.1 <==> AnyLit(buf, SpriteCells(sprite, x, y, 0))
  {
    SpriteCellsFacts(sprite, x, y, 0);
    ToggleFoldDistinct(buf, false, SpriteCells(sprite, x, y, 0));
    DrawRows(buf, false, sprite, x, y, 0)
  }

  /**
   The cells a sprite touches are exactly those of its set bits: bit `7 - col`
   of row `row` touches `CellOf(x, y, row, col)`, and every touched cell is of
   that form for the row and column `RowOf` and `ColOf` recover.
   */
  lemma {:induction false} SpriteCellsExact(sprite: seq<Byte>, x: nat, y: nat, row: nat)
    requires row <= |sprite| <= VIDEO_HEIGHT
    ensures forall r, col :: row <= r < |sprite| && 0 <= col < 8 && Bit(sprite[r], 7 - col) ==>
      CellOf(x, y, r, col) in SpriteCells(sprite, x, y, row)
    ensures forall p :: p in SpriteCells(sprite, x, y, row) ==>
      row <= RowOf(y, p) < |sprite| && 0 <= ColOf(x, p) < 8 &&
      Bit(sprite[RowOf(y, p)], 7 - ColOf(x, p)) && p == CellOf(x, y, RowOf(y, p), ColOf(x, p))
    decreases |sprite| - row
  {
    if row < |sprite| {
      SpriteCellsExact(sprite, x, y, row + 1);
      RowCellsExact(sprite[row], x, y, row, 0);
    }
  }

  lemma {:induction false} RowCellsExact(b: Byte, x: nat, y: nat, row: nat, col: nat)
    requires col <= 8 && row < VIDEO_HEIGHT
    ensures forall c :: col <= c < 8 && Bit(b, 7 - c) ==>
      CellOf(x, y, row, c) in RowCells(ByteToEnumeration(b), x, y, row, col)
    ensures forall p :: p in RowCells(ByteToEnumeration(b), x, y, row, col) ==>
      RowOf(y, p) == row && col <= ColOf(x, p) < 8 &&
      Bit(b, 7 - ColOf(x, p)) && p == CellOf(x, y, row, ColOf(x, p))
    decreases 8 - col
  {
    if col < 8 {
      RowCellsExact(b, x, y, row, col + 1);
      CellCoordinates(x, y, row, col);
    }
  }

  /** Drawing the same sprite at the same place twice restores the framebuffer. */
  lemma DrawTwiceRestores(buf: VideoBuf, sprite: seq<Byte>, x: nat, y: nat)
    requires |sprite| <= VIDEO_HEIGHT
    ensures DrawSprite(DrawSprite(buf, sprite, x, y).0, sprite, x, y).0 == buf
  {
    var once := DrawSprite(buf, sprite, x, y).0;
    var twice := DrawSprite(once, sprite, x, y).0;
    forall p | 0 <= p < VIDEO_SIZE
      ensures twice[p] == buf[p]
    {
      assert (buf[p] ^ ON) ^ ON == buf[p];
    }
  }

  /** Drawing on a framebuffer of off/on cells keeps every cell either off or on. */
  lemma DrawKeepsCanonical(v: Video, sprite: seq<Byte>, x: nat, y: nat)
    requires |sprite| <= VIDEO_HEIGHT
    ensures Canonical(v) ==> Canonical(Video(DrawSprite(v.buf, sprite, x, y).0))
  {
    if Canonical(v) {
      var buf' := DrawSprite(v.buf, sprite, x, y).0;
      forall p | 0 <= p < VIDEO_SIZE
        ensures buf'[p] == 0 || buf'[p] == ON
      {
        assert (0 as bv32) ^ ON == ON && ON ^ ON == 0;
      }
    }
  }

  /** On a framebuffer of off/on cells, a collision is reported exactly when drawing switches some cell off. */
  lemma CollisionMeansErased(v: Video, sprite: seq<Byte>, x: nat, y: nat)
    requires |sprite| <= VIDEO_HEIGHT && Canonical(v)
    ensures var r := DrawSprite(v.buf, sprite, x, y);
      r.1 <==> exists p :: 0 <= p < VIDEO_SIZE && v.buf[p] == ON && r.0[p] == 0
  {
    var r := DrawSprite(v.buf, sprite, x, y);
    var cells := SpriteCells(sprite, x, y, 0);
    if r.1 {
      var p :| p in cells && v.buf[p] == ON;
      assert r.0[p] == ON ^ ON == 0;
    }
    if exists p :: 0 <= p < VIDEO_SIZE && v.buf[p] == ON && r.0[p] == 0 {
      var p :| 0 <= p < VIDEO_SIZE && v.buf[p] == ON && r.0[p] == 0;
      assert p in cells;
    }
  }
}

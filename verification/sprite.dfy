/** The DXYN sprite draw on the 64 x 32 framebuffer.

    A sprite is a list of row bytes, each eight pixels wide with the most
    significant bit leftmost. Row `r`, column `c` of a sprite drawn at
    `(x, y)` lands on cell `(y + r) * 64 + (x + c)` of the row-major
    framebuffer. Nothing wraps per pixel: a column past the right edge
    spills into the first cells of the next line. A set sprite bit flips its
    cell by XOR with `PIXEL_COLOR`; a cell that equals `PIXEL_COLOR` just
    before it is flipped is a collision.

    `DrawCols` and `DrawRows` follow the interpreter's two nested loops step
    by step; `DrawSpec` says what the whole draw does, cell by cell, and is
    proved equal to them. */
module Sprite {
  import opened Decode

  const DISPLAY_WIDTH := 64
  const DISPLAY_HEIGHT := 32
  /** 64 * 32 cells; the index arithmetic below writes the width as the
      literal 64 so that it stays linear. */
  const DISPLAY_SIZE := 2048

  /** The value of a lit cell: every bit of the 32-bit cell set. */
  const PIXEL_COLOR: u32 := 0xFFFF_FFFF

  /** Bit `k` of `b`, counting from the least significant. */
  predicate Bit(b: nat, k: nat)
    decreases k
  {
    if k == 0 then b % 2 == 1 else Bit(b / 2, k - 1)
  }

  /** The sprite bit for column `col` of a row byte: `row & (0x80 >> col)`
      is nonzero, that is, bit `7 - col` of the row is set. Column 0 is the
      most significant bit. */
  predicate PixelOn(row: byte, col: int)
    requires 0 <= col < 8
  {
    Bit(row, 7 - col)
  }

  /** Bit `k` of `b` is the last binary digit of `b / 2^k`. */
  lemma {:induction false} BitDigit(b: nat, k: nat)
    ensures Bit(b, k) <==> b / Pow2(k) % 2 == 1
    decreases k
  {
    if k > 0 {
      BitDigit(b / 2, k - 1);
      HalveTwice(b, Pow2(k - 1));
    }
  }

  /** `d * e >= d` for a positive factor `e`. */
  lemma {:induction false} MulAtLeast(d: nat, e: nat)
    requires e >= 1
    ensures d * e >= d
    decreases e
  {
    if e > 1 {
      MulAtLeast(d, e - 1);
      assert d * e == d * (e - 1) + d;
    }
  }

  /** Division leaves a unique quotient: if `a == d * q + r` with
      `0 <= r < d`, then `a / d == q`. */
  lemma DivUnique(a: int, d: int, q: int, r: int)
    requires d > 0 && a == d * q + r && 0 <= r < d
    ensures a / d == q
  {
    var q', r' := a / d, a % d;
    assert d * (q' - q) == r - r' by {
      assert d * (q' - q) == d * q' - d * q;
    }
    if q' > q {
      MulAtLeast(d, q' - q);
    } else if q' < q {
      assert d * (q - q') == -(d * (q' - q));
      MulAtLeast(d, q - q');
    }
  }

  /** Halving and then dividing by `m` is dividing by `2 * m`. */
  lemma HalveTwice(b: nat, m: nat)
    requires m >= 1
    ensures b / 2 / m == b / (2 * m)
  {
    var q, r := b / (2 * m), b % (2 * m);
    DivUnique(b, 2, m * q + r / 2, r % 2);
    DivUnique(b / 2, m, q, r / 2);
  }

  /** `PixelOn` is the mask test of the source: `0x80 >> col` is
      `2^(7 - col)`, and `row & 2^(7 - col)` is nonzero iff that binary
      digit of `row` is 1. */
  lemma PixelOnMask(row: byte, col: int)
    requires 0 <= col < 8
    ensures Pow2(7 - col) * Pow2(col) == 0x80
    ensures PixelOn(row, col) <==> row / Pow2(7 - col) % 2 == 1
  {
    BitDigit(row, 7 - col);
    Pow2Add(7 - col, col);
    assert Pow2(2) == 4 && Pow2(4) == 16 && Pow2(6) == 64 && Pow2(7) == 0x80;
  }

  /** `2^a * 2^b == 2^(a + b)`. */
  lemma {:induction false} Pow2Add(a: nat, b: nat)
    ensures Pow2(a) * Pow2(b) == Pow2(a + b)
    decreases a
  {
    if a > 0 {
      Pow2Add(a - 1, b);
      assert Pow2(a) * Pow2(b) == 2 * (Pow2(a - 1) * Pow2(b));
    }
  }

  /** The framebuffer cell where column 0 of sprite row `r` lands. */
  function RowStart(x: int, y: int, r: int): int
  {
    (y + r) * 64 + x
  }

  /** A sprite of `n` rows at `(x, y)` (already reduced modulo the screen
      size) addresses only cells of the framebuffer. The interpreter does not
      check this: drawing outside is undefined behaviour. */
  predicate Fits(x: int, y: int, n: int)
  {
    n == 0 || RowStart(x, y, n - 1) + 7 < DISPLAY_SIZE
  }

  /** Bitwise exclusive or of two naturals, one bit at a time from the
      least significant. */
  function Xor(a: nat, b: nat): nat
    decreases a + b
  {
    if a == 0 && b == 0 then 0
    else 2 * Xor(a / 2, b / 2) + (if a % 2 == b % 2 then 0 else 1)
  }

  /** `2^k`. */
  function Pow2(k: nat): (p: nat)
    ensures p >= 1
  {
    if k == 0 then 1 else 2 * Pow2(k - 1)
  }

  /** What drawing a set sprite bit does to the cell under it:
      `display[i] ^= PIXEL_COLOR`. Since `PIXEL_COLOR` has all 32 bits set,
      the exclusive or flips every bit, which on a 32-bit cell is
      subtraction from `PIXEL_COLOR` (`ToggleIsXor`). */
  function Toggle(v: u32): (t: u32)
    ensures t != v
    ensures v == 0 <==> t == PIXEL_COLOR
    ensures v == PIXEL_COLOR <==> t == 0
  {
    PIXEL_COLOR - v
  }

  /** Exclusive or with the all-ones `k`-bit number complements a `k`-bit
      number. */
  lemma {:induction false} XorAllOnes(v: nat, k: nat)
    requires v < Pow2(k)
    ensures Xor(v, Pow2(k) - 1) == Pow2(k) - 1 - v
  {
    if k > 0 {
      XorAllOnes(v / 2, k - 1);
      assert Pow2(k) - 1 == 2 * (Pow2(k - 1) - 1) + 1;
    }
  }

  /** `Toggle` is `^ PIXEL_COLOR`. */
  lemma ToggleIsXor(v: u32)
    ensures Toggle(v) == Xor(v, PIXEL_COLOR)
  {
    assert Pow2(8) == 0x100;
    assert Pow2(16) == 0x1_0000;
    assert Pow2(24) == 0x100_0000;
    assert Pow2(32) == 0x1_0000_0000;
    XorAllOnes(v, 32);
  }

  /** A framebuffer together with the collision flag accumulated so far. */
  datatype Canvas = Canvas(cells: seq<u32>, collided: bool)

  /** The inner loop: columns 0 .. k-1 of sprite row `row` drawn from cell
      `start`, each set bit toggling its cell and noting a collision when the
      cell was lit. */
  function DrawCols(c: Canvas, row: byte, start: nat, k: nat): (r: Canvas)
    requires k <= 8 && start + 8 <= |c.cells|
    ensures |r.cells| == |c.cells|
    decreases k
  {
    if k == 0 then c
    else
      var p := DrawCols(c, row, start, k - 1);
      var i := start + k - 1;
      if PixelOn(row, k - 1) then
        Canvas(p.cells[i := Toggle(p.cells[i])], p.collided || p.cells[i] == PIXEL_COLOR)
      else p
  }

  /** The outer loop: the rows of `sprite` drawn one after the other, row
      `r` starting at `RowStart(x, y, r)`. */
  function DrawRows(c: Canvas, x: nat, y: nat, sprite: seq<byte>): (r: Canvas)
    requires |c.cells| == DISPLAY_SIZE && Fits(x, y, |sprite|)
    ensures |r.cells| == DISPLAY_SIZE
    decreases |sprite|
  {
    if sprite == [] then c
    else
      var n := |sprite| - 1;
      DrawCols(DrawRows(c, x, y, sprite[..n]), sprite[n], RowStart(x, y, n), 8)
  }

  /** Drawing the first `k + 1` rows is drawing the first `k` and then row
      `k`: the step the outer loop takes. */
  lemma DrawRowsNext(c: Canvas, x: nat, y: nat, sprite: seq<byte>, k: nat)
    requires |c.cells| == DISPLAY_SIZE && Fits(x, y, |sprite|) && k < |sprite|
    ensures Fits(x, y, k) && Fits(x, y, k + 1)
    ensures DrawRows(c, x, y, sprite[..k + 1])
            == DrawCols(DrawRows(c, x, y, sprite[..k]), sprite[k], RowStart(x, y, k), 8)
  {
    assert sprite[..k + 1][..k] == sprite[..k];
  }

  /** The rows `k ..` of `sprite` drawn on top of `c`: what the outer loop
      still has to do once rows `0 .. k-1` are drawn. */
  function DrawFrom(c: Canvas, x: nat, y: nat, sprite: seq<byte>, k: nat): (r: Canvas)
    requires |c.cells| == DISPLAY_SIZE && Fits(x, y, |sprite|) && k <= |sprite|
    ensures |r.cells| == DISPLAY_SIZE
    decreases |sprite| - k
  {
    if k == |sprite| then c
    else DrawFrom(DrawCols(c, sprite[k], RowStart(x, y, k), 8), x, y, sprite, k + 1)
  }

  /** One row further. */
  lemma DrawFromNext(c: Canvas, x: nat, y: nat, sprite: seq<byte>, k: nat)
    requires |c.cells| == DISPLAY_SIZE && Fits(x, y, |sprite|) && k < |sprite|
    ensures DrawFrom(c, x, y, sprite, k) == DrawFrom(DrawCols(c, sprite[k], RowStart(x, y, k), 8), x, y, sprite, k + 1)
  {
  }

  /** Drawing the first `k` rows and then the rest is drawing the whole
      sprite. */
  lemma {:induction false} DrawFromRows(c: Canvas, x: nat, y: nat, sprite: seq<byte>, k: nat)
    requires |c.cells| == DISPLAY_SIZE && Fits(x, y, |sprite|) && k <= |sprite|
    ensures Fits(x, y, k) && DrawFrom(DrawRows(c, x, y, sprite[..k]), x, y, sprite, k) == DrawRows(c, x, y, sprite)
    decreases |sprite| - k
  {
    if k == |sprite| {
      assert sprite[..k] == sprite;
    } else {
      DrawRowsNext(c, x, y, sprite, k);
      DrawFromRows(c, x, y, sprite, k + 1);
    }
  }

  /** The whole draw is `DrawFrom` row 0. */
  lemma DrawFromStart(cells: seq<u32>, x: nat, y: nat, sprite: seq<byte>)
    requires |cells| == DISPLAY_SIZE && Fits(x, y, |sprite|)
    ensures DrawFrom(Canvas(cells, false), x, y, sprite, 0) == Draw(cells, x, y, sprite)
  {
    DrawFromRows(Canvas(cells, false), x, y, sprite, 0);
    assert sprite[..0] == [];
  }

  /** Cell `i` is covered by a set bit of `sprite` drawn at `(x, y)`. Since
      a sprite row is narrower than a screen line, the row and column that
      reach cell `i` are the quotient and remainder of its distance from the
      sprite's first cell. */
  predicate Hit(x: int, y: int, sprite: seq<byte>, i: int)
  {
    var d := i - RowStart(x, y, 0);
    0 <= d && d / 64 < |sprite| && d % 64 < 8
    && PixelOn(sprite[d / 64], d % 64)
  }

  /** What drawing does, stated cell by cell: exactly the hit cells are
      toggled, and a collision is reported iff one of them was lit. */
  ghost predicate DrawSpec(before: Canvas, x: int, y: int, sprite: seq<byte>, after: Canvas)
  {
    |after.cells| == |before.cells|
    && (forall i :: 0 <= i < |before.cells| ==>
          after.cells[i] == if Hit(x, y, sprite, i) then Toggle(before.cells[i]) else before.cells[i])
    && (after.collided <==>
          before.collided || exists i :: 0 <= i < |before.cells| && Hit(x, y, sprite, i) && before.cells[i] == PIXEL_COLOR)
  }

  /** The whole DXYN draw on framebuffer `cells`: the collision flag starts
      cleared. */
  function Draw(cells: seq<u32>, x: nat, y: nat, sprite: seq<byte>): (r: Canvas)
    requires |cells| == DISPLAY_SIZE && Fits(x, y, |sprite|)
    ensures |r.cells| == DISPLAY_SIZE
  {
    DrawRows(Canvas(cells, false), x, y, sprite)
  }

  /** One pass of the inner loop toggles exactly the cells of the set bits of
      `row` among its first `k` columns. */
  lemma {:induction false} DrawColsCells(c: Canvas, row: byte, start: nat, k: nat, i: int)
    requires k <= 8 && start + 8 <= |c.cells| && 0 <= i < |c.cells|
    ensures DrawCols(c, row, start, k).cells[i]
            == if start <= i < start + k && PixelOn(row, i - start) then Toggle(c.cells[i]) else c.cells[i]
    decreases k
  {
    if k > 0 {
      DrawColsCells(c, row, start, k - 1, i);
    }
  }

  /** A set bit among the first `k` columns of `row` that falls on a lit
      cell, the columns starting at cell `start`. */
  ghost predicate LitUnder(cells: seq<u32>, row: byte, start: nat, k: nat)
  {
    exists j :: 0 <= j < k && j < 8 && PixelOn(row, j) && start + j < |cells| && cells[start + j] == PIXEL_COLOR
  }

  /** Widening the columns considered by one adds that column. */
  lemma LitUnderNext(cells: seq<u32>, row: byte, start: nat, k: nat)
    requires k < 8 && start + 8 <= |cells|
    ensures LitUnder(cells, row, start, k + 1)
            <==> LitUnder(cells, row, start, k) || (PixelOn(row, k) && cells[start + k] == PIXEL_COLOR)
  {
    if LitUnder(cells, row, start, k + 1) {
      var j :| 0 <= j < k + 1 && j < 8 && PixelOn(row, j) && start + j < |cells| && cells[start + j] == PIXEL_COLOR;
      if j < k {
        assert LitUnder(cells, row, start, k);
      }
    }
  }

  /** One pass of the inner loop collides iff a set bit among its first `k`
      columns falls on a lit cell. */
  lemma {:induction false} DrawColsCollides(c: Canvas, row: byte, start: nat, k: nat)
    requires k <= 8 && start + 8 <= |c.cells|
    ensures DrawCols(c, row, start, k).collided <==> c.collided || LitUnder(c.cells, row, start, k)
    decreases k
  {
    if k > 0 {
      DrawColsCollides(c, row, start, k - 1);
      DrawColsAhead(c, row, start, k - 1);
      LitUnderNext(c.cells, row, start, k - 1);
    }
  }

  /** The first `k` columns leave the cell of column `k` alone. */
  lemma DrawColsAhead(c: Canvas, row: byte, start: nat, k: nat)
    requires k < 8 && start + 8 <= |c.cells|
    ensures DrawCols(c, row, start, k).cells[start + k] == c.cells[start + k]
  {
    DrawColsCells(c, row, start, k, start + k);
  }

  /** Quotient and remainder of a distance into sprite row `r`. */
  lemma RowColumn(d: int, r: int, col: int)
    requires 0 <= r && 0 <= col < 64 && d == r * 64 + col
    ensures d / 64 == r && d % 64 == col
  {
  }

  /** A cell is hit by a sprite iff it is hit by all rows but the last, or
      by a set bit of the last row; never by both. */
  lemma HitSplit(x: nat, y: nat, sprite: seq<byte>, i: int)
    requires sprite != []
    ensures var n := |sprite| - 1; var start := RowStart(x, y, n);
      && (Hit(x, y, sprite, i) <==> Hit(x, y, sprite[..n], i) || (start <= i < start + 8 && PixelOn(sprite[n], i - start)))
      && (start <= i < start + 8 ==> !Hit(x, y, sprite[..n], i))
  {
    var n := |sprite| - 1;
    var start := RowStart(x, y, n);
    var d := i - RowStart(x, y, 0);
    if start <= i < start + 8 {
      RowColumn(d, n, i - start);
    } else if 0 <= d && d / 64 < n {
      assert sprite[d / 64] == sprite[..n][d / 64];
    }
  }

  /** The nested loops toggle exactly the hit cells. */
  lemma {:induction false} DrawRowsCells(c: Canvas, x: nat, y: nat, sprite: seq<byte>, i: int)
    requires |c.cells| == DISPLAY_SIZE && Fits(x, y, |sprite|) && 0 <= i < DISPLAY_SIZE
    ensures DrawRows(c, x, y, sprite).cells[i] == if Hit(x, y, sprite, i) then Toggle(c.cells[i]) else c.cells[i]
    decreases |sprite|
  {
    if sprite != [] {
      var n := |sprite| - 1;
      var start := RowStart(x, y, n);
      DrawRowsCells(c, x, y, sprite[..n], i);
      DrawColsCells(DrawRows(c, x, y, sprite[..n]), sprite[n], start, 8, i);
      HitSplit(x, y, sprite, i);
    }
  }

  /** A lit cell hit by the sprite drawn at `(x, y)`. */
  ghost predicate LitHit(cells: seq<u32>, x: nat, y: nat, sprite: seq<byte>)
  {
    exists i :: 0 <= i < |cells| && Hit(x, y, sprite, i) && cells[i] == PIXEL_COLOR
  }

  /** A lit cell hit by the first rows of a sprite is hit by the whole
      sprite. */
  lemma CollisionInFront(c: Canvas, x: nat, y: nat, sprite: seq<byte>)
    requires |c.cells| == DISPLAY_SIZE && sprite != []
    requires LitHit(c.cells, x, y, sprite[..|sprite| - 1])
    ensures LitHit(c.cells, x, y, sprite)
  {
    var i :| 0 <= i < |c.cells| && Hit(x, y, sprite[..|sprite| - 1], i) && c.cells[i] == PIXEL_COLOR;
    HitSplit(x, y, sprite, i);
  }

  /** `after` differs from `before` only on cells hit by `sprite`. */
  ghost predicate Untouched(before: seq<u32>, after: seq<u32>, x: nat, y: nat, sprite: seq<byte>)
  {
    |after| == |before|
    && forall i :: 0 <= i < |before| && !Hit(x, y, sprite, i) ==> after[i] == before[i]
  }

  /** The nested loops leave every cell they do not hit alone. */
  lemma DrawRowsUntouched(c: Canvas, x: nat, y: nat, sprite: seq<byte>)
    requires |c.cells| == DISPLAY_SIZE && Fits(x, y, |sprite|)
    ensures Untouched(c.cells, DrawRows(c, x, y, sprite).cells, x, y, sprite)
  {
    forall i | 0 <= i < |c.cells| && !Hit(x, y, sprite, i)
      ensures DrawRows(c, x, y, sprite).cells[i] == c.cells[i]
    {
      DrawRowsCells(c, x, y, sprite, i);
    }
  }

  /** A collision of the last row happens on a cell the earlier rows left
      alone (`p` is the framebuffer they leave), so that cell was lit before
      the draw and is hit by the sprite. */
  lemma CollisionInLast(cells: seq<u32>, p: seq<u32>, x: nat, y: nat, sprite: seq<byte>)
    requires |cells| == DISPLAY_SIZE && sprite != []
    requires Untouched(cells, p, x, y, sprite[..|sprite| - 1])
    requires LitUnder(p, sprite[|sprite| - 1], RowStart(x, y, |sprite| - 1), 8)
    ensures LitHit(cells, x, y, sprite)
  {
    var n := |sprite| - 1;
    var start := RowStart(x, y, n);
    var j :| 0 <= j < 8 && PixelOn(sprite[n], j) && start + j < |p| && p[start + j] == PIXEL_COLOR;
    var i := start + j;
    HitSplit(x, y, sprite, i);
    assert PixelOn(sprite[n], i - start);
    assert Hit(x, y, sprite, i) && !Hit(x, y, sprite[..n], i);
    assert cells[i] == PIXEL_COLOR;
  }

  /** A lit cell hit by the sprite is hit by its first rows, or by a set bit
      of its last row that finds the cell still lit in the framebuffer `p`
      the first rows leave. */
  lemma CollisionSomewhere(cells: seq<u32>, p: seq<u32>, x: nat, y: nat, sprite: seq<byte>)
    requires |cells| == DISPLAY_SIZE && sprite != []
    requires Untouched(cells, p, x, y, sprite[..|sprite| - 1])
    requires LitHit(cells, x, y, sprite)
    ensures LitHit(cells, x, y, sprite[..|sprite| - 1])
            || LitUnder(p, sprite[|sprite| - 1], RowStart(x, y, |sprite| - 1), 8)
  {
    var n := |sprite| - 1;
    var start := RowStart(x, y, n);
    var i :| 0 <= i < |cells| && Hit(x, y, sprite, i) && cells[i] == PIXEL_COLOR;
    HitSplit(x, y, sprite, i);
    if !Hit(x, y, sprite[..n], i) {
      assert PixelOn(sprite[n], i - start) && p[start + (i - start)] == PIXEL_COLOR;
    }
  }

  /** The last row collides iff the rows before it did or one of its set
      bits finds a lit cell. */
  lemma LastRowCollides(c: Canvas, x: nat, y: nat, sprite: seq<byte>)
    requires |c.cells| == DISPLAY_SIZE && Fits(x, y, |sprite|) && sprite != []
    ensures var n := |sprite| - 1; var p := DrawRows(c, x, y, sprite[..n]);
      DrawRows(c, x, y, sprite).collided <==> p.collided || LitUnder(p.cells, sprite[n], RowStart(x, y, n), 8)
  {
    var n := |sprite| - 1;
    DrawColsCollides(DrawRows(c, x, y, sprite[..n]), sprite[n], RowStart(x, y, n), 8);
  }

  /** The nested loops collide iff a hit cell was lit. */
  lemma {:induction false} DrawRowsCollides(c: Canvas, x: nat, y: nat, sprite: seq<byte>)
    requires |c.cells| == DISPLAY_SIZE && Fits(x, y, |sprite|)
    ensures DrawRows(c, x, y, sprite).collided <==> c.collided || LitHit(c.cells, x, y, sprite)
    decreases |sprite|
  {
    if sprite != [] {
      var n := |sprite| - 1;
      var start := RowStart(x, y, n);
      var p := DrawRows(c, x, y, sprite[..n]);
      DrawRowsCollides(c, x, y, sprite[..n]);
      LastRowCollides(c, x, y, sprite);
      DrawRowsUntouched(c, x, y, sprite[..n]);
      if LitHit(c.cells, x, y, sprite[..n]) {
        CollisionInFront(c, x, y, sprite);
      }
      if LitUnder(p.cells, sprite[n], start, 8) {
        CollisionInLast(c.cells, p.cells, x, y, sprite);
      }
      if LitHit(c.cells, x, y, sprite) {
        CollisionSomewhere(c.cells, p.cells, x, y, sprite);
      }
    }
  }

  /** The nested loops meet `DrawSpec`. */
  lemma DrawRowsSpec(c: Canvas, x: nat, y: nat, sprite: seq<byte>)
    requires |c.cells| == DISPLAY_SIZE && Fits(x, y, |sprite|)
    ensures DrawSpec(c, x, y, sprite, DrawRows(c, x, y, sprite))
  {
    forall i | 0 <= i < DISPLAY_SIZE
      ensures DrawRows(c, x, y, sprite).cells[i] == if Hit(x, y, sprite, i) then Toggle(c.cells[i]) else c.cells[i]
    {
      DrawRowsCells(c, x, y, sprite, i);
    }
    DrawRowsCollides(c, x, y, sprite);
  }

  /** The DXYN draw meets `DrawSpec`, starting with no collision. */
  lemma DrawMeetsSpec(cells: seq<u32>, x: nat, y: nat, sprite: seq<byte>)
    requires |cells| == DISPLAY_SIZE && Fits(x, y, |sprite|)
    ensures DrawSpec(Canvas(cells, false), x, y, sprite, Draw(cells, x, y, sprite))
  {
    DrawRowsSpec(Canvas(cells, false), x, y, sprite);
  }

  /** Every cell is dark (0) or lit (`PIXEL_COLOR`). */
  ghost predicate Monochrome(cells: seq<u32>)
  {
    forall i :: 0 <= i < |cells| ==> cells[i] == 0 || cells[i] == PIXEL_COLOR
  }

  /** Drawing changes exactly the cells covered by set sprite bits. */
  lemma ChangesExactlyHits(cells: seq<u32>, x: nat, y: nat, sprite: seq<byte>, i: int)
    requires |cells| == DISPLAY_SIZE && Fits(x, y, |sprite|) && 0 <= i < DISPLAY_SIZE
    ensures Draw(cells, x, y, sprite).cells[i] != cells[i] <==> Hit(x, y, sprite, i)
  {
    DrawMeetsSpec(cells, x, y, sprite);
  }

  /** Drawing keeps a monochrome framebuffer monochrome. */
  lemma DrawKeepsMonochrome(cells: seq<u32>, x: nat, y: nat, sprite: seq<byte>)
    requires |cells| == DISPLAY_SIZE && Fits(x, y, |sprite|) && Monochrome(cells)
    ensures Monochrome(Draw(cells, x, y, sprite).cells)
  {
    DrawMeetsSpec(cells, x, y, sprite);
  }

  /** XOR drawing is its own inverse: drawing the same sprite at the same
      place twice restores the framebuffer. */
  lemma DrawTwiceRestores(cells: seq<u32>, x: nat, y: nat, sprite: seq<byte>)
    requires |cells| == DISPLAY_SIZE && Fits(x, y, |sprite|)
    ensures Draw(Draw(cells, x, y, sprite).cells, x, y, sprite).cells == cells
  {
    var once := Draw(cells, x, y, sprite).cells;
    var twice := Draw(once, x, y, sprite).cells;
    DrawMeetsSpec(cells, x, y, sprite);
    DrawMeetsSpec(once, x, y, sprite);
    assert forall i :: 0 <= i < DISPLAY_SIZE ==> twice[i] == cells[i];
  }

  /** On a monochrome framebuffer the second of two identical draws collides
      iff some set sprite bit fell on a cell that was dark before the first
      draw (the first draw lit it). */
  lemma SecondDrawCollides(cells: seq<u32>, x: nat, y: nat, sprite: seq<byte>)
    requires |cells| == DISPLAY_SIZE && Fits(x, y, |sprite|) && Monochrome(cells)
    ensures Draw(Draw(cells, x, y, sprite).cells, x, y, sprite).collided
            <==> exists i :: 0 <= i < DISPLAY_SIZE && Hit(x, y, sprite, i) && cells[i] == 0
  {
    var once := Draw(cells, x, y, sprite).cells;
    DrawMeetsSpec(cells, x, y, sprite);
    DrawMeetsSpec(once, x, y, sprite);
    if exists i :: 0 <= i < DISPLAY_SIZE && Hit(x, y, sprite, i) && cells[i] == 0 {
      var i :| 0 <= i < DISPLAY_SIZE && Hit(x, y, sprite, i) && cells[i] == 0;
      assert once[i] == PIXEL_COLOR;
    }
  }
}

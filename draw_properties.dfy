/** Properties of DRW. While neither coordinate register is VF, nothing a draw reads
    to place or choose its pixels (RAM, I, Vx, Vy) changes during the draw, so the draw
    is a fixed sequence of XORs into the display: these lemmas say which, when it
    faults, what VF ends up as, and that a second identical draw undoes the first and
    what VF it reports. */
module DrawProperties {
  import opened MachineState
  import opened Semantics

  /** What a draw reads besides the display: memory, I and the two coordinates. */
  datatype Sprite = Sprite(ram: seq<bv8>, index: u16, vx: bv8, vy: bv8)

  function SpriteAt(m: Machine, x: nat, y: nat): (s: Sprite)
    requires m.Valid() && x < REGISTER_COUNT && y < REGISTER_COUNT
  {
    Sprite(m.ram, m.index, m.v[x], m.v[y])
  }

  /** The pixel in row `r`, column `c` has its sprite row in memory and its target inside
      the display. */
  predicate PixelFits(s: Sprite, r: nat, c: nat)
    requires r < 16 && c < 8
  {
    s.index + r < |s.ram| && PixelIndex(s.vx, s.vy, r, c) < DISPLAY_SIZE
  }

  /** Every pixel before row `i`, column `j` (in the order the loops visit them) fits. */
  predicate Fits(s: Sprite, i: nat, j: nat)
    requires i < 16 && j <= 8
  {
    forall r, c :: 0 <= r < 16 && 0 <= c < 8 && 8 * r + c < 8 * i + j ==> PixelFits(s, r, c)
  }

  /** The sprite bit of the pixel in row `r`, column `c`. */
  function Bit(s: Sprite, r: nat, c: nat): (b: bv8)
    requires r < 16 && c < 8 && s.index + r < |s.ram|
  {
    SpriteBit(s.ram[s.index + r], c)
  }

  /** The display `d` with the sprite bits of the pixels before row `i`, column `j` XORed
      in, in order. */
  function Painted(s: Sprite, d: seq<bv8>, i: nat, j: nat): (p: seq<bv8>)
    requires |d| == DISPLAY_SIZE && i < 16 && j <= 8 && Fits(s, i, j)
    ensures |p| == DISPLAY_SIZE
    decreases i, j
  {
    if j == 0 then
      if i == 0 then d else Painted(s, d, i - 1, 8)
    else
      assert PixelFits(s, i, j - 1);
      var p := Painted(s, d, i, j - 1);
      var t := PixelIndex(s.vx, s.vy, i, j - 1);
      p[t := p[t] ^ Bit(s, i, j - 1)]
  }

  /** The XOR of the sprite bits, among the pixels before row `i`, column `j`, that land on
      display cell `t`. */
  function Mask(s: Sprite, i: nat, j: nat, t: nat): (mask: bv8)
    requires i < 16 && j <= 8 && Fits(s, i, j)
    decreases i, j
  {
    if j == 0 then
      if i == 0 then 0 else Mask(s, i - 1, 8, t)
    else
      assert PixelFits(s, i, j - 1);
      Mask(s, i, j - 1, t) ^ (if PixelIndex(s.vx, s.vy, i, j - 1) == t then Bit(s, i, j - 1) else 0)
  }

  /** The pixel in row `r`, column `c` counts as a collision: its sprite bit equals the
      display pixel it lands on, as the earlier pixels of the same draw left that pixel. */
  predicate Collides(s: Sprite, d: seq<bv8>, r: nat, c: nat)
    requires |d| == DISPLAY_SIZE && r < 16 && c < 8 && Fits(s, r, c + 1)
  {
    assert PixelFits(s, r, c);
    Bit(s, r, c) == Painted(s, d, r, c)[PixelIndex(s.vx, s.vy, r, c)]
  }

  /** VF as the loops leave it just before row `i`, column `j`: cleared before the first
      pixel, set by each pixel that collides, otherwise kept. */
  function CollisionFlag(s: Sprite, d: seq<bv8>, i: nat, j: nat): (flag: bv8)
    requires |d| == DISPLAY_SIZE && i < 16 && j <= 8 && Fits(s, i, j)
    decreases i, j
  {
    if j == 0 then
      if i == 0 then 0 else CollisionFlag(s, d, i - 1, 8)
    else if Collides(s, d, i, j - 1) then 1
    else CollisionFlag(s, d, i, j - 1)
  }

  /** The flag is 1 exactly when some pixel before row `i`, column `j` collided, and 0
      otherwise. */
  lemma {:induction false} CollisionFlagMeansSomeCollision(s: Sprite, d: seq<bv8>, i: nat, j: nat)
    requires |d| == DISPLAY_SIZE && i < 16 && j <= 8 && Fits(s, i, j)
    ensures CollisionFlag(s, d, i, j) == 1 <==>
              exists r, c :: 0 <= r < 16 && 0 <= c < 8 && 8 * r + c < 8 * i + j && Collides(s, d, r, c)
    ensures CollisionFlag(s, d, i, j) <= 1
    decreases i, j
  {
    if j == 0 {
      if i > 0 {
        CollisionFlagMeansSomeCollision(s, d, i - 1, 8);
      }
    } else {
      CollisionFlagMeansSomeCollision(s, d, i, j - 1);
      if CollisionFlag(s, d, i, j) == 1 && !Collides(s, d, i, j - 1) {
        var r, c :| 0 <= r < 16 && 0 <= c < 8 && 8 * r + c < 8 * i + j - 1 && Collides(s, d, r, c);
      }
      if !Collides(s, d, i, j - 1) && CollisionFlag(s, d, i, j) != 1 {
        forall r, c | 0 <= r < 16 && 0 <= c < 8 && 8 * r + c < 8 * i + j
          ensures !Collides(s, d, r, c)
        {
          if 8 * r + c == 8 * i + j - 1 {
            assert r == i && c == j - 1;
          }
        }
      }
    }
  }

  /** `m'` agrees with `m` everywhere except the display and VF. */
  predicate OnlyDisplayAndFlag(m: Machine, m': Machine)
    requires m.Valid() && m'.Valid()
  {
    && m'.ram == m.ram && m'.index == m.index && m'.pc == m.pc && m'.stack == m.stack
    && m'.soundTimer == m.soundTimer && m'.delayTimer == m.delayTimer
    && m'.v[..VF] == m.v[..VF]
  }

  /** One pixel of the loops, in terms of the sprite: it succeeds exactly when the pixel
      fits, XORs the pixel's bit into its target, sets VF on a collision and changes
      nothing else. */
  lemma DrawPixelEffect(p: Machine, x: nat, y: nat, i: nat, j: nat)
    requires p.Valid() && x < REGISTER_COUNT && y < REGISTER_COUNT && i < 16 && j < 8
    ensures DrawPixel(p, x, y, i, j).result.Ok? <==> PixelFits(SpriteAt(p, x, y), i, j)
    ensures OnlyDisplayAndFlag(p, DrawPixel(p, x, y, i, j).next)
    ensures PixelFits(SpriteAt(p, x, y), i, j) ==>
              var s, t := SpriteAt(p, x, y), PixelIndex(p.v[x], p.v[y], i, j);
              && DrawPixel(p, x, y, i, j).next.display == p.display[t := p.display[t] ^ Bit(s, i, j)]
              && DrawPixel(p, x, y, i, j).next.v[VF] == if Bit(s, i, j) == p.display[t] then 1 else p.v[VF]
  {
    assert DrawPixel(p, x, y, i, j).next.v[..VF] == p.v[..VF];
  }

  /** One more pixel fits exactly when the earlier ones and it do. */
  lemma FitsStep(s: Sprite, i: nat, j: nat)
    requires i < 16 && 0 < j <= 8
    ensures Fits(s, i, j) <==> Fits(s, i, j - 1) && PixelFits(s, i, j - 1)
  {
    if Fits(s, i, j - 1) && PixelFits(s, i, j - 1) {
      forall r, c | 0 <= r < 16 && 0 <= c < 8 && 8 * r + c < 8 * i + j
        ensures PixelFits(s, r, c)
      {
      }
    }
  }

  /** A draw writes no register but VF, whatever the coordinate registers. */
  lemma {:induction false} DrawPrefixKeepsRegisters(m: Machine, x: nat, y: nat, i: nat, j: nat)
    requires m.Valid() && x < REGISTER_COUNT && y < REGISTER_COUNT && i < 16 && j <= 8
    ensures DrawPrefix(m, x, y, i, j).next.v[..VF] == m.v[..VF]
    decreases i, j
  {
    if j > 0 {
      DrawPrefixKeepsRegisters(m, x, y, i, j - 1);
      var t := DrawPrefix(m, x, y, i, j - 1);
      if t.result.Ok? {
        assert DrawPixel(t.next, x, y, i, j - 1).next.v[..VF] == t.next.v[..VF];
      }
    } else if i > 0 {
      DrawPrefixKeepsRegisters(m, x, y, i - 1, 8);
    } else {
      assert m.v[VF := 0][..VF] == m.v[..VF];
    }
  }

  /** While neither coordinate register is VF, the sprite a draw reads stays the same. */
  lemma SpriteKept(m: Machine, x: nat, y: nat, i: nat, j: nat)
    requires m.Valid() && x < VF && y < VF && i < 16 && j <= 8
    ensures OnlyDisplayAndFlag(m, DrawPrefix(m, x, y, i, j).next)
    ensures SpriteAt(DrawPrefix(m, x, y, i, j).next, x, y) == SpriteAt(m, x, y)
  {
    DrawPrefixFrame(m, x, y, i, j);
    DrawPrefixKeepsRegisters(m, x, y, i, j);
    var p := DrawPrefix(m, x, y, i, j).next;
    assert p.v[x] == p.v[..VF][x] == m.v[..VF][x] == m.v[x];
    assert p.v[y] == p.v[..VF][y] == m.v[..VF][y] == m.v[y];
  }

  /** The draw up to row `i`, column `j` succeeds exactly when the pixels before that all
      fit. */
  lemma {:induction false} DrawPrefixSucceeds(m: Machine, x: nat, y: nat, i: nat, j: nat)
    requires m.Valid() && x < VF && y < VF && i < 16 && j <= 8
    ensures DrawPrefix(m, x, y, i, j).result.Ok? <==> Fits(SpriteAt(m, x, y), i, j)
    decreases i, j
  {
    var s := SpriteAt(m, x, y);
    if j == 0 {
      if i > 0 {
        DrawPrefixSucceeds(m, x, y, i - 1, 8);
        assert Fits(s, i, 0) == Fits(s, i - 1, 8);
      }
      return;
    }
    DrawPrefixSucceeds(m, x, y, i, j - 1);
    FitsStep(s, i, j);
    var t := DrawPrefix(m, x, y, i, j - 1);
    if t.result.Ok? {
      SpriteKept(m, x, y, i, j - 1);
      DrawPixelEffect(t.next, x, y, i, j - 1);
    }
  }

  /** After a successful draw up to row `i`, column `j`, the display is the XOR-painted
      one. */
  lemma {:induction false} DrawPrefixPaints(m: Machine, x: nat, y: nat, i: nat, j: nat)
    requires m.Valid() && x < VF && y < VF && i < 16 && j <= 8
    requires Fits(SpriteAt(m, x, y), i, j)
    ensures DrawPrefix(m, x, y, i, j).next.display == Painted(SpriteAt(m, x, y), m.display, i, j)
    decreases i, j
  {
    var s := SpriteAt(m, x, y);
    if j == 0 {
      if i > 0 {
        assert Fits(s, i - 1, 8) == Fits(s, i, 0);
        DrawPrefixPaints(m, x, y, i - 1, 8);
      }
      return;
    }
    FitsStep(s, i, j);
    DrawPrefixPaints(m, x, y, i, j - 1);
    DrawPrefixSucceeds(m, x, y, i, j - 1);
    SpriteKept(m, x, y, i, j - 1);
    DrawPixelEffect(DrawPrefix(m, x, y, i, j - 1).next, x, y, i, j - 1);
  }

  /** After a successful draw up to row `i`, column `j`, VF is the collision flag. */
  lemma {:induction false} DrawPrefixFlags(m: Machine, x: nat, y: nat, i: nat, j: nat)
    requires m.Valid() && x < VF && y < VF && i < 16 && j <= 8
    requires Fits(SpriteAt(m, x, y), i, j)
    ensures DrawPrefix(m, x, y, i, j).next.v[VF] == CollisionFlag(SpriteAt(m, x, y), m.display, i, j)
    decreases i, j
  {
    var s := SpriteAt(m, x, y);
    if j == 0 {
      if i > 0 {
        assert Fits(s, i - 1, 8) == Fits(s, i, 0);
        DrawPrefixFlags(m, x, y, i - 1, 8);
        assert CollisionFlag(s, m.display, i - 1, 8) == CollisionFlag(s, m.display, i, 0);
      }
      return;
    }
    FitsStep(s, i, j);
    DrawPrefixFlags(m, x, y, i, j - 1);
    DrawPrefixPaints(m, x, y, i, j - 1);
    DrawPrefixSucceeds(m, x, y, i, j - 1);
    SpriteKept(m, x, y, i, j - 1);
    var p := DrawPrefix(m, x, y, i, j - 1).next;
    assert DrawPrefix(m, x, y, i, j) == DrawPixel(p, x, y, i, j - 1);
    DrawPixelEffect(p, x, y, i, j - 1);
    var u := PixelIndex(s.vx, s.vy, i, j - 1);
    assert DrawPixel(p, x, y, i, j - 1).next.v[VF] == if Bit(s, i, j - 1) == p.display[u] then 1 else p.v[VF];
    assert Collides(s, m.display, i, j - 1) == (Bit(s, i, j - 1) == p.display[u]);
  }

  /** The draw up to row `i`, column `j` succeeds exactly when the pixels before that all
      fit; it touches only the display and VF; on success the display is the XOR-painted
      one and VF is the collision flag. */
  lemma DrawPrefixEffect(m: Machine, x: nat, y: nat, i: nat, j: nat)
    requires m.Valid() && x < VF && y < VF && i < 16 && j <= 8
    ensures DrawPrefix(m, x, y, i, j).result.Ok? <==> Fits(SpriteAt(m, x, y), i, j)
    ensures OnlyDisplayAndFlag(m, DrawPrefix(m, x, y, i, j).next)
    ensures Fits(SpriteAt(m, x, y), i, j) ==>
              DrawPrefix(m, x, y, i, j).next.display == Painted(SpriteAt(m, x, y), m.display, i, j)
    ensures Fits(SpriteAt(m, x, y), i, j) ==>
              DrawPrefix(m, x, y, i, j).next.v[VF] == CollisionFlag(SpriteAt(m, x, y), m.display, i, j)
  {
    DrawPrefixSucceeds(m, x, y, i, j);
    SpriteKept(m, x, y, i, j);
    if Fits(SpriteAt(m, x, y), i, j) {
      DrawPrefixPaints(m, x, y, i, j);
      DrawPrefixFlags(m, x, y, i, j);
    }
  }

  /** Each cell of the painted display is the original cell XOR the cell's mask. */
  lemma {:induction false} PaintedIsMask(s: Sprite, d: seq<bv8>, i: nat, j: nat, t: nat)
    requires |d| == DISPLAY_SIZE && i < 16 && j <= 8 && Fits(s, i, j) && t < DISPLAY_SIZE
    ensures Painted(s, d, i, j)[t] == d[t] ^ Mask(s, i, j, t)
    decreases i, j
  {
    if j == 0 {
      if i > 0 {
        assert Fits(s, i - 1, 8) == Fits(s, i, 0);
        PaintedIsMask(s, d, i - 1, 8, t);
      }
    } else {
      FitsStep(s, i, j);
      PaintedIsMask(s, d, i, j - 1, t);
    }
  }

  /** Painting the same pixels twice restores the display. */
  lemma PaintTwice(s: Sprite, d: seq<bv8>, i: nat, j: nat)
    requires |d| == DISPLAY_SIZE && i < 16 && j <= 8 && Fits(s, i, j)
    ensures Painted(s, Painted(s, d, i, j), i, j) == d
  {
    var once := Painted(s, d, i, j);
    forall t | 0 <= t < DISPLAY_SIZE
      ensures Painted(s, once, i, j)[t] == d[t]
    {
      PaintedIsMask(s, d, i, j, t);
      PaintedIsMask(s, once, i, j, t);
    }
  }

  /** Drawing the same sprite at the same place twice in a row, without an intervening
      change, succeeds the second time and restores the display; apart from VF nothing
      else has changed. */
  lemma DrawTwiceRestoresDisplay(m: Machine, x: nat, y: nat, n: nat)
    requires m.Valid() && x < VF && y < VF && n < 16
    requires Draw(m, x, y, n).result.Ok?
    ensures Draw(Draw(m, x, y, n).next, x, y, n).result.Ok?
    ensures Draw(Draw(m, x, y, n).next, x, y, n).next.display == m.display
    ensures OnlyDisplayAndFlag(m, Draw(Draw(m, x, y, n).next, x, y, n).next)
  {
    var s := SpriteAt(m, x, y);
    var m1 := Draw(m, x, y, n).next;
    DrawPrefixEffect(m, x, y, n, 0);
    assert m1.v[x] == m1.v[..VF][x] == m.v[..VF][x] == m.v[x];
    assert m1.v[y] == m1.v[..VF][y] == m.v[..VF][y] == m.v[y];
    assert SpriteAt(m1, x, y) == s;
    DrawPrefixEffect(m1, x, y, n, 0);
    PaintTwice(s, m.display, n, 0);
  }

  /** Two pixels of one draw never land on the same display cell: the truncated column
      fixes the pixel's column, and then the truncated row fixes its row. */
  lemma TargetsDistinct(vx: bv8, vy: bv8, r: nat, c: nat, r': nat, c': nat)
    requires r < 16 && c < 8 && r' < 16 && c' < 8
    requires PixelIndex(vx, vy, r, c) == PixelIndex(vx, vy, r', c')
    ensures r == r' && c == c'
  {
    WrappedCellsDistinct(vx as int, vy as int, r, c, r', c');
  }

  /** The arithmetic behind `TargetsDistinct`, on plain integers: cells `row * 64 + col`
      of byte-truncated rows and columns. */
  lemma WrappedCellsDistinct(a: int, b: int, r: int, c: int, r': int, c': int)
    requires 0 <= a < 256 && 0 <= b < 256
    requires 0 <= r < 16 && 0 <= c < 8 && 0 <= r' < 16 && 0 <= c' < 8
    requires ((b + r) % 256) * 64 + (a + c) % 256 == ((b + r') % 256) * 64 + (a + c') % 256
    ensures r == r' && c == c'
  {
    ByteWrap(b + r);
    ByteWrap(a + c);
    ByteWrap(b + r');
    ByteWrap(a + c');
    var k := (b + r') % 256 - (b + r) % 256;
    assert (a + c) % 256 - (a + c') % 256 == 64 * k;
    assert (a + c < 256) == (a + c' < 256);
    assert -8 < 64 * k < 8;
  }

  /** Truncating a sum of a byte and a small offset to a byte subtracts 256 at most once. */
  lemma ByteWrap(v: int)
    requires 0 <= v < 512
    ensures v % 256 == if v < 256 then v else v - 256
  {
  }

  /** The mask of the cell that pixel (r, c) lands on, after the pixels before row `i`,
      column `j`: that pixel's own bit once the loops have visited it, 0 before. */
  lemma {:induction false} MaskOfOwnTarget(s: Sprite, i: nat, j: nat, r: nat, c: nat)
    requires i < 16 && j <= 8 && Fits(s, i, j) && r < 16 && c < 8 && PixelFits(s, r, c)
    ensures Mask(s, i, j, PixelIndex(s.vx, s.vy, r, c)) == if 8 * r + c < 8 * i + j then Bit(s, r, c) else 0
    decreases i, j
  {
    var t := PixelIndex(s.vx, s.vy, r, c);
    if j == 0 {
      if i > 0 {
        assert Fits(s, i - 1, 8) == Fits(s, i, 0);
        MaskOfOwnTarget(s, i - 1, 8, r, c);
      }
    } else {
      FitsStep(s, i, j);
      MaskOfOwnTarget(s, i, j - 1, r, c);
      if PixelIndex(s.vx, s.vy, i, j - 1) == t {
        TargetsDistinct(s.vx, s.vy, i, j - 1, r, c);
      }
    }
  }

  /** Every pixel a fitting draw of `n` rows visits fits, and so do the pixels before it. */
  lemma FitsBefore(s: Sprite, n: nat, r: nat, c: nat)
    requires n < 16 && Fits(s, n, 0) && r < 16 && c < 8 && 8 * r + c < 8 * n
    ensures PixelFits(s, r, c) && Fits(s, r, c) && Fits(s, r, c + 1)
  {
  }

  /** Repainting a fitted sprite over its own result, pixel (r, c) collides exactly when
      the cell it lands on was dark before the first painting. */
  lemma RepaintCollides(s: Sprite, d: seq<bv8>, n: nat, r: nat, c: nat)
    requires |d| == DISPLAY_SIZE && n < 16 && Fits(s, n, 0)
    requires r < 16 && c < 8 && 8 * r + c < 8 * n
    ensures PixelFits(s, r, c) && Fits(s, r, c + 1)
    ensures Collides(s, Painted(s, d, n, 0), r, c) <==> d[PixelIndex(s.vx, s.vy, r, c)] == 0
  {
    FitsBefore(s, n, r, c);
    var once := Painted(s, d, n, 0);
    var t := PixelIndex(s.vx, s.vy, r, c);
    PaintedIsMask(s, d, n, 0, t);
    PaintedIsMask(s, once, r, c, t);
    MaskOfOwnTarget(s, n, 0, r, c);
    MaskOfOwnTarget(s, r, c, r, c);
    assert Painted(s, once, r, c)[t] == d[t] ^ Bit(s, r, c);
  }

  /** The VF half of drawing twice: on the second of two identical draws VF ends as 1
      exactly when some pixel of the sprite lands on a cell that was dark before the
      first draw, that is, on a cell the first draw lit or left dark with a 0 bit. */
  lemma SecondDrawFlagsDarkTargets(m: Machine, x: nat, y: nat, n: nat)
    requires m.Valid() && x < VF && y < VF && n < 16
    requires Draw(m, x, y, n).result.Ok?
    ensures Draw(Draw(m, x, y, n).next, x, y, n).next.v[VF] == 1 <==>
              exists r, c :: 0 <= r < n && 0 <= c < 8 && PixelFits(SpriteAt(m, x, y), r, c)
                             && m.display[PixelIndex(m.v[x], m.v[y], r, c)] == 0
  {
    var s := SpriteAt(m, x, y);
    var m1 := Draw(m, x, y, n).next;
    DrawPrefixEffect(m, x, y, n, 0);
    assert m1.v[x] == m1.v[..VF][x] == m.v[..VF][x] == m.v[x];
    assert m1.v[y] == m1.v[..VF][y] == m.v[..VF][y] == m.v[y];
    assert SpriteAt(m1, x, y) == s;
    DrawPrefixEffect(m1, x, y, n, 0);
    var once := m1.display;
    assert once == Painted(s, m.display, n, 0);
    CollisionFlagMeansSomeCollision(s, once, n, 0);
    if Draw(m1, x, y, n).next.v[VF] == 1 {
      var r, c :| 0 <= r < 16 && 0 <= c < 8 && 8 * r + c < 8 * n && Collides(s, once, r, c);
      RepaintCollides(s, m.display, n, r, c);
    }
    if exists r, c :: 0 <= r < n && 0 <= c < 8 && PixelFits(s, r, c) && m.display[PixelIndex(m.v[x], m.v[y], r, c)] == 0 {
      var r, c :| 0 <= r < n && 0 <= c < 8 && PixelFits(s, r, c) && m.display[PixelIndex(m.v[x], m.v[y], r, c)] == 0;
      RepaintCollides(s, m.display, n, r, c);
      assert Collides(s, once, r, c);
    }
  }

  /** A draw whose pixel in row `i`, column `j` is the first that does not fit reports
      OutOfBounds and leaves the state of the pixels before it: VF already cleared or set
      by them, and their bits already XORed into the display. */
  lemma DrawFaultKeepsEarlierPixels(m: Machine, x: nat, y: nat, n: nat, i: nat, j: nat)
    requires m.Valid() && x < VF && y < VF && n < 16 && i < n && j < 8
    requires Fits(SpriteAt(m, x, y), i, j) && !PixelFits(SpriteAt(m, x, y), i, j)
    ensures Draw(m, x, y, n).result == Err(OutOfBounds)
    ensures Draw(m, x, y, n).next.display == Painted(SpriteAt(m, x, y), m.display, i, j)
    ensures Draw(m, x, y, n).next.v[VF] == CollisionFlag(SpriteAt(m, x, y), m.display, i, j)
    ensures OnlyDisplayAndFlag(m, Draw(m, x, y, n).next)
  {
    DrawPrefixEffect(m, x, y, i, j);
    var p := DrawPrefix(m, x, y, i, j).next;
    assert p.v[x] == p.v[..VF][x] == m.v[..VF][x] == m.v[x];
    assert p.v[y] == p.v[..VF][y] == m.v[..VF][y] == m.v[y];
    DrawPixelEffect(p, x, y, i, j);
    assert DrawPrefix(m, x, y, i, j + 1) == Fail(p, OutOfBounds);
    DrawPrefixStops(m, x, y, i, j + 1, n, 0);
  }

  /** The collision test is equality of bit and pixel, so an off sprite bit over an off
      pixel also sets VF: a sprite whose top-left bit is 0, drawn onto a dark pixel,
      reports a collision although nothing was erased. */
  lemma OffBitOnDarkPixelSetsFlag(m: Machine, x: nat, y: nat, n: nat)
    requires m.Valid() && x < VF && y < VF && 0 < n < 16
    requires PixelFits(SpriteAt(m, x, y), 0, 0)
    requires m.ram[m.index] < 0x80
    requires m.display[PixelIndex(m.v[x], m.v[y], 0, 0)] == 0
    ensures Draw(m, x, y, n).result.Ok? ==> Draw(m, x, y, n).next.v[VF] == 1
  {
    var s := SpriteAt(m, x, y);
    DrawPrefixEffect(m, x, y, n, 0);
    if Fits(s, n, 0) {
      assert Bit(s, 0, 0) == 0;
      assert Collides(s, m.display, 0, 0);
      CollisionFlagMeansSomeCollision(s, m.display, n, 0);
    }
  }

  /** Whatever the registers, a draw (finished or faulted) writes only the display and
      the registers: RAM, I, PC, the stack and the timers are left alone. */
  lemma {:induction false} DrawPrefixFrame(m: Machine, x: nat, y: nat, i: nat, j: nat)
    requires m.Valid() && x < REGISTER_COUNT && y < REGISTER_COUNT && i < 16 && j <= 8
    ensures DrawPrefix(m, x, y, i, j).next.(display := m.display, v := m.v) == m
    decreases i, j
  {
    if j > 0 {
      DrawPrefixFrame(m, x, y, i, j - 1);
      var p := DrawPrefix(m, x, y, i, j - 1).next;
      assert DrawPixel(p, x, y, i, j - 1).next.(display := p.display, v := p.v) == p;
    } else if i > 0 {
      DrawPrefixFrame(m, x, y, i - 1, 8);
    }
  }

  /** A display holding only 0s and 1s still does after any draw, whatever the registers,
      because every sprite bit is 0 or 1. */
  lemma {:induction false} DrawKeepsBinary(m: Machine, x: nat, y: nat, i: nat, j: nat)
    requires m.Valid() && x < REGISTER_COUNT && y < REGISTER_COUNT && i < 16 && j <= 8
    requires BinaryDisplay(m.display)
    ensures BinaryDisplay(DrawPrefix(m, x, y, i, j).next.display)
    decreases i, j
  {
    if j == 0 {
      if i > 0 {
        DrawKeepsBinary(m, x, y, i - 1, 8);
      }
    } else {
      DrawKeepsBinary(m, x, y, i, j - 1);
      var p := DrawPrefix(m, x, y, i, j - 1).next;
      var d := DrawPrefix(m, x, y, i, j).next.display;
      forall t | 0 <= t < |d|
        ensures d[t] <= 1
      {
        assert d[t] == p.display[t] || d[t] == p.display[t] ^ 0 || d[t] == p.display[t] ^ 1;
      }
    }
  }

  /** The only fault a draw can report is an index outside RAM or the display. */
  lemma {:induction false} DrawFaultsAreOutOfBounds(m: Machine, x: nat, y: nat, i: nat, j: nat)
    requires m.Valid() && x < REGISTER_COUNT && y < REGISTER_COUNT && i < 16 && j <= 8
    ensures DrawPrefix(m, x, y, i, j).result.Err? ==> DrawPrefix(m, x, y, i, j).result.fault == OutOfBounds
    decreases i, j
  {
    if j > 0 {
      DrawFaultsAreOutOfBounds(m, x, y, i, j - 1);
    } else if i > 0 {
      DrawFaultsAreOutOfBounds(m, x, y, i - 1, 8);
    }
  }
}

/** The 256-colour graphics mode: RGB quantised to one byte, a back buffer
    written pixel by pixel and rectangle by rectangle, the copy to the frame
    buffer, and the switch into mode 13h. */
module Graphics {
  import opened Platform
  import opened ModeSet

  /** Bits, lowest first, packed into one number. */
  function PackBits(bits: seq<nat>): (x: nat)
  {
    if bits == [] then 0 else bits[0] + 2 * PackBits(bits[1..])
  }

  /** Bit `k` of a packed number is the `k`-th bit packed, and there are no
      bits beyond the last. */
  lemma {:induction false} PackedBit(bits: seq<nat>, k: nat)
    requires forall i :: 0 <= i < |bits| ==> bits[i] < 2
    ensures PackBits(bits) < Pow2(|bits|)
    ensures GetBit(PackBits(bits), k) == if k < |bits| then bits[k] else 0
  {
    if bits == [] {
      GetBitOfZero(k);
    } else {
      var h := PackBits(bits[1..]);
      assert (bits[0] + 2 * h) / 2 == h;
      if k > 0 {
        PackedBit(bits[1..], k - 1);
      } else {
        PackedBit(bits[1..], 0);
      }
    }
  }

  /** The computation inside `setColor`: each channel keeps its top two bits
      (`c / 64`); the high bits of blue, green and red go to bits 0, 1 and 2,
      their low bits to bits 3, 4 and 5. */
  function Quantise(red: byte, green: byte, blue: byte): (color: byte)
    ensures color < 64
    ensures GetBit(color, 0) == GetBit(blue / 64, 1)
    ensures GetBit(color, 1) == GetBit(green / 64, 1)
    ensures GetBit(color, 2) == GetBit(red / 64, 1)
    ensures GetBit(color, 3) == GetBit(blue / 64, 0)
    ensures GetBit(color, 4) == GetBit(green / 64, 0)
    ensures GetBit(color, 5) == GetBit(red / 64, 0)
  {
    var r, g, b := red / 64, green / 64, blue / 64;
    HighLow(r);
    HighLow(g);
    HighLow(b);
    var bits := [b / 2, g / 2, r / 2, b % 2, g % 2, r % 2];
    PackedBit(bits, 0);
    PackedBit(bits, 1);
    PackedBit(bits, 2);
    PackedBit(bits, 3);
    PackedBit(bits, 4);
    PackedBit(bits, 5);
    assert Pow2(6) == 64;
    PackBits(bits)
  }

  /** The two bits of a level below 4. */
  lemma HighLow(v: nat)
    requires v < 4
    ensures GetBit(v, 1) == v / 2 && GetBit(v, 0) == v % 2
  {
    assert GetBit(v, 1) == GetBit(v / 2, 0);
  }

  /** A channel level read back from a packed colour: bit `high` is its high
      bit and bit `low` its low bit. */
  function Level(color: nat, high: nat, low: nat): (level: nat)
    ensures level < 4
  {
    2 * GetBit(color, high) + GetBit(color, low)
  }

  /** Each channel's top two bits can be read back from the packed colour. */
  lemma QuantiseDecodes(red: byte, green: byte, blue: byte)
    ensures Level(Quantise(red, green, blue), 2, 5) == red / 64
    ensures Level(Quantise(red, green, blue), 1, 4) == green / 64
    ensures Level(Quantise(red, green, blue), 0, 3) == blue / 64
  {
    HighLow(red / 64);
    HighLow(green / 64);
    HighLow(blue / 64);
  }

  /** Two colours pack to the same byte exactly when every channel has the
      same top two bits. */
  lemma QuantiseInjective(r: byte, g: byte, b: byte, r': byte, g': byte, b': byte)
    ensures Quantise(r, g, b) == Quantise(r', g', b') <==>
      r / 64 == r' / 64 && g / 64 == g' / 64 && b / 64 == b' / 64
  {
    QuantiseDecodes(r, g, b);
    QuantiseDecodes(r', g', b');
  }

  /** Black packs to 0 and white to 63. */
  lemma QuantiseBlack()
    ensures Quantise(0, 0, 0) == 0
  {
    var bits: seq<nat> := [0, 0, 0, 0, 0, 0];
    assert PackBits(bits[5..]) == 0;
    assert PackBits(bits[4..]) == 0;
    assert PackBits(bits[3..]) == 0;
    assert PackBits(bits[2..]) == 0;
    assert PackBits(bits[1..]) == 0;
    assert PackBits(bits) == 0;
  }

  lemma QuantiseWhite()
    ensures Quantise(255, 255, 255) == 63
  {
    var bits: seq<nat> := [1, 1, 1, 1, 1, 1];
    assert PackBits(bits[5..]) == 1;
    assert PackBits(bits[4..]) == 3;
    assert PackBits(bits[3..]) == 7;
    assert PackBits(bits[2..]) == 15;
    assert PackBits(bits[1..]) == 31;
    assert PackBits(bits) == 63;
  }

  /** Two bytes with the same eight bits are equal. */
  lemma SameByte(x: byte, y: byte)
    requires GetBit(x, 0) == GetBit(y, 0) && GetBit(x, 1) == GetBit(y, 1)
    requires GetBit(x, 2) == GetBit(y, 2) && GetBit(x, 3) == GetBit(y, 3)
    requires GetBit(x, 4) == GetBit(y, 4) && GetBit(x, 5) == GetBit(y, 5)
    requires GetBit(x, 6) == GetBit(y, 6) && GetBit(x, 7) == GetBit(y, 7)
    ensures x == y
  {
    assert Pow2(8) == 256;
    forall k | 0 <= k < 8
      ensures GetBit(x, k) == GetBit(y, k)
    {
      assert k == 0 || k == 1 || k == 2 || k == 3 || k == 4 || k == 5 || k == 6 || k == 7;
    }
    BitsDetermine(x, y, 8);
  }

  /** The guard of `vga_graphics_pixel` as written: `x > W` and `y > H` are
      rejected, so `x == W` and `y == H` get through. */
  function PixelAccepted(width: nat, height: nat, x: nat, y: nat): (ok: bool)
    ensures InBounds(width, height, x, y) ==> ok
    ensures ok && !InBounds(width, height, x, y) ==> x == width || y == height
  {
    !(x > width) && !(y > height)
  }

  /** The guard the pixel write needs: the point is on the screen. */
  predicate InBounds(width: nat, height: nat, x: nat, y: nat)
  {
    x < width && y < height
  }

  /** With the guard as written, the column one past the right edge lands on
      the first pixel of the next row, and the last accepted row starts past
      the end of the buffer. */
  lemma PixelEdgeAliases(width: nat, height: nat, y: nat)
    requires width > 0 && y < height
    ensures PixelAccepted(width, height, width, y) && !InBounds(width, height, width, y)
    ensures Linear(width, width, y) == Linear(width, 0, y + 1)
    ensures PixelAccepted(width, height, 0, height) && Linear(width, 0, height) == Area(width, height)
    ensures y + 1 == height ==> Linear(width, width, y) == Area(width, height)
  {
  }

  /** The input that shows the aliasing: `(W, y)` above the last row passes
      the guard as written, lies inside the buffer, and is the cell of
      `(0, y + 1)`, so `PixelAsWritten` paints the first pixel of the next row. */
  lemma EdgePixelPaintsNextRow(width: nat, height: nat, y: nat)
    requires width > 0 && y + 1 < height
    ensures PixelAccepted(width, height, width, y) && !InBounds(width, height, width, y)
    ensures Linear(width, width, y) == Linear(width, 0, y + 1) < Area(width, height)
  {
    LinearBound(width, height, 0, y + 1);
  }

  /** With the corrected guard every accepted point has its own cell of the
      buffer, and the points the corrected guard refuses but the original
      accepts are those on the two edges just outside the screen. */
  lemma {:induction false} InBoundsIndex(width: nat, height: nat, x: nat, y: nat, x': nat, y': nat)
    requires InBounds(width, height, x, y) && InBounds(width, height, x', y')
    ensures Linear(width, x, y) < Area(width, height)
    ensures Linear(width, x, y) == Linear(width, x', y') <==> x == x' && y == y'
    ensures forall a: nat, b: nat :: PixelAccepted(width, height, a, b) && !InBounds(width, height, a, b) ==>
      a == width || b == height
  {
    LinearBound(width, height, x, y);
    LinearInjective(width, x, y, x', y');
  }

  /** The cells `vga_graphics_rectangle(x, y, w, h, ...)` paints. */
  predicate InRectangle(x: nat, y: nat, w: nat, h: nat, cx: nat, cy: nat)
  {
    x <= cx < x + w && y <= cy < y + h
  }

  /** The graphics half of the driver's module state. `width` and `height`
      stand for `VGA_GRAPHICS_WIDTH` and `VGA_GRAPHICS_HEIGHT`; they are
      bounded so that the source's `uint16` column and `uint8` row counters
      cannot wrap. */
  class Display {
    const width: nat
    const height: nat
    /** `graphicsDoubleBuffer`. */
    const back: array<byte>
    /** `graphicsBuffer`: null until `vga_graphics_initialize`; it stands for
        the frame buffer at 0xA0000. */
    var front: array?<byte>
    /** `vga_320x200x256`, which `write_regs` patches in place. */
    const modeTable: array<byte>
    /** Every `outb`/`inb` the graphics code has issued, oldest first, except
        the polling reads of the retrace wait. */
    var ports: seq<PortEvent>

    ghost predicate Valid()
      reads this, modeTable
    {
      0 < width < 0x1_0000 && 0 < height < 0x100 &&
      back.Length == Area(width, height) &&
      modeTable.Length == NUM_REGS && modeTable[..] == MODE_320X200X256 &&
      back != modeTable &&
      (front != null ==> front.Length == back.Length && front != back && front != modeTable)
    }

    /** The module state at start-up: a zeroed back buffer, no frame buffer
        yet and the stock mode table. */
    constructor (w: nat, h: nat)
      requires 0 < w < 0x1_0000 && 0 < h < 0x100
      ensures Valid() && fresh(back) && fresh(modeTable)
      ensures width == w && height == h && front == null && ports == []
      ensures forall j :: 0 <= j < back.Length ==> back[j] == 0
    {
      width, height := w, h;
      back := new byte[Area(w, h)](_ => 0);
      StockTableIsPatched();
      modeTable := new byte[NUM_REGS](i requires 0 <= i < NUM_REGS => MODE_320X200X256[i]);
      front := null;
      ports := [];
      new;
      assert modeTable[..] == MODE_320X200X256;
    }

    /** `vga_graphics_initialize`: point the frame buffer at display memory. */
    method Initialize(frame: array<byte>)
      requires Valid() && frame.Length == back.Length && frame != back && frame != modeTable
      modifies this`front
      ensures Valid() && front == frame
    {
      front := frame;
    }

    /** `setColor`: the colour is packed one `changeBit` at a time into a
        zero byte; the result is the packing `Quantise` states. */
    method SetColor(index: nat, red: byte, green: byte, blue: byte)
      requires index < back.Length
      modifies back
      ensures back[..] == old(back[..])[index := Quantise(red, green, blue)]
    {
      var r, g, b := red / 64, green / 64, blue / 64;
      var color: byte := 0;
      color := ChangeBit(color, 0, GetBit(b, 1));
      color := ChangeBit(color, 1, GetBit(g, 1));
      color := ChangeBit(color, 2, GetBit(r, 1));
      color := ChangeBit(color, 3, GetBit(b, 0));
      color := ChangeBit(color, 4, GetBit(g, 0));
      color := ChangeBit(color, 5, GetBit(r, 0));
      GetBitOfZero(6);
      GetBitOfZero(7);
      ghost var q := Quantise(red, green, blue);
      assert Pow2(6) == 64;
      GetBitBeyond(q, 6, 6);
      GetBitBeyond(q, 6, 7);
      SameByte(color, q);
      back[index] := color;
    }

    /** `vga_graphics_pixel`, with the bound corrected to `x >= W || y >= H`:
        a point on the screen is painted and `true` returned; any other point
        changes nothing. */
    method Pixel(x: u32, y: u32, red: byte, green: byte, blue: byte) returns (drawn: bool)
      requires Valid()
      modifies back
      ensures drawn == InBounds(width, height, x, y)
      ensures drawn ==> (Linear(width, x, y) < back.Length &&
        back[..] == old(back[..])[Linear(width, x, y) := Quantise(red, green, blue)])
      ensures !drawn ==> back[..] == old(back[..])
    {
      if x >= width {
        return false;
      }
      if y >= height {
        return false;
      }
      LinearBound(width, height, x, y);
      // the row-major offset `y * W + x`, by LinearIsRowMajor
      SetColor(Linear(width, x, y), red, green, blue);
      return true;
    }

    /** `vga_graphics_pixel` with the guard as written: `x == W` and `y == H`
        are accepted. Only the accepted points whose index still falls inside
        the buffer can be modelled; the others write past its end. */
    method PixelAsWritten(x: u32, y: u32, red: byte, green: byte, blue: byte) returns (drawn: bool)
      requires Valid()
      requires PixelAccepted(width, height, x, y) ==> Linear(width, x, y) < back.Length
      modifies back
      ensures drawn == PixelAccepted(width, height, x, y)
      ensures drawn ==> back[..] == old(back[..])[Linear(width, x, y) := Quantise(red, green, blue)]
      ensures !drawn ==> back[..] == old(back[..])
    {
      if x > width {
        return false;
      }
      if y > height {
        return false;
      }
      SetColor(Linear(width, x, y), red, green, blue);
      return true;
    }

    /** `vga_graphics_rectangle`: a rectangle that does not fit is refused and
        nothing changes; otherwise exactly its cells get the colour. */
    method Rectangle(x: u32, y: u32, w: u32, h: u32, red: byte, green: byte, blue: byte) returns (ok: bool)
      requires Valid()
      requires x + w < 0x1_0000_0000 && y + h < 0x1_0000_0000
      modifies back
      ensures Valid()
      ensures ok == (x + w <= width && y + h <= height)
      ensures forall cx: nat, cy: nat :: cx < width && cy < height ==>
        Linear(width, cx, cy) < back.Length &&
        back[Linear(width, cx, cy)] ==
          if ok && InRectangle(x, y, w, h, cx, cy) then Quantise(red, green, blue)
          else old(back[Linear(width, cx, cy)])
    {
      forall cx: nat, cy: nat | cx < width && cy < height
        ensures Linear(width, cx, cy) < back.Length
      {
        LinearBound(width, height, cx, cy);
      }
      if x + w > width {
        return false;
      }
      if y + h > height {
        return false;
      }
      var xp := x;
      while xp < x + w
        invariant x <= xp <= x + w
        invariant forall cx: nat, cy: nat :: cx < width && cy < height ==>
          back[Linear(width, cx, cy)] ==
            if InRectangle(x, y, xp - x, h, cx, cy) then Quantise(red, green, blue)
            else old(back[Linear(width, cx, cy)])
      {
        FillColumn(x, y, h, xp, red, green, blue);
        xp := xp + 1;
      }
      return true;
    }

    /** The inner loop of `vga_graphics_rectangle`: column `xp`, rows `y` to
        `y + h - 1`. */
    method FillColumn(x: nat, y: nat, h: nat, xp: nat, red: byte, green: byte, blue: byte)
      requires Valid() && x <= xp < width && y + h <= height
      requires forall cx: nat, cy: nat :: cx < width && cy < height ==> Linear(width, cx, cy) < back.Length
      modifies back
      ensures forall cx: nat, cy: nat :: cx < width && cy < height ==>
        back[Linear(width, cx, cy)] ==
          if cx == xp && y <= cy < y + h then Quantise(red, green, blue)
          else old(back[Linear(width, cx, cy)])
    {
      var color := Quantise(red, green, blue);
      var yp := y;
      while yp < y + h
        invariant y <= yp <= y + h
        invariant forall cx: nat, cy: nat :: cx < width && cy < height ==>
          back[Linear(width, cx, cy)] ==
            if cx == xp && y <= cy < yp then color else old(back[Linear(width, cx, cy)])
      {
        ghost var before := back[..];
        LinearBound(width, height, xp, yp);
        var drawn := PixelAsWritten(xp, yp, red, green, blue);
        if !drawn {
          assert false;
        }
        forall cx: nat, cy: nat | cx < width && cy < height
          ensures back[Linear(width, cx, cy)] ==
            if cx == xp && y <= cy < yp + 1 then color else old(back[Linear(width, cx, cy)])
        {
          LinearInjective(width, cx, cy, xp, yp);
          assert back[Linear(width, cx, cy)] ==
            if cx == xp && cy == yp then color else before[Linear(width, cx, cy)];
        }
        yp := yp + 1;
      }
    }

    /** `vga_graphics_flip` after the retrace wait: the frame buffer becomes a
        copy of the back buffer. */
    method Flip()
      requires Valid() && front != null
      modifies front
      ensures Valid() && front[..] == back[..]
    {
      MemCopy(front, 0, back, 0, back.Length);
    }

    /** `vga_graphicsMode`: program mode 13h from the table, then clear the
        whole back buffer to colour 0. */
    method GraphicsMode(rd03: byte, rd11: byte)
      requires Valid()
      modifies this`ports, modeTable, back
      ensures Valid()
      ensures ports == old(ports) + Events(MODE_320X200X256, rd03, rd11)
      ensures forall j :: 0 <= j < back.Length ==> back[j] == 0
    {
      StockTableIsPatched();
      var writes := WriteRegs(modeTable, rd03, rd11);
      ports := ports + writes;
      var ok := Rectangle(0, 0, width, height, 0, 0, 0);
      QuantiseBlack();
      forall j | 0 <= j < back.Length
        ensures back[j] == 0
      {
        var cx, cy := LinearCovers(width, height, j);
      }
    }
  }
}

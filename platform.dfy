/** Machine vocabulary shared by the text and graphics engines: unsigned
    integer widths, the record of port traffic, the bit helpers and the
    memory/string primitives the driver borrows from its utility library,
    and row-major indexing of a two-dimensional surface. */
module Platform {

  type byte = x: int | 0 <= x < 0x100
  type u16 = x: int | 0 <= x < 0x1_0000
  type u32 = x: int | 0 <= x < 0x1_0000_0000

  /** One access to an I/O port: `outb(port, value)` or a read `inb(port)`
      whose value is not recorded. */
  datatype PortEvent = Out(port: u16, value: byte) | In(port: u16)

  /** The CRT controller's index and data ports (colour emulation). */
  const CRTC_INDEX: u16 := 0x3D4
  const CRTC_DATA: u16 := 0x3D5

  function Pow2(n: nat): (p: nat)
    ensures p >= 1
  {
    if n == 0 then 1 else 2 * Pow2(n - 1)
  }

  /** `getBit(x, n)`: bit `n` of `x`. */
  function GetBit(x: nat, n: nat): (b: nat)
    ensures b < 2
  {
    if n == 0 then x % 2 else GetBit(x / 2, n - 1)
  }

  /** `x` with bit `n` forced to `v`, on unbounded naturals. */
  function WithBit(x: nat, n: nat, v: nat): (r: nat)
    requires v < 2
    ensures GetBit(r, n) == v
    ensures forall k :: k != n ==> GetBit(r, k) == GetBit(x, k)
  {
    if n == 0 then x / 2 * 2 + v else WithBit(x / 2, n - 1, v) * 2 + x % 2
  }

  /** Forcing a bit below position `m` keeps a value below `2^m`. */
  lemma {:induction false} WithBitBound(x: nat, n: nat, v: nat, m: nat)
    requires v < 2 && n < m && x < Pow2(m)
    ensures WithBit(x, n, v) < Pow2(m)
  {
    if n > 0 {
      WithBitBound(x / 2, n - 1, v, m - 1);
    }
  }

  /** `changeBit(x, n, v)`: the byte `x` with bit `n` forced to `v`. */
  function ChangeBit(x: byte, n: nat, v: nat): (r: byte)
    requires n < 8 && v < 2
    ensures GetBit(r, n) == v
    ensures forall k :: 0 <= k < 8 && k != n ==> GetBit(r, k) == GetBit(x, k)
  {
    WithBitBound(x, n, v, 8);
    WithBit(x, n, v)
  }

  lemma {:induction false} GetBitOfZero(k: nat)
    ensures GetBit(0, k) == 0
  {
    if k > 0 {
      GetBitOfZero(k - 1);
    }
  }

  /** A value below `2^m` has no bit set at position `m` or above. */
  lemma {:induction false} GetBitBeyond(x: nat, m: nat, k: nat)
    requires x < Pow2(m) && m <= k
    ensures GetBit(x, k) == 0
  {
    if m == 0 {
      GetBitOfZero(k);
    } else {
      GetBitBeyond(x / 2, m - 1, k - 1);
    }
  }

  /** Two values below `2^n` with the same low `n` bits are equal. */
  lemma {:induction false} BitsDetermine(x: nat, y: nat, n: nat)
    requires x < Pow2(n) && y < Pow2(n)
    requires forall k :: 0 <= k < n ==> GetBit(x, k) == GetBit(y, k)
    ensures x == y
  {
    if n > 0 {
      forall k | 0 <= k < n - 1
        ensures GetBit(x / 2, k) == GetBit(y / 2, k)
      {
        assert GetBit(x, k + 1) == GetBit(y, k + 1);
      }
      BitsDetermine(x / 2, y / 2, n - 1);
      assert GetBit(x, 0) == GetBit(y, 0);
    }
  }

  /** `memcpy(dest + d, source + s, n)` on cells rather than bytes: the two
      ranges must not overlap when both lie in the same array. */
  method MemCopy<T>(dest: array<T>, d: nat, source: array<T>, s: nat, n: nat)
    requires d + n <= dest.Length && s + n <= source.Length
    requires dest == source ==> d + n <= s || s + n <= d
    modifies dest
    ensures dest[..] == old(dest[..d]) + old(source[s..s + n]) + old(dest[d + n..])
  {
    forall k | 0 <= k < n {
      dest[d + k] := source[s + k];
    }
  }

  /** `stringlength(data)`: the number of bytes before the first NUL, or the
      whole sequence when it holds none. */
  function StringLength(data: seq<byte>): (n: nat)
    ensures n <= |data|
    ensures forall i :: 0 <= i < n ==> data[i] != 0
    ensures n < |data| ==> data[n] == 0
  {
    if data == [] || data[0] == 0 then 0 else 1 + StringLength(data[1..])
  }

  /** Number of cells in `h` rows of `w` cells (`w * h`, by repeated addition). */
  function Area(w: nat, h: nat): nat
  {
    if h == 0 then 0 else Area(w, h - 1) + w
  }

  /** Index of column `x` of row `y` in a surface `w` cells wide. */
  function Linear(w: nat, x: nat, y: nat): nat
  {
    Area(w, y) + x
  }

  lemma {:induction false} AreaIsProduct(w: nat, h: nat)
    ensures Area(w, h) == w * h
  {
    if h > 0 {
      AreaIsProduct(w, h - 1);
      assert w * (h - 1) + w == w * h;
    }
  }

  /** `Linear` is the `y * w + x` the driver computes. */
  lemma LinearIsRowMajor(w: nat, x: nat, y: nat)
    ensures Linear(w, x, y) == y * w + x
  {
    AreaIsProduct(w, y);
  }

  lemma {:induction false} AreaGrows(w: nat, a: nat, b: nat)
    requires a <= b
    ensures Area(w, a) <= Area(w, b)
    ensures a < b ==> Area(w, a) + w <= Area(w, b)
  {
    if a < b {
      AreaGrows(w, a, b - 1);
    }
  }

  /** `a` rows followed by `b` rows are `a + b` rows. */
  lemma {:induction false} AreaAdd(w: nat, a: nat, b: nat)
    ensures Area(w, a + b) == Area(w, a) + Area(w, b)
  {
    if b > 0 {
      AreaAdd(w, a, b - 1);
    }
  }

  lemma LinearBound(w: nat, h: nat, x: nat, y: nat)
    requires x < w && y < h
    ensures Linear(w, x, y) < Area(w, h)
  {
    AreaGrows(w, y + 1, h);
  }

  lemma LinearInjective(w: nat, x: nat, y: nat, x': nat, y': nat)
    requires x < w && x' < w
    ensures Linear(w, x, y) == Linear(w, x', y') <==> x == x' && y == y'
  {
    if y < y' {
      AreaGrows(w, y + 1, y');
    } else if y' < y {
      AreaGrows(w, y' + 1, y);
    }
  }

  /** Every cell of a `w` by `h` surface has a column and a row. */
  lemma {:induction false} LinearCovers(w: nat, h: nat, j: nat) returns (x: nat, y: nat)
    requires j < Area(w, h)
    ensures x < w && y < h && Linear(w, x, y) == j
  {
    if j < Area(w, h - 1) {
      x, y := LinearCovers(w, h - 1, j);
    } else {
      x, y := j - Area(w, h - 1), h - 1;
    }
  }
}

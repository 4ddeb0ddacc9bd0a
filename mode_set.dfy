/** The mode set: the register table for 320x200 in 256 colours and
    `write_regs`, which walks a table in a fixed order and programs the
    miscellaneous register, the sequencer, the CRT controller, the graphics
    controller and the attribute controller. The port traffic is specified
    by `Events`; `WriteRegs` is proved to produce it. */
module ModeSet {
  import opened Platform

  const MISC_WRITE: u16 := 0x3C2
  const SEQ_INDEX: u16 := 0x3C4
  const SEQ_DATA: u16 := 0x3C5
  const GC_INDEX: u16 := 0x3CE
  const GC_DATA: u16 := 0x3CF
  const AC_INDEX: u16 := 0x3C0
  const AC_WRITE: u16 := 0x3C0
  const INSTAT_READ: u16 := 0x3DA

  const NUM_SEQ_REGS: nat := 5
  const NUM_CRTC_REGS: nat := 25
  const NUM_GC_REGS: nat := 9
  const NUM_AC_REGS: nat := 21
  const NUM_REGS: nat := 1 + NUM_SEQ_REGS + NUM_CRTC_REGS + NUM_GC_REGS + NUM_AC_REGS

  /** Where each group of registers starts in a table. */
  const SEQ_START: nat := 1
  const CRTC_START: nat := SEQ_START + NUM_SEQ_REGS
  const GC_START: nat := CRTC_START + NUM_CRTC_REGS
  const AC_START: nat := GC_START + NUM_GC_REGS

  /** The two CRT controller registers whose bit 7 guards the others:
      bit 7 of register 0x03 must be set and bit 7 of register 0x11 clear. */
  const CRTC_UNLOCK_SET: nat := 0x03
  const CRTC_UNLOCK_CLEAR: nat := 0x11

  /** `vga_320x200x256`, group by group. */
  const MODE_MISC: seq<byte> := [0x63]
  const MODE_SEQ: seq<byte> := [0x03, 0x01, 0x0F, 0x00, 0x0E]
  const MODE_CRTC: seq<byte> := [
    0x5F, 0x4F, 0x50, 0x82, 0x54, 0x80, 0xBF, 0x1F, 0x00, 0x41, 0x00, 0x00, 0x00,
    0x00, 0x00, 0x00, 0x9C, 0x0E, 0x8F, 0x28, 0x40, 0x96, 0xB9, 0xA3, 0xFF]
  const MODE_GC: seq<byte> := [0x00, 0x00, 0x00, 0x00, 0x00, 0x40, 0x05, 0x0F, 0xFF]
  const MODE_AC: seq<byte> := [
    0x00, 0x01, 0x02, 0x03, 0x04, 0x05, 0x06, 0x07, 0x08, 0x09, 0x0A, 0x0B,
    0x0C, 0x0D, 0x0E, 0x0F, 0x41, 0x00, 0x0F, 0x00, 0x00]
  const MODE_320X200X256: seq<byte> := MODE_MISC + MODE_SEQ + MODE_CRTC + MODE_GC + MODE_AC

  /** `x | 0x80`: bit 7 set, the low seven bits kept. */
  function SetHigh(x: byte): (r: byte)
    ensures r >= 0x80 && r % 0x80 == x % 0x80
  {
    if x < 0x80 then x + 0x80 else x
  }

  /** `x & ~0x80`: bit 7 clear, the low seven bits kept. */
  function ClearHigh(x: byte): (r: byte)
    ensures r < 0x80 && r % 0x80 == x % 0x80
  {
    x % 0x80
  }

  /** The table after `regs[0x03] |= 0x80; regs[0x11] &= ~0x80`, where `regs`
      already points at the CRT controller group. */
  function Patched(t: seq<byte>): (r: seq<byte>)
    requires |t| >= NUM_REGS
    ensures |r| == |t|
    ensures r[CRTC_START + CRTC_UNLOCK_SET] >= 0x80
    ensures r[CRTC_START + CRTC_UNLOCK_SET] % 0x80 == t[CRTC_START + CRTC_UNLOCK_SET] % 0x80
    ensures r[CRTC_START + CRTC_UNLOCK_CLEAR] < 0x80
    ensures r[CRTC_START + CRTC_UNLOCK_CLEAR] % 0x80 == t[CRTC_START + CRTC_UNLOCK_CLEAR] % 0x80
    ensures forall i :: 0 <= i < |t| && i != CRTC_START + CRTC_UNLOCK_SET && i != CRTC_START + CRTC_UNLOCK_CLEAR ==>
      r[i] == t[i]
  {
    t[CRTC_START + CRTC_UNLOCK_SET := SetHigh(t[CRTC_START + CRTC_UNLOCK_SET])]
     [CRTC_START + CRTC_UNLOCK_CLEAR := ClearHigh(t[CRTC_START + CRTC_UNLOCK_CLEAR])]
  }

  /** One index/data pair per value: register `i` is selected, then written. */
  function IndexedWrites(index: u16, data: u16, values: seq<byte>): (r: seq<PortEvent>)
    requires |values| <= 0x100
    ensures |r| == 2 * |values|
    ensures forall i :: 0 <= i < |values| ==> r[2 * i] == Out(index, i) && r[2 * i + 1] == Out(data, values[i])
  {
    if values == [] then []
    else IndexedWrites(index, data, values[..|values| - 1]) + [Out(index, |values| - 1), Out(data, values[|values| - 1])]
  }

  /** The attribute controller: a status read resets its index/data flip-flop
      before each register is selected and written through the same port. */
  function AttributeWrites(values: seq<byte>): (r: seq<PortEvent>)
    requires |values| <= 0x100
    ensures |r| == 3 * |values|
    ensures forall i :: 0 <= i < |values| ==>
      r[3 * i] == In(INSTAT_READ) && r[3 * i + 1] == Out(AC_INDEX, i) && r[3 * i + 2] == Out(AC_WRITE, values[i])
  {
    if values == [] then []
    else AttributeWrites(values[..|values| - 1]) + AttributeWrite(|values| - 1, values[|values| - 1])
  }

  /** Register `i` of the attribute controller receives `value`. */
  function AttributeWrite(i: byte, value: byte): seq<PortEvent>
  {
    [In(INSTAT_READ), Out(AC_INDEX, i), Out(AC_WRITE, value)]
  }

  /** The CRT controller unlock. `rd03` and `rd11` are what the two reads of
      the data port return. */
  function Unlock(rd03: byte, rd11: byte): (r: seq<PortEvent>)
    ensures |r| == 6
    ensures r[0] == Out(CRTC_INDEX, CRTC_UNLOCK_SET) && r[1] == In(CRTC_DATA)
    ensures r[3] == Out(CRTC_INDEX, CRTC_UNLOCK_CLEAR) && r[4] == In(CRTC_DATA)
    ensures r[2].Out? && r[2].port == CRTC_DATA && r[2].value >= 0x80 && r[2].value % 0x80 == rd03 % 0x80
    ensures r[5].Out? && r[5].port == CRTC_DATA && r[5].value < 0x80 && r[5].value % 0x80 == rd11 % 0x80
  {
    [Out(CRTC_INDEX, CRTC_UNLOCK_SET), In(CRTC_DATA), Out(CRTC_DATA, SetHigh(rd03)),
     Out(CRTC_INDEX, CRTC_UNLOCK_CLEAR), In(CRTC_DATA), Out(CRTC_DATA, ClearHigh(rd11))]
  }

  /** Lock the 16-colour palette and unblank the display. */
  const PALETTE_LOCK: seq<PortEvent> := [In(INSTAT_READ), Out(AC_INDEX, 0x20)]

  /** Everything `write_regs(t)` sends, in order. */
  function Events(t: seq<byte>, rd03: byte, rd11: byte): (r: seq<PortEvent>)
    requires |t| >= NUM_REGS
    ensures |r| == 150
    ensures r[0] == Out(MISC_WRITE, t[0]) && r[148..] == PALETTE_LOCK
  {
    [Out(MISC_WRITE, t[0])]
    + IndexedWrites(SEQ_INDEX, SEQ_DATA, t[SEQ_START..CRTC_START])
    + Unlock(rd03, rd11)
    + IndexedWrites(CRTC_INDEX, CRTC_DATA, Patched(t)[CRTC_START..GC_START])
    + IndexedWrites(GC_INDEX, GC_DATA, t[GC_START..AC_START])
    + AttributeWrites(t[AC_START..NUM_REGS])
    + PALETTE_LOCK
  }

  /** Where each group of `write_regs` lies among its 150 port accesses. */
  lemma EventsLayout(t: seq<byte>, rd03: byte, rd11: byte)
    requires |t| >= NUM_REGS
    ensures var e := Events(t, rd03, rd11);
      |e| == 150 &&
      e[0] == Out(MISC_WRITE, t[0]) &&
      e[1..11] == IndexedWrites(SEQ_INDEX, SEQ_DATA, t[SEQ_START..CRTC_START]) &&
      e[11..17] == Unlock(rd03, rd11) &&
      e[17..67] == IndexedWrites(CRTC_INDEX, CRTC_DATA, Patched(t)[CRTC_START..GC_START]) &&
      e[67..85] == IndexedWrites(GC_INDEX, GC_DATA, t[GC_START..AC_START]) &&
      e[85..148] == AttributeWrites(t[AC_START..NUM_REGS]) &&
      e[148..] == PALETTE_LOCK
  {
    var x := [Out(MISC_WRITE, t[0])] + IndexedWrites(SEQ_INDEX, SEQ_DATA, t[SEQ_START..CRTC_START]);
    var y := x + Unlock(rd03, rd11);
    var z := y + IndexedWrites(CRTC_INDEX, CRTC_DATA, Patched(t)[CRTC_START..GC_START]);
    var w := z + IndexedWrites(GC_INDEX, GC_DATA, t[GC_START..AC_START]);
    var v := w + AttributeWrites(t[AC_START..NUM_REGS]);
    assert Events(t, rd03, rd11) == v + PALETTE_LOCK;
    Peel(v, PALETTE_LOCK, 148);
    Peel(w, AttributeWrites(t[AC_START..NUM_REGS]), 85);
    Peel(z, IndexedWrites(GC_INDEX, GC_DATA, t[GC_START..AC_START]), 67);
    Peel(y, IndexedWrites(CRTC_INDEX, CRTC_DATA, Patched(t)[CRTC_START..GC_START]), 17);
    Peel(x, Unlock(rd03, rd11), 11);
    Peel([Out(MISC_WRITE, t[0])], IndexedWrites(SEQ_INDEX, SEQ_DATA, t[SEQ_START..CRTC_START]), 1);
  }

  /** A slice of `a + b` that lies inside `a` is a slice of `a`, and `b` sits
      right after `a`. */
  lemma Peel<T>(a: seq<T>, b: seq<T>, k: nat)
    requires |a| == k
    ensures forall i, j :: 0 <= i <= j <= k ==> (a + b)[i..j] == a[i..j]
    ensures (a + b)[k..] == b && (a + b)[..k] == a
  {
    forall i, j | 0 <= i <= j <= k ensures (a + b)[i..j] == a[i..j] {
      assert forall m :: 0 <= m < j - i ==> (a + b)[i..j][m] == a[i..j][m];
    }
  }

  /** The patch is idempotent and touches only the CRT controller group, so
      a second `write_regs` over the same table, with the same values read
      back during the unlock, sends exactly the same writes. */
  lemma SecondCallSameWrites(t: seq<byte>, rd03: byte, rd11: byte)
    requires |t| >= NUM_REGS
    ensures Patched(Patched(t)) == Patched(t)
    ensures Events(Patched(t), rd03, rd11) == Events(t, rd03, rd11)
  {
    var p := Patched(t);
    assert Patched(p) == p;
    assert p[SEQ_START..CRTC_START] == t[SEQ_START..CRTC_START];
    assert p[GC_START..AC_START] == t[GC_START..AC_START];
    assert p[AC_START..NUM_REGS] == t[AC_START..NUM_REGS];
  }

  /** The stock table already has the unlock bits in place: `write_regs`
      leaves it as it was. */
  lemma StockTableIsPatched()
    ensures |MODE_320X200X256| == NUM_REGS && Patched(MODE_320X200X256) == MODE_320X200X256
  {
    assert MODE_CRTC[CRTC_UNLOCK_SET] == 0x82 && MODE_CRTC[CRTC_UNLOCK_CLEAR] == 0x0E;
    assert |MODE_MISC + MODE_SEQ| == CRTC_START;
  }

  /** `write_regs(regs)`: the table pointer `p` advances through the five
      groups; between the sequencer and the CRT controller the table is
      patched in place. The two `inb` results are the parameters `rd03` and
      `rd11`. */
  method WriteRegs(regs: array<byte>, rd03: byte, rd11: byte) returns (events: seq<PortEvent>)
    requires regs.Length >= NUM_REGS
    modifies regs
    ensures regs[..] == Patched(old(regs[..]))
    ensures events == Events(old(regs[..]), rd03, rd11)
  {
    ghost var t := regs[..];
    var p := 0;
    events := [Out(MISC_WRITE, regs[p])];
    p := p + 1;
    var writes := WriteIndexed(regs, p, NUM_SEQ_REGS, SEQ_INDEX, SEQ_DATA);
    events := events + writes;
    p := p + NUM_SEQ_REGS;
    events := events + Unlock(rd03, rd11);
    regs[p + CRTC_UNLOCK_SET] := SetHigh(regs[p + CRTC_UNLOCK_SET]);
    regs[p + CRTC_UNLOCK_CLEAR] := ClearHigh(regs[p + CRTC_UNLOCK_CLEAR]);
    assert regs[..] == Patched(t);
    writes := WriteIndexed(regs, p, NUM_CRTC_REGS, CRTC_INDEX, CRTC_DATA);
    events := events + writes;
    p := p + NUM_CRTC_REGS;
    assert regs[p..p + NUM_GC_REGS] == t[GC_START..AC_START];
    writes := WriteIndexed(regs, p, NUM_GC_REGS, GC_INDEX, GC_DATA);
    events := events + writes;
    p := p + NUM_GC_REGS;
    assert regs[p..p + NUM_AC_REGS] == t[AC_START..NUM_REGS];
    writes := WriteAttributes(regs, p, NUM_AC_REGS);
    events := events + writes;
    events := events + PALETTE_LOCK;
  }

  /** One of the index/data loops of `write_regs`: `count` registers from
      `regs[from]` on. */
  method WriteIndexed(regs: array<byte>, from: nat, count: nat, index: u16, data: u16) returns (events: seq<PortEvent>)
    requires from + count <= regs.Length && count <= 0x100
    ensures events == IndexedWrites(index, data, regs[from..from + count])
  {
    events := [];
    var i := 0;
    while i < count
      invariant 0 <= i <= count
      invariant events == IndexedWrites(index, data, regs[from..from + i])
    {
      assert regs[from..from + i + 1][..i] == regs[from..from + i];
      events := events + [Out(index, i), Out(data, regs[from + i])];
      i := i + 1;
    }
  }

  /** The attribute-controller loop of `write_regs`. */
  method WriteAttributes(regs: array<byte>, from: nat, count: nat) returns (events: seq<PortEvent>)
    requires from + count <= regs.Length && count <= 0x100
    ensures events == AttributeWrites(regs[from..from + count])
  {
    events := [];
    var i := 0;
    while i < count
      invariant 0 <= i <= count
      invariant events == AttributeWrites(regs[from..from + i])
    {
      assert regs[from..from + i + 1][..i] == regs[from..from + i];
      events := events + AttributeWrite(i, regs[from + i]);
      i := i + 1;
    }
    assert regs[from..from + i] == regs[from..from + count];
  }
}

/** The text console as values: the state of the character grid and its
    cursor, and what `putChar`, `backup`, `updateCursor` and
    `vga_terminal_writeString` do to that state and to the port log. The
    class in terminal.dfy runs the same steps in place and is proved to
    agree with these functions. */
module TextConsole {
  import opened Platform

  const NEWLINE: byte := 10
  const BACKSPACE: byte := 8
  const TAB: byte := 9
  const SPACE: byte := 32
  const TAB_SIZE: nat := 2

  /** A colour of the 16-entry text palette. */
  type Color = x: int | 0 <= x < 16

  const COLOR_BLACK: Color := 0
  const COLOR_LIGHT_GREY: Color := 7

  const CURSOR_LOW: byte := 0x0F
  const CURSOR_HIGH: byte := 0x0E

  /** `vga_terminal_makeColor`: foreground in the low nibble, background in the high one. */
  function MakeColor(fg: Color, bg: Color): (attr: byte)
    ensures attr % 16 == fg && attr / 16 == bg
  {
    fg + bg * 16
  }

  /** `entry(c, color)`: the 16-bit cell. The character is a signed `char`, so
      a byte of 128 or more is sign-extended and fills the attribute byte with ones. */
  function Entry(c: byte, color: byte): (cell: u16)
    ensures cell % 0x100 == c
    ensures cell / 0x100 == if c < 0x80 then color else 0xFF
  {
    if c < 0x80 then c + color * 0x100 else 0xFF00 + c
  }

  /** The grid, the cursor and the current attribute byte. */
  datatype Console = Console(width: nat, height: nat, row: nat, column: nat, color: byte, cells: seq<u16>)
  {
    ghost predicate Valid()
    {
      width > 0 && height > 0 && |cells| == Area(width, height) && row < height && column < width
    }

    function Cursor(): nat
    {
      Linear(width, column, row)
    }
  }

  /** A console and the port accesses that produced it. */
  datatype Step = Step(console: Console, events: seq<PortEvent>)

  /** The attribute the console starts with. */
  const DEFAULT_COLOR: byte := MakeColor(COLOR_LIGHT_GREY, COLOR_BLACK)

  /** `vga_terminal_initialize`: cursor home, default colour, every cell blank. */
  function Initialized(width: nat, height: nat): (s: Console)
    requires width > 0 && height > 0
    ensures s.Valid() && s.row == 0 && s.column == 0 && s.color == DEFAULT_COLOR
    ensures forall j :: 0 <= j < |s.cells| ==> s.cells[j] == Entry(SPACE, DEFAULT_COLOR) == 0x0720
  {
    Console(width, height, 0, 0, DEFAULT_COLOR, seq(Area(width, height), _ => Entry(SPACE, DEFAULT_COLOR)))
  }

  /** Two consoles of the same geometry and colour. */
  ghost predicate SameScreen(a: Console, b: Console)
  {
    a.width == b.width && a.height == b.height && a.color == b.color
  }

  /** `shiftUp` followed by blanking the last row: every row moves up by one,
      the first is lost and the last becomes `blank`. */
  function Scroll(cells: seq<u16>, width: nat, blank: u16): (r: seq<u16>)
    requires width <= |cells|
    ensures |r| == |cells|
    ensures forall j :: 0 <= j < |cells| - width ==> r[j] == cells[j + width]
    ensures forall j :: |cells| - width <= j < |cells| ==> r[j] == blank
  {
    cells[width..] + BlankLine(width, blank)
  }

  /** The row a scroll brings in: `width` copies of `blank`. */
  function BlankLine(width: nat, blank: u16): (r: seq<u16>)
    ensures |r| == width && forall j :: 0 <= j < width ==> r[j] == blank
  {
    seq(width, _ => blank)
  }

  /** The regular-character branch of `putChar`: store the cell at the cursor,
      advance, wrap at the end of a row and scroll at the end of the grid. */
  function Written(s: Console, c: byte): (r: Console)
    requires s.Valid()
    ensures r.Valid() && SameScreen(r, s)
  {
    LinearBound(s.width, s.height, s.column, s.row);
    var cells := s.cells[s.Cursor() := Entry(c, s.color)];
    if s.column + 1 < s.width then s.(column := s.column + 1, cells := cells)
    else if s.row + 1 < s.height then s.(row := s.row + 1, column := 0, cells := cells)
    else s.(column := 0, cells := Scroll(cells, s.width, Entry(SPACE, s.color)))
  }

  /** `backup`: one cell back, from column 0 to the last column of the row
      above, and from row 0 to the last row. */
  function BackedUp(s: Console): (r: Console)
    requires s.Valid()
    ensures r.Valid() && SameScreen(r, s) && r.cells == s.cells
    ensures s.column > 0 ==> r.row == s.row && r.column == s.column - 1
    ensures s.column == 0 ==>
      r.column == s.width - 1 && r.row == (if s.row > 0 then s.row - 1 else s.height - 1)
  {
    if s.column > 0 then s.(column := s.column - 1)
    else if s.row > 0 then s.(row := s.row - 1, column := s.width - 1)
    else s.(row := s.height - 1, column := s.width - 1)
  }

  /** `updateCursor`: the cursor position, truncated to `unsigned short`, goes
      to the CRT controller's cursor-location registers, low byte first. */
  function CursorSync(s: Console): (events: seq<PortEvent>)
    ensures |events| == 4
    ensures events[0] == Out(CRTC_INDEX, CURSOR_LOW) && events[2] == Out(CRTC_INDEX, CURSOR_HIGH)
    ensures events[1].Out? && events[1].port == CRTC_DATA && events[3].Out? && events[3].port == CRTC_DATA
    ensures events[3].value * 0x100 + events[1].value == Linear(s.width, s.column, s.row) % 0x1_0000
  {
    var position := Linear(s.width, s.column, s.row) % 0x1_0000;
    [Out(CRTC_INDEX, CURSOR_LOW), Out(CRTC_DATA, position % 0x100),
     Out(CRTC_INDEX, CURSOR_HIGH), Out(CRTC_DATA, position / 0x100 % 0x100)]
  }

  function Rank(c: byte): nat
  {
    if c == NEWLINE || c == BACKSPACE || c == TAB then 1 else 0
  }

  /** `putChar(c)`. Every path keeps the cursor on the grid. */
  function Put(s: Console, c: byte): (r: Step)
    requires s.Valid()
    ensures r.console.Valid() && SameScreen(r.console, s)
    decreases Rank(c), 1, 0
  {
    if c == NEWLINE then
      Put(s.(column := s.width - 1), SPACE)
    else if c == BACKSPACE then
      var t := Put(BackedUp(s), SPACE);
      var u := BackedUp(t.console);
      Step(u, t.events + CursorSync(u))
    else if c == TAB then
      PutSpaces(s, TAB_SIZE)
    else
      var t := Written(s, c);
      Step(t, CursorSync(t))
  }

  /** The four branches of `putChar`, one at a time. */
  lemma PutRegular(s: Console, c: byte)
    requires s.Valid() && Rank(c) == 0
    ensures Put(s, c) == Step(Written(s, c), CursorSync(Written(s, c)))
  {
  }

  lemma PutNewline(s: Console)
    requires s.Valid()
    ensures Put(s, NEWLINE) == Put(s.(column := s.width - 1), SPACE)
  {
    assert NEWLINE != SPACE;
  }

  lemma PutBackspace(s: Console)
    requires s.Valid()
    ensures var t := Put(BackedUp(s), SPACE);
      Put(s, BACKSPACE) == Step(BackedUp(t.console), t.events + CursorSync(BackedUp(t.console)))
  {
  }

  lemma PutTab(s: Console)
    requires s.Valid()
    ensures Put(s, TAB) == PutSpaces(s, TAB_SIZE)
  {
  }

  /** The tab branch of `putChar`: `n` spaces, one `putChar(' ')` each. */
  function PutSpaces(s: Console, n: nat): (r: Step)
    requires s.Valid()
    ensures r.console.Valid() && SameScreen(r.console, s)
    decreases 0, 2, n
  {
    if n == 0 then Step(s, [])
    else
      var p := PutSpaces(s, n - 1);
      var q := Put(p.console, SPACE);
      Step(q.console, p.events + q.events)
  }

  /** `putChar` applied to each byte of `cs` in turn. */
  function PutAll(s: Console, cs: seq<byte>): (r: Step)
    requires s.Valid()
    ensures r.console.Valid() && SameScreen(r.console, s)
  {
    if cs == [] then Step(s, [])
    else
      var p := PutAll(s, cs[..|cs| - 1]);
      var q := Put(p.console, cs[|cs| - 1]);
      Step(q.console, p.events + q.events)
  }

  /** One more byte of a prefix is one more `putChar`. */
  lemma PutAllStep(s: Console, cs: seq<byte>, i: nat)
    requires s.Valid() && i < |cs|
    ensures var p := PutAll(s, cs[..i]); var q := Put(p.console, cs[i]);
      PutAll(s, cs[..i + 1]) == Step(q.console, p.events + q.events)
  {
    assert cs[..i + 1][..i] == cs[..i];
  }

  lemma AppendAssoc<T>(a: seq<T>, b: seq<T>, c: seq<T>)
    ensures (a + b) + c == a + (b + c)
  {
  }

  lemma SuffixOfConcat<T>(a: seq<T>, b: seq<T>, n: nat)
    requires n <= |b|
    ensures (a + b)[|a + b| - n..] == b[|b| - n..]
  {
  }

  /** Continue `p` with the bytes `cs`. */
  function Then(p: Step, cs: seq<byte>): (r: Step)
    requires p.console.Valid()
  {
    var q := PutAll(p.console, cs);
    Step(q.console, p.events + q.events)
  }

  /** `vga_terminal_writeString`: the bytes before the terminating NUL. */
  function WriteString(s: Console, data: seq<byte>): (r: Step)
    requires s.Valid()
    ensures r.console.Valid() && SameScreen(r.console, s)
    ensures StringLength(data) == 0 ==> r == Step(s, [])
  {
    PutAll(s, data[..StringLength(data)])
  }

  /** The cells a run of regular characters leaves in the current colour. */
  function Entries(cs: seq<byte>, color: byte): (r: seq<u16>)
    ensures |r| == |cs|
    ensures forall i :: 0 <= i < |cs| ==> r[i] == Entry(cs[i], color)
  {
    seq(|cs|, i requires 0 <= i < |cs| => Entry(cs[i], color))
  }

  /** No byte of `cs` is a control code `putChar` interprets. */
  ghost predicate Plain(cs: seq<byte>)
  {
    forall i :: 0 <= i < |cs| ==> Rank(cs[i]) == 0
  }
}

/** The text console as the driver runs it: module state updated in place,
    a cell buffer written one entry at a time, and the port writes recorded
    in `ports`. Each branch of `putChar` and each public operation is proved
    to agree with the functions of TextConsole; the helpers that touch single
    cells or rows, `SetBackgroundColor` and the constructor state their
    effect in their own contracts. */
module TextTerminal {
  import opened Platform
  import opened TextConsole

  class Terminal {
    const width: nat
    const height: nat
    /** The text surface; it stands for the adapter memory at 0xB8000. */
    const buffer: array<u16>
    var row: nat
    var column: nat
    var color: byte
    /** Every `outb`/`inb` the console has issued, oldest first. */
    var ports: seq<PortEvent>

    ghost predicate Valid()
      reads this
    {
      width > 0 && height > 0 && buffer.Length == Area(width, height) && row < height && column < width
    }

    ghost function State(): (s: Console)
      reads this, buffer
      ensures Valid() ==> s.Valid()
    {
      Console(width, height, row, column, color, buffer[..])
    }

    /** The module state before `vga_terminal_initialize`: zeroed statics. */
    constructor (w: nat, h: nat)
      requires w > 0 && h > 0
      ensures Valid() && fresh(buffer)
      ensures width == w && height == h && row == 0 && column == 0 && color == 0 && ports == []
    {
      width, height := w, h;
      buffer := new u16[Area(w, h)];
      row, column, color := 0, 0, 0;
      ports := [];
    }

    /** `vga_terminal_initialize`. */
    method Initialize()
      requires Valid()
      modifies this, buffer
      ensures Valid() && State() == Initialized(width, height) && ports == old(ports)
    {
      row := 0;
      column := 0;
      color := MakeColor(COLOR_LIGHT_GREY, COLOR_BLACK);
      var blank := Entry(SPACE, color);
      var y := 0;
      while y < height
        modifies buffer
        invariant 0 <= y <= height && Area(width, y) <= buffer.Length
        invariant forall j :: 0 <= j < Area(width, y) ==> buffer[j] == blank
      {
        AreaGrows(width, y + 1, height);
        var x := 0;
        while x < width
          modifies buffer
          invariant 0 <= x <= width
          invariant forall j :: 0 <= j < Linear(width, x, y) ==> buffer[j] == blank
        {
          LinearBound(width, height, x, y);
          buffer[Linear(width, x, y)] := blank;
          x := x + 1;
        }
        y := y + 1;
      }
      assert buffer[..] == Initialized(width, height).cells;
    }

    /** `vga_terminal_backgroundColor`: the whole attribute byte is replaced. */
    method SetBackgroundColor(newColor: byte)
      requires Valid()
      modifies this`color
      ensures Valid() && color == newColor
    {
      color := newColor;
    }

    /** `putEntryAt`. */
    method PutEntryAt(c: byte, attr: byte, x: nat, y: nat)
      requires buffer.Length == Area(width, height) && x < width && y < height
      modifies buffer
      ensures Linear(width, x, y) < buffer.Length &&
        buffer[..] == old(buffer[..])[Linear(width, x, y) := Entry(c, attr)]
    {
      LinearBound(width, height, x, y);
      buffer[Linear(width, x, y)] := Entry(c, attr);
    }

    /** `shiftUp`: each row after the first is copied over the one above it; the
        last row keeps its old content. */
    method ShiftUp()
      requires buffer.Length == Area(width, height) && width > 0 && height > 0
      modifies buffer
      ensures buffer[..] == old(buffer[..])[width..] + old(buffer[..])[Area(width, height - 1)..]
    {
      ghost var start := buffer[..];
      AreaGrows(width, 1, height);
      var i := width;
      ghost var rows := 1;
      while i < Area(width, height)
        invariant 1 <= rows <= height && i == Area(width, rows) && i <= buffer.Length
        invariant forall j :: 0 <= j < i - width ==> buffer[j] == start[j + width]
        invariant forall j :: i - width <= j < buffer.Length ==> buffer[j] == start[j]
      {
        AreaGrows(width, rows + 1, height);
        MoveRowUp(i);
        i, rows := i + width, rows + 1;
      }
      if rows < height {
        AreaGrows(width, rows, height);
        assert false;
      }
      assert buffer[..] == start[width..] + start[i - width..];
    }

    /** One pass of the `shiftUp` loop: the `memcpy` of the row at `i` over the
        row above it. */
    method MoveRowUp(i: nat)
      requires width <= i && i + width <= buffer.Length
      modifies buffer
      ensures forall j :: 0 <= j < buffer.Length && !(i - width <= j < i) ==> buffer[j] == old(buffer[j])
      ensures forall j :: i - width <= j < i ==> buffer[j] == old(buffer[j + width])
    {
      MemCopy(buffer, i - width, buffer, i, width);
    }

    /** `updateCursor`. */
    method UpdateCursor()
      modifies this`ports
      ensures ports == old(ports) + CursorSync(State())
    {
      var position := Linear(width, column, row) % 0x1_0000;
      ports := ports + [Out(CRTC_INDEX, CURSOR_LOW), Out(CRTC_DATA, position % 0x100)];
      ports := ports + [Out(CRTC_INDEX, CURSOR_HIGH), Out(CRTC_DATA, position / 0x100 % 0x100)];
    }

    /** `backup`. */
    method Backup()
      requires Valid()
      modifies this`row, this`column
      ensures Valid() && State() == BackedUp(old(State()))
    {
      if column == 0 {
        column := width - 1;
        if row == 0 {
          row := height - 1;
        } else {
          row := row - 1;
        }
      } else {
        column := column - 1;
      }
    }

    /** `putChar`. */
    method PutChar(c: byte)
      requires Valid()
      modifies this, buffer
      ensures Valid()
      ensures State() == Put(old(State()), c).console
      ensures ports == old(ports) + Put(old(State()), c).events
      decreases Rank(c), 1
    {
      ghost var s := State();
      if c == NEWLINE {
        column := width - 1;
        assert State() == s.(column := width - 1);
        PutChar(SPACE);
        PutNewline(s);
        return;
      } else if c == BACKSPACE {
        EraseBack();
        return;
      } else if c == TAB {
        PutTabSpaces();
        PutTab(s);
        return;
      } else {
        WriteRegular(c);
      }
      UpdateCursor();
      PutRegular(s, c);
    }

    /** The backspace branch of `putChar`: back up, overwrite with a space,
        back up again over it and move the cursor. */
    method EraseBack()
      requires Valid()
      modifies this, buffer
      ensures Valid()
      ensures State() == Put(old(State()), BACKSPACE).console
      ensures ports == old(ports) + Put(old(State()), BACKSPACE).events
      decreases 1, 0
    {
      ghost var s := State();
      Backup();
      ghost var b := State();
      PutChar(SPACE);
      ghost var t := State();
      assert t == Put(b, SPACE).console;
      Backup();
      assert State() == BackedUp(t);
      UpdateCursor();
      PutBackspace(s);
      AppendAssoc(old(ports), Put(b, SPACE).events, CursorSync(State()));
    }

    /** The tab branch of `putChar`: `TAB_SIZE` calls of `putChar(' ')`. */
    method PutTabSpaces()
      requires Valid()
      modifies this, buffer
      ensures Valid()
      ensures State() == PutSpaces(old(State()), TAB_SIZE).console
      ensures ports == old(ports) + PutSpaces(old(State()), TAB_SIZE).events
      decreases 1, 0
    {
      ghost var s := State();
      var i := 0;
      while i < TAB_SIZE
        invariant 0 <= i <= TAB_SIZE
        invariant Valid()
        invariant State() == PutSpaces(s, i).console
        invariant ports == old(ports) + PutSpaces(s, i).events
      {
        ghost var p := State();
        PutChar(SPACE);
        AppendAssoc(old(ports), PutSpaces(s, i).events, Put(p, SPACE).events);
        i := i + 1;
      }
    }

    /** The regular-character branch of `putChar`, up to the cursor update. */
    method WriteRegular(c: byte)
      requires Valid()
      modifies this`row, this`column, buffer
      ensures Valid() && State() == Written(old(State()), c)
    {
      PutEntryAt(c, color, column, row);
      column := column + 1;
      if column == width {
        column := 0;
        row := row + 1;
        if row == height {
          ScrollUp();
        }
      }
    }

    /** The scroll at the end of the grid: `shiftUp`, then the row index steps
        back and the last row is filled with spaces in the current colour. */
    method ScrollUp()
      requires buffer.Length == Area(width, height) && width > 0 && height > 0 && row == height
      modifies this`row, buffer
      ensures row == height - 1
      ensures buffer[..] == Scroll(old(buffer[..]), width, Entry(SPACE, color))
    {
      ghost var written := buffer[..];
      AreaGrows(width, height - 1, height);
      ShiftUp();
      row := row - 1;
      BlankRow();
      assert buffer[..] == Scroll(written, width, Entry(SPACE, color));
    }

    /** The blanking loop after `shiftUp`: every cell of row `row` becomes a
        space in the current colour. */
    method BlankRow()
      requires buffer.Length == Area(width, height) && row < height
      modifies buffer
      ensures forall j :: 0 <= j < buffer.Length ==>
        buffer[j] == if Linear(width, 0, row) <= j < Linear(width, 0, row) + width
          then Entry(SPACE, color) else old(buffer[j])
    {
      AreaGrows(width, row + 1, height);
      var col := 0;
      while col < width
        invariant 0 <= col <= width
        invariant forall j :: 0 <= j < buffer.Length ==>
          buffer[j] == if Linear(width, 0, row) <= j < Linear(width, 0, row) + col
            then Entry(SPACE, color) else old(buffer[j])
      {
        PutEntryAt(SPACE, color, col, row);
        col := col + 1;
      }
    }

    /** `vga_terminal_writeString`. */
    method WriteString(data: seq<byte>)
      requires Valid()
      modifies this, buffer
      ensures Valid()
      ensures State() == TextConsole.WriteString(old(State()), data).console
      ensures ports == old(ports) + TextConsole.WriteString(old(State()), data).events
    {
      var length := StringLength(data);
      var i := 0;
      while i < length
        invariant 0 <= i <= length
        invariant Valid()
        invariant State() == PutAll(old(State()), data[..i]).console
        invariant ports == old(ports) + PutAll(old(State()), data[..i]).events
      {
        ghost var p := PutAll(old(State()), data[..i]);
        PutChar(data[i]);
        PutAllStep(old(State()), data, i);
        AppendAssoc(old(ports), p.events, Put(p.console, data[i]).events);
        i := i + 1;
      }
      assert data[..length] == data[..StringLength(data)];
    }
  }
}

/** What the text console promises, stated over the functions of
    TextConsole: where a character lands and where the cursor goes, the exact
    effect of the three control codes, the scroll, and the hardware cursor
    being brought up to date after every character. */
module TextProperties {
  import opened Platform
  import opened TextConsole

  /** The two data bytes `updateCursor` sends rebuild the cursor cell,
      truncated to 16 bits, and exactly when the grid has at most 2^16 cells. */
  lemma CursorSyncDecodes(s: Console)
    requires s.Valid()
    ensures var e := CursorSync(s);
      |e| == 4 && e[0] == Out(CRTC_INDEX, CURSOR_LOW) && e[2] == Out(CRTC_INDEX, CURSOR_HIGH) &&
      e[1].Out? && e[1].port == CRTC_DATA && e[3].Out? && e[3].port == CRTC_DATA &&
      e[3].value * 0x100 + e[1].value == s.Cursor() % 0x1_0000 &&
      (Area(s.width, s.height) <= 0x1_0000 ==> e[3].value * 0x100 + e[1].value == s.Cursor())
  {
    LinearBound(s.width, s.height, s.column, s.row);
  }

  /** Every path of `putChar` ends with `updateCursor` for the final cursor. */
  lemma PutEndsWithCursorSync(s: Console, c: byte)
    requires s.Valid()
    ensures var r := Put(s, c);
      |r.events| >= 4 && r.events[|r.events| - 4..] == CursorSync(r.console)
  {
    if c == NEWLINE {
      PutNewline(s);
      PutRegular(s.(column := s.width - 1), SPACE);
    } else if c == BACKSPACE {
      PutBackspace(s);
      var t := Put(BackedUp(s), SPACE);
      SuffixOfConcat(t.events, CursorSync(BackedUp(t.console)), 4);
    } else if c == TAB {
      PutTab(s);
      PutSpacesEndsWithCursorSync(s, TAB_SIZE);
    } else {
      PutRegular(s, c);
    }
  }

  lemma PutSpacesEndsWithCursorSync(s: Console, n: nat)
    requires s.Valid() && n > 0
    ensures var r := PutSpaces(s, n);
      |r.events| >= 4 && r.events[|r.events| - 4..] == CursorSync(r.console)
  {
    var p := PutSpaces(s, n - 1);
    PutRegular(p.console, SPACE);
    SuffixOfConcat(p.events, Put(p.console, SPACE).events, 4);
  }

  /** After a non-empty run of `putChar` the hardware cursor was last set to
      the final cursor. */
  lemma PutAllEndsWithCursorSync(s: Console, cs: seq<byte>)
    requires s.Valid() && cs != []
    ensures var r := PutAll(s, cs);
      |r.events| >= 4 && r.events[|r.events| - 4..] == CursorSync(r.console)
  {
    var p := PutAll(s, cs[..|cs| - 1]);
    var q := Put(p.console, cs[|cs| - 1]);
    PutEndsWithCursorSync(p.console, cs[|cs| - 1]);
    SuffixOfConcat(p.events, q.events, 4);
  }

  /** `n` spaces through the tab loop are `n` calls of `putChar(' ')`. */
  lemma {:induction false} PutSpacesIsPutAll(s: Console, n: nat)
    requires s.Valid()
    ensures PutSpaces(s, n) == PutAll(s, seq(n, _ => SPACE))
  {
    if n > 0 {
      var cs := seq(n, _ => SPACE);
      assert cs[..n - 1] == seq(n - 1, _ => SPACE);
      PutSpacesIsPutAll(s, n - 1);
    }
  }

  /** A tab is exactly two `putChar(' ')`, cells, cursor and port writes alike. */
  lemma TabIsTwoSpaces(s: Console)
    requires s.Valid()
    ensures Put(s, TAB) == PutAll(s, [SPACE, SPACE])
  {
    PutTab(s);
    PutSpacesIsPutAll(s, TAB_SIZE);
    assert seq(TAB_SIZE, _ => SPACE) == [SPACE, SPACE];
  }

  /** Writing `a + b` is writing `a` and then `b`. */
  lemma {:induction false} PutAllAppend(s: Console, a: seq<byte>, b: seq<byte>)
    requires s.Valid()
    ensures PutAll(s, a + b) == Then(PutAll(s, a), b)
  {
    if b == [] {
      assert a + b == a;
    } else {
      var b' := b[..|b| - 1];
      assert (a + b)[..|a + b| - 1] == a + b';
      assert (a + b)[|a + b| - 1] == b[|b| - 1];
      PutAllAppend(s, a, b');
      var p := PutAll(s, a);
      var q := PutAll(p.console, b');
      AppendAssoc(p.events, q.events, Put(q.console, b[|b| - 1]).events);
    }
  }

  /** `vga_terminal_writeString` writes the bytes before the first NUL and
      ignores everything after it. */
  lemma WriteStringStopsAtNul(s: Console, a: seq<byte>, b: seq<byte>)
    requires s.Valid()
    requires forall i :: 0 <= i < |a| ==> a[i] != 0
    ensures WriteString(s, a + [0] + b) == PutAll(s, a)
  {
    var data := a + [0] + b;
    var n := StringLength(data);
    assert data[|a|] == 0;
    assert forall i :: 0 <= i < |a| ==> data[i] == a[i];
    assert n == |a|;
    assert data[..n] == a;
  }

  /** A string without NUL is written in full. */
  lemma WriteStringWithoutNul(s: Console, data: seq<byte>)
    requires s.Valid()
    requires forall i :: 0 <= i < |data| ==> data[i] != 0
    ensures WriteString(s, data) == PutAll(s, data)
  {
    assert data[..StringLength(data)] == data;
  }

  /** A regular byte lands at the cursor in the current colour and the cursor
      moves one cell on in row-major order; only from the very last cell does
      the grid scroll, leaving the cursor at the start of the last row. No
      other cell changes. */
  lemma RegularAdvances(s: Console, c: byte)
    requires s.Valid() && Rank(c) == 0
    ensures var r := Put(s, c);
      s.Cursor() < |s.cells| && r.events == CursorSync(r.console) && r.console.color == s.color &&
      var cells := s.cells[s.Cursor() := Entry(c, s.color)];
      (s.Cursor() + 1 < |s.cells| ==> r.console.Cursor() == s.Cursor() + 1 && r.console.cells == cells) &&
      (s.Cursor() + 1 == |s.cells| ==>
        r.console.row == s.height - 1 && r.console.column == 0 &&
        r.console.cells == Scroll(cells, s.width, Entry(SPACE, s.color)))
  {
    PutRegular(s, c);
    LinearBound(s.width, s.height, s.column, s.row);
    if s.column + 1 == s.width {
      if s.row + 1 < s.height {
        LinearBound(s.width, s.height, 0, s.row + 1);
      } else {
        assert Area(s.width, s.height) == s.Cursor() + 1;
      }
    } else {
      LinearBound(s.width, s.height, s.column + 1, s.row);
    }
  }

  /** The scroll, cell by cell: rows 0 to H-2 take the old rows 1 to H-1
      (with `RegularAdvances`, the byte just written included) and the last
      row is blank. */
  lemma ScrollMovesRows(cells: seq<u16>, width: nat, height: nat, blank: u16, x: nat, y: nat)
    requires |cells| == Area(width, height) && x < width && y < height
    ensures var r := Scroll(cells, width, blank);
      Linear(width, x, y) < |r| &&
      (y + 1 < height ==> Linear(width, x, y + 1) < |cells| && r[Linear(width, x, y)] == cells[Linear(width, x, y + 1)]) &&
      (y + 1 == height ==> r[Linear(width, x, y)] == blank)
  {
    LinearBound(width, height, x, y);
    if y + 1 < height {
      LinearBound(width, height, x, y + 1);
      assert Linear(width, x, y + 1) == Linear(width, x, y) + width;
    } else {
      assert Linear(width, x, y) >= |cells| - width;
    }
  }

  /** Newline moves to the last column and writes one space there, so only
      the cell at (row, W-1) is blanked; the cursor ends at column 0 of the
      next row, or the grid scrolls on the last row. */
  /** A regular character in the last column: the row ends, and the cursor
      wraps to the next row or the grid scrolls. */
  lemma WrittenAtRowEnd(s: Console, c: byte)
    requires s.Valid() && s.column + 1 == s.width
    ensures s.Cursor() < |s.cells|
    ensures var cells := s.cells[s.Cursor() := Entry(c, s.color)];
      Written(s, c) ==
        if s.row + 1 < s.height then s.(row := s.row + 1, column := 0, cells := cells)
        else s.(column := 0, cells := Scroll(cells, s.width, Entry(SPACE, s.color)))
  {
    LinearBound(s.width, s.height, s.column, s.row);
  }

  lemma NewlineEffect(s: Console)
    requires s.Valid()
    ensures var r := Put(s, NEWLINE); var blank := Entry(SPACE, s.color);
      var last := Linear(s.width, s.width - 1, s.row);
      last < |s.cells| && r.console.column == 0 && r.console.color == s.color &&
      r.events == CursorSync(r.console) &&
      (s.row + 1 < s.height ==> r.console.row == s.row + 1 && r.console.cells == s.cells[last := blank]) &&
      (s.row + 1 == s.height ==>
        r.console.row == s.row && r.console.cells == Scroll(s.cells[last := blank], s.width, blank))
  {
    PutNewline(s);
    var e := s.(column := s.width - 1);
    PutRegular(e, SPACE);
    WrittenAtRowEnd(e, SPACE);
    assert e.Cursor() == Linear(s.width, s.width - 1, s.row);
  }

  /** Backspace inside a row: the cell to the left becomes a space and the
      cursor stays on it. The first cursor update reports the cell the
      cursor started on. */
  lemma BackspaceMidRow(s: Console)
    requires s.Valid() && s.column > 0
    ensures var r := Put(s, BACKSPACE); var k := Linear(s.width, s.column - 1, s.row);
      k < |s.cells| &&
      var cells := s.cells[k := Entry(SPACE, s.color)];
      r.console == s.(column := s.column - 1, cells := cells) &&
      r.events == CursorSync(s.(cells := cells)) + CursorSync(r.console)
  {
    PutBackspace(s);
    var b := BackedUp(s);
    assert b == s.(column := s.column - 1);
    PutRegular(b, SPACE);
    LinearBound(s.width, s.height, b.column, b.row);
    var cells := s.cells[b.Cursor() := Entry(SPACE, s.color)];
    var t := Written(b, SPACE);
    assert t == s.(cells := cells);
    assert BackedUp(t) == s.(column := s.column - 1, cells := cells);
  }

  /** A byte stored in the last column of a row that is not the last moves
      the cursor to the start of the next row. */
  lemma WrittenWraps(s: Console, c: byte)
    requires s.Valid() && s.column + 1 == s.width && s.row + 1 < s.height
    ensures s.Cursor() < |s.cells| &&
      Written(s, c) == s.(row := s.row + 1, column := 0, cells := s.cells[s.Cursor() := Entry(c, s.color)])
  {
    LinearBound(s.width, s.height, s.column, s.row);
  }

  /** Backspace at the start of a row below the first: the last cell of the
      row above becomes a space and the cursor stays on it. */
  lemma BackspaceRowStart(s: Console)
    requires s.Valid() && s.column == 0 && s.row > 0
    ensures var r := Put(s, BACKSPACE); var k := Linear(s.width, s.width - 1, s.row - 1);
      k < |s.cells| &&
      var cells := s.cells[k := Entry(SPACE, s.color)];
      r.console == s.(row := s.row - 1, column := s.width - 1, cells := cells) &&
      r.events == CursorSync(s.(cells := cells)) + CursorSync(r.console)
  {
    var b := s.(row := s.row - 1, column := s.width - 1);
    WrittenWraps(b, SPACE);
    var cells := s.cells[b.Cursor() := Entry(SPACE, s.color)];
    var t := s.(cells := cells);
    var u := b.(cells := cells);
    assert Put(s, BACKSPACE) == Step(u, CursorSync(t) + CursorSync(u)) by {
      PutBackspace(s);
      assert BackedUp(s) == b;
      PutRegular(b, SPACE);
      assert Written(b, SPACE) == t;
      assert BackedUp(t) == u;
    }
  }

  /** Backspace at (0, 0): `backup` wraps to the last cell, the space written
      there wraps past the end of the grid and scrolls it, and the second
      `backup` leaves the cursor at the end of row H-2 (row 0 on a one-row
      grid), on that space. The top row is lost. */
  lemma BackspaceAtOrigin(s: Console)
    requires s.Valid() && s.column == 0 && s.row == 0
    ensures var r := Put(s, BACKSPACE); var blank := Entry(SPACE, s.color);
      var scrolled := Scroll(s.cells[|s.cells| - 1 := blank], s.width, blank);
      |s.cells| > 0 && r.console == s.(row := if s.height > 1 then s.height - 2 else 0, column := s.width - 1, cells := scrolled) &&
      r.events == CursorSync(s.(row := s.height - 1, cells := scrolled)) + CursorSync(r.console)
  {
    PutBackspace(s);
    var b := BackedUp(s);
    PutRegular(b, SPACE);
    assert b == s.(row := s.height - 1, column := s.width - 1);
    LinearBound(s.width, s.height, s.width - 1, s.height - 1);
    assert b.Cursor() == |s.cells| - 1;
  }

  /** Storing one more entry just past a run extends the run. */
  lemma StoreAfterRun(cells: seq<u16>, p: nat, init: seq<byte>, c: byte, color: byte)
    requires p + |init| < |cells|
    ensures (cells[..p] + Entries(init, color) + cells[p + |init|..])[p + |init| := Entry(c, color)] ==
      cells[..p] + Entries(init + [c], color) + cells[p + |init| + 1..]
  {
    assert Entries(init + [c], color) == Entries(init, color) + [Entry(c, color)];
  }

  /** A run of ordinary bytes that fits in the rest of the row is stored
      cell after cell from the cursor, and the cursor ends just past it. */
  lemma {:induction false} RunWithinRow(s: Console, cs: seq<byte>)
    requires s.Valid() && Plain(cs) && s.column + |cs| < s.width
    ensures var p := s.Cursor();
      p + |cs| <= |s.cells| &&
      PutAll(s, cs).console ==
        s.(column := s.column + |cs|, cells := s.cells[..p] + Entries(cs, s.color) + s.cells[p + |cs|..])
  {
    var p := s.Cursor();
    LinearBound(s.width, s.height, s.column + |cs|, s.row);
    if cs == [] {
      assert s.cells[..p] + Entries(cs, s.color) + s.cells[p..] == s.cells;
    } else {
      var n := |cs|;
      var init := cs[..n - 1];
      var c := cs[n - 1];
      assert Plain(init) by {
        forall i | 0 <= i < |init| ensures Rank(init[i]) == 0 {
          assert init[i] == cs[i];
        }
      }
      RunWithinRow(s, init);
      var t := PutAll(s, init).console;
      assert Rank(c) == 0;
      PutRegular(t, c);
      assert t.Cursor() == p + (n - 1);
      assert cs == init + [c];
      StoreAfterRun(s.cells, p, init, c, s.color);
    }
  }

  /** The entries of two runs, one after the other. */
  lemma EntriesAppend(a: seq<byte>, b: seq<byte>, color: byte)
    ensures Entries(a + b, color) == Entries(a, color) + Entries(b, color)
  {
  }

  lemma PlainParts(cs: seq<byte>, n: nat)
    requires Plain(cs) && n <= |cs|
    ensures Plain(cs[..n]) && Plain(cs[n..])
  {
    forall i | 0 <= i < n ensures Rank(cs[..n][i]) == 0 {
      assert cs[..n][i] == cs[i];
    }
    forall i | 0 <= i < |cs| - n ensures Rank(cs[n..][i]) == 0 {
      assert cs[n..][i] == cs[n + i];
    }
  }

  /** `cells` with the run `cs` stored from index `p` in `color`. */
  function Stored(cells: seq<u16>, p: nat, cs: seq<byte>, color: byte): (r: seq<u16>)
    requires p + |cs| <= |cells|
    ensures |r| == |cells|
  {
    cells[..p] + Entries(cs, color) + cells[p + |cs|..]
  }

  /** A row's worth of ordinary bytes from the start of a row: all but the
      last are stored within the row, and the last is a regular `putChar`
      from the last column. */
  lemma RowRunLast(s: Console, cs: seq<byte>)
    requires s.Valid() && Plain(cs) && s.column == 0 && |cs| == s.width
    ensures var p := s.Cursor(); var n := |cs|;
      p + n <= |s.cells| &&
      PutAll(s, cs).console == Written(s.(column := n - 1, cells := Stored(s.cells, p, cs[..n - 1], s.color)), cs[n - 1])
  {
    var n := |cs|;
    LinearBound(s.width, s.height, n - 1, s.row);
    PlainParts(cs, n - 1);
    var init := cs[..n - 1];
    RunWithinRow(s, init);
    var t := PutAll(s, init).console;
    assert t == s.(column := n - 1, cells := Stored(s.cells, s.Cursor(), init, s.color));
    assert PutAll(s, cs).console == Put(t, cs[n - 1]).console;
    assert Rank(cs[n - 1]) == 0;
    PutRegular(t, cs[n - 1]);
  }

  /** A whole row of ordinary bytes written from the start of a row is stored
      across that row; the cursor wraps to the start of the next row, or, on
      the last row, the grid scrolls and the cursor stays at the start of the
      last row. */
  lemma RowRun(s: Console, cs: seq<byte>)
    requires s.Valid() && Plain(cs) && s.column == 0 && |cs| == s.width
    ensures var p := s.Cursor();
      p + |cs| <= |s.cells| &&
      (s.row + 1 < s.height ==>
        PutAll(s, cs).console == s.(row := s.row + 1, column := 0, cells := Stored(s.cells, p, cs, s.color))) &&
      (s.row + 1 == s.height ==>
        PutAll(s, cs).console == s.(cells := Scroll(Stored(s.cells, p, cs, s.color), s.width, Entry(SPACE, s.color))))
  {
    var p := s.Cursor();
    var n := |cs|;
    RowRunLast(s, cs);
    var t := s.(column := n - 1, cells := Stored(s.cells, p, cs[..n - 1], s.color));
    var u := Stored(s.cells, p, cs, s.color);
    assert t.Cursor() == p + (n - 1);
    StoredLast(s.cells, p, cs, s.color);
    WrittenAtRowEnd(t, cs[n - 1]);
    if s.row + 1 < s.height {
      assert Written(t, cs[n - 1]) == s.(row := s.row + 1, column := 0, cells := u);
    } else {
      assert Written(t, cs[n - 1]) == s.(cells := Scroll(u, s.width, Entry(SPACE, s.color)));
    }
  }

  /** Storing the last byte of a run after the others stores the whole run. */
  lemma StoredLast(cells: seq<u16>, p: nat, cs: seq<byte>, color: byte)
    requires |cs| > 0 && p + |cs| <= |cells|
    ensures Stored(cells, p, cs[..|cs| - 1], color)[p + |cs| - 1 := Entry(cs[|cs| - 1], color)] == Stored(cells, p, cs, color)
  {
    var init := cs[..|cs| - 1];
    assert cs == init + [cs[|cs| - 1]];
    StoreAfterRun(cells, p, init, cs[|cs| - 1], color);
  }

  /** `AreaAdd` with the total named, so that it matches the term at hand. */
  lemma AreaSplit(w: nat, a: nat, b: nat, c: nat)
    requires a + b == c
    ensures Area(w, c) == Area(w, a) + Area(w, b)
  {
    AreaAdd(w, a, b);
  }

  /** A run stored straight after another run is one longer run. */
  lemma StoredTwice(cells: seq<u16>, p: nat, a: seq<byte>, b: seq<byte>, color: byte)
    requires p + |a| + |b| <= |cells|
    ensures Stored(Stored(cells, p, a, color), p + |a|, b, color) == Stored(cells, p, a + b, color)
  {
    EntriesAppend(a, b, color);
  }

  /** Two runs that reach the end of the grid, seen from index `d` on. */
  lemma StoredToEnd(cells: seq<u16>, p: nat, a: seq<byte>, b: seq<byte>, color: byte, d: nat)
    requires p + |a| + |b| == |cells| && d <= |cells|
    ensures Stored(Stored(cells, p, a, color), p + |a|, b, color)[d..] == (cells[..p] + Entries(a + b, color))[d..]
  {
    StoredTwice(cells, p, a, b, color);
    assert Stored(cells, p, a + b, color) == cells[..p] + Entries(a + b, color);
  }

  /** A row `b` written over the blank last row of a grid that shows the
      text `x + a` from `d` on, with the first row then dropped: the grid
      shows the text `x + a + b` from `d + w` on. */
  lemma ScrolledAgain(x: seq<u16>, a: seq<byte>, b: seq<byte>, ab: seq<byte>, color: byte, d: nat, w: nat, at: nat, e: nat)
    requires ab == a + b && d <= |x| + |a| && |b| == w && at == |x| + |a| - d && e == d + w
    ensures Stored((x + Entries(a, color))[d..] + BlankLine(w, Entry(SPACE, color)), at, b, color)[w..] == (x + Entries(ab, color))[e..]
  {
    var y := x + Entries(a, color);
    EntriesAppend(a, b, color);
    assert x + Entries(ab, color) == y + Entries(b, color);
    assert Stored(y[d..] + BlankLine(w, Entry(SPACE, color)), at, b, color) == y[d..] + Entries(b, color);
  }

  /** The console a whole row `cs` of ordinary bytes leaves when written
      from the start of a row, as `RowRun` proves. */
  ghost function RowWritten(s: Console, cs: seq<byte>): (r: Console)
    requires s.Valid() && s.column == 0 && |cs| == s.width
  {
    LinearBound(s.width, s.height, |cs| - 1, s.row);
    if s.row + 1 < s.height then s.(row := s.row + 1, cells := Stored(s.cells, s.Cursor(), cs, s.color))
    else s.(cells := Scroll(Stored(s.cells, s.Cursor(), cs, s.color), s.width, Entry(SPACE, s.color)))
  }

  /** What `k` whole rows `cs` of ordinary bytes written from the start of
      row `r` leave. While they fit below `r` they are stored from the
      cursor, which ends at the start of row `r + k`. Once they reach the
      last row, the grid has scrolled once for every row written there: it
      shows the last H - 1 rows of the old rows above `r` followed by what
      was written, then a blank last row with the cursor at its start. */
  ghost function RowsShown(s: Console, cs: seq<byte>, k: nat): (r: Console)
    requires s.Valid() && s.column == 0 && |cs| == Area(s.width, k)
    ensures r.Valid() && SameScreen(r, s) && r.column == 0
  {
    var p := s.Cursor();
    AreaAdd(s.width, s.row, k);
    if s.row + k < s.height then
      AreaGrows(s.width, s.row + k, s.height);
      s.(row := s.row + k, cells := Stored(s.cells, p, cs, s.color))
    else
      LinearBound(s.width, s.height, 0, s.row);
      AreaAdd(s.width, s.row + k - (s.height - 1), s.height - 1);
      s.(row := s.height - 1, cells :=
        (s.cells[..p] + Entries(cs, s.color))[Area(s.width, s.row + k - (s.height - 1))..] +
        BlankLine(s.width, Entry(SPACE, s.color)))
  }

  /** One more row on top of `k - 1` rows, in the three cases: the rows
      still fit, the new row is the first on the last row, or the grid has
      already scrolled. */
  lemma RowsShownStep(s: Console, cs: seq<byte>, k: nat)
    requires s.Valid() && s.column == 0 && |cs| == Area(s.width, k) && k > 0
    ensures var n0 := Area(s.width, k - 1);
      n0 <= |cs| && RowWritten(RowsShown(s, cs[..n0], k - 1), cs[n0..]) == RowsShown(s, cs, k)
  {
    if s.row + k < s.height {
      RowsFitStep(s, cs, k);
    } else if s.row + k == s.height {
      RowsReachBottomStep(s, cs, k);
    } else {
      RowsScrolledStep(s, cs, k);
    }
  }

  lemma RowsShownFits(s: Console, cs: seq<byte>, k: nat)
    requires s.Valid() && s.column == 0 && |cs| == Area(s.width, k) && s.row + k < s.height
    ensures s.Cursor() + |cs| <= |s.cells|
    ensures RowsShown(s, cs, k) == s.(row := s.row + k, cells := Stored(s.cells, s.Cursor(), cs, s.color))
  {
    AreaAdd(s.width, s.row, k);
    AreaGrows(s.width, s.row + k, s.height);
  }

  lemma RowWrittenAbove(t: Console, cs: seq<byte>)
    requires t.Valid() && t.column == 0 && |cs| == t.width && t.row + 1 < t.height
    ensures t.Cursor() + |cs| <= |t.cells|
    ensures RowWritten(t, cs) == t.(row := t.row + 1, cells := Stored(t.cells, t.Cursor(), cs, t.color))
  {
    LinearBound(t.width, t.height, |cs| - 1, t.row);
  }

  lemma RowsFitStep(s: Console, cs: seq<byte>, k: nat)
    requires s.Valid() && s.column == 0 && |cs| == Area(s.width, k) && k > 0 && s.row + k < s.height
    ensures var n0 := Area(s.width, k - 1);
      n0 <= |cs| && RowWritten(RowsShown(s, cs[..n0], k - 1), cs[n0..]) == RowsShown(s, cs, k)
  {
    var w := s.width;
    var n0 := Area(w, k - 1);
    var init := cs[..n0];
    var last := cs[n0..];
    assert cs == init + last;
    var p := s.Cursor();
    RowsShownFits(s, init, k - 1);
    RowsShownFits(s, cs, k);
    var t := RowsShown(s, init, k - 1);
    AreaAdd(w, s.row, k - 1);
    assert t.Cursor() == p + n0;
    RowWrittenAbove(t, last);
    StoredTwice(s.cells, p, init, last, s.color);
  }

  lemma RowsShownScrolled(s: Console, cs: seq<byte>, k: nat)
    requires s.Valid() && s.column == 0 && |cs| == Area(s.width, k) && s.row + k >= s.height
    ensures var d := Area(s.width, s.row + k - (s.height - 1));
      s.Cursor() <= |s.cells| && d <= s.Cursor() + |cs| &&
      RowsShown(s, cs, k) == s.(row := s.height - 1, cells :=
        (s.cells[..s.Cursor()] + Entries(cs, s.color))[d..] + BlankLine(s.width, Entry(SPACE, s.color)))
  {
    AreaAdd(s.width, s.row, k);
    LinearBound(s.width, s.height, 0, s.row);
    AreaAdd(s.width, s.row + k - (s.height - 1), s.height - 1);
  }

  lemma RowWrittenLast(t: Console, cs: seq<byte>)
    requires t.Valid() && t.column == 0 && |cs| == t.width && t.row + 1 == t.height
    ensures t.Cursor() + |cs| <= |t.cells|
    ensures RowWritten(t, cs) == t.(cells := Stored(t.cells, t.Cursor(), cs, t.color)[t.width..] + BlankLine(t.width, Entry(SPACE, t.color)))
  {
    LinearBound(t.width, t.height, |cs| - 1, t.row);
  }

  lemma RowsReachBottomStep(s: Console, cs: seq<byte>, k: nat)
    requires s.Valid() && s.column == 0 && |cs| == Area(s.width, k) && k > 0 && s.row + k == s.height
    ensures var n0 := Area(s.width, k - 1);
      n0 <= |cs| && RowWritten(RowsShown(s, cs[..n0], k - 1), cs[n0..]) == RowsShown(s, cs, k)
  {
    var w := s.width;
    var n0 := Area(w, k - 1);
    var init := cs[..n0];
    var last := cs[n0..];
    assert cs == init + last;
    var p := s.Cursor();
    RowsShownFits(s, init, k - 1);
    RowsShownScrolled(s, cs, k);
    var t := RowsShown(s, init, k - 1);
    AreaAdd(w, s.row, k - 1);
    AreaAdd(w, s.row, k);
    assert t.Cursor() == p + n0;
    RowWrittenLast(t, last);
    assert Area(w, s.row + k - (s.height - 1)) == w;
    StoredToEnd(s.cells, p, init, last, s.color, w);
  }

  /** The row counts of `ScrolledCells`: `k - 1` rows from row `r` that
      scrolled the grid leave H - 1 rows of text, and one more row drops one
      more. */
  lemma ScrolledArea(w: nat, h: nat, r: nat, k: nat)
    requires k > 0 && r + k > h > 0
    ensures Area(w, r) + Area(w, k - 1) == Area(w, r + (k - 1) - (h - 1)) + Area(w, h - 1)
    ensures Area(w, r + k - (h - 1)) == Area(w, r + (k - 1) - (h - 1)) + w
    ensures Area(w, k) == Area(w, k - 1) + w
  {
    AreaSplit(w, r, k - 1, r + (k - 1));
    AreaSplit(w, r + (k - 1) - (h - 1), h - 1, r + (k - 1));
  }

  /** The cells of `RowsScrolledStep`: a row written over the blank last row
      of the scrolled grid of `k - 1` rows, with the first row dropped. */
  lemma ScrolledCells(s: Console, cs: seq<byte>, k: nat)
    requires s.Valid() && s.column == 0 && |cs| == Area(s.width, k) && k > 0 && s.row + k > s.height
    ensures var n0 := Area(s.width, k - 1); var p := s.Cursor();
      n0 <= |cs| && p <= |s.cells| &&
      var d := Area(s.width, s.row + (k - 1) - (s.height - 1));
      d <= p + n0 && p + n0 - d == Area(s.width, s.height - 1) &&
      Stored((s.cells[..p] + Entries(cs[..n0], s.color))[d..] + BlankLine(s.width, Entry(SPACE, s.color)),
        Area(s.width, s.height - 1), cs[n0..], s.color)[s.width..] ==
        (s.cells[..p] + Entries(cs, s.color))[Area(s.width, s.row + k - (s.height - 1))..]
  {
    var w := s.width;
    var n0 := Area(w, k - 1);
    var p := s.Cursor();
    LinearBound(w, s.height, 0, s.row);
    ScrolledArea(w, s.height, s.row, k);
    assert cs == cs[..n0] + cs[n0..];
    ScrolledAgain(s.cells[..p], cs[..n0], cs[n0..], cs, s.color, Area(w, s.row + (k - 1) - (s.height - 1)),
      w, Area(w, s.height - 1), Area(w, s.row + k - (s.height - 1)));
  }

  lemma RowsScrolledStep(s: Console, cs: seq<byte>, k: nat)
    requires s.Valid() && s.column == 0 && |cs| == Area(s.width, k) && k > 0 && s.row + k > s.height
    ensures var n0 := Area(s.width, k - 1);
      n0 <= |cs| && RowWritten(RowsShown(s, cs[..n0], k - 1), cs[n0..]) == RowsShown(s, cs, k)
  {
    var w := s.width;
    var n0 := Area(w, k - 1);
    var p := s.Cursor();
    ScrolledCells(s, cs, k);
    RowsShownScrolled(s, cs[..n0], k - 1);
    RowsShownScrolled(s, cs, k);
    var t := RowsShown(s, cs[..n0], k - 1);
    var shown := (s.cells[..p] + Entries(cs[..n0], s.color))[Area(w, s.row + (k - 1) - (s.height - 1))..] + BlankLine(w, Entry(SPACE, s.color));
    assert t == s.(row := s.height - 1, cells := shown);
    assert t.Cursor() == Area(w, s.height - 1);
    RowWrittenLast(t, cs[n0..]);
    var next := Stored(shown, Area(w, s.height - 1), cs[n0..], s.color)[w..] + BlankLine(w, Entry(SPACE, s.color));
    assert RowWritten(t, cs[n0..]) == s.(row := s.height - 1, cells := next);
  }

  /** `k` whole rows of ordinary bytes written from the start of a row leave
      the console `RowsShown` describes. */
  lemma {:induction false} RowsRun(s: Console, cs: seq<byte>, k: nat)
    requires s.Valid() && Plain(cs) && s.column == 0 && |cs| == Area(s.width, k)
    ensures PutAll(s, cs).console == RowsShown(s, cs, k)
  {
    if k == 0 {
      LinearBound(s.width, s.height, 0, s.row);
      assert Stored(s.cells, s.Cursor(), cs, s.color) == s.cells;
    } else {
      var n0 := Area(s.width, k - 1);
      var init := cs[..n0];
      var last := cs[n0..];
      assert cs == init + last;
      PlainParts(cs, n0);
      PutAllAppend(s, init, last);
      RowsRun(s, init, k - 1);
      var t := PutAll(s, init).console;
      RowRun(t, last);
      assert PutAll(t, last).console == RowWritten(t, last);
      RowsShownStep(s, cs, k);
    }
  }

  /** Fewer than H whole rows of ordinary bytes written from the home
      position (as after `vga_terminal_initialize`) are shown from the top,
      with the old cells below them and the cursor at the start of row `n`. */
  lemma RowsFromHome(s: Console, cs: seq<byte>, n: nat)
    requires s.Valid() && s.row == 0 && s.column == 0 && Plain(cs) && |cs| == Area(s.width, n) && n < s.height
    ensures var r := PutAll(s, cs).console;
      r.column == 0 && SameScreen(r, s) && r.row == n && |cs| <= |s.cells| &&
      r.cells == Entries(cs, s.color) + s.cells[|cs|..]
  {
    RowsRun(s, cs, n);
    RowsShownFits(s, cs, n);
    assert s.Cursor() == 0;
    var e := Entries(cs, s.color);
    assert s.cells[..0] + e == e;
  }

  /** `n >= H` whole rows of ordinary bytes written from the home position:
      the grid has scrolled once for each row after the first H - 1, so it
      shows the last H - 1 rows written above a blank last row, with the
      cursor at the start of that row. */
  lemma RowsScrollOff(s: Console, cs: seq<byte>, n: nat)
    requires s.Valid() && s.row == 0 && s.column == 0 && Plain(cs) && |cs| == Area(s.width, n) && n >= s.height
    ensures var r := PutAll(s, cs).console;
      r.column == 0 && SameScreen(r, s) && r.row == s.height - 1 && Area(s.width, n - (s.height - 1)) <= |cs| &&
      r.cells == Entries(cs, s.color)[Area(s.width, n - (s.height - 1))..] + BlankLine(s.width, Entry(SPACE, s.color))
  {
    RowsRun(s, cs, n);
    ScrollOffShown(s, cs, n);
  }

  lemma ScrollOffShown(s: Console, cs: seq<byte>, n: nat)
    requires s.Valid() && s.row == 0 && s.column == 0 && |cs| == Area(s.width, n) && n >= s.height
    ensures Area(s.width, n - (s.height - 1)) <= |cs|
    ensures RowsShown(s, cs, n) ==
      s.(row := s.height - 1, cells := Entries(cs, s.color)[Area(s.width, n - (s.height - 1))..] + BlankLine(s.width, Entry(SPACE, s.color)))
  {
    RowsShownScrolled(s, cs, n);
    assert s.Cursor() == 0;
    assert s.row + n - (s.height - 1) == n - (s.height - 1);
    var e := Entries(cs, s.color);
    assert s.cells[..0] + e == e;
  }

  /** The largest `size_t` on a target where it is 64 bits wide. */
  const SIZE_MAX: nat := 0xFFFF_FFFF_FFFF_FFFF
  /** `(unsigned) -1` with a 32-bit `unsigned`. */
  const UNSIGNED_MAX: nat := 0xFFFF_FFFF

  /** `--x` on a 64-bit `size_t`: 0 wraps to SIZE_MAX. */
  function Decrement(x: nat): (r: nat)
    requires x <= SIZE_MAX
    ensures r <= SIZE_MAX && (r + 1) % (SIZE_MAX + 1) == x
  {
    if x == 0 then SIZE_MAX else x - 1
  }

  /** `backup` as written, read with a 64-bit `size_t` and a 32-bit
      `unsigned`: both wrap tests compare with 0xFFFFFFFF. */
  function BackupLp64(s: Console): (r: Console)
    requires s.width > 0 && s.height > 0 && s.row <= SIZE_MAX && s.column <= SIZE_MAX
    ensures r.cells == s.cells && SameScreen(r, s)
  {
    var column := Decrement(s.column);
    if column == UNSIGNED_MAX then
      var row := Decrement(s.row);
      s.(row := if row == UNSIGNED_MAX then s.height - 1 else row, column := s.width - 1)
    else
      s.(column := column)
  }

  /** From column 0, `backup` read that way leaves the column at SIZE_MAX,
      off the grid. The following `putEntryAt` then writes at the wrapped
      index `y * W + SIZE_MAX`: the cell before the buffer at row 0, the last
      cell of the row above otherwise. `BackedUp`, which the rest of the
      model uses, moves to the last column of the row above instead. */
  lemma BackupLp64LeavesGrid(s: Console)
    requires s.Valid() && s.column == 0 && s.row <= SIZE_MAX && |s.cells| <= SIZE_MAX
    ensures BackupLp64(s).column == SIZE_MAX && !BackupLp64(s).Valid()
    ensures Linear(s.width, SIZE_MAX, s.row) % (SIZE_MAX + 1) ==
      if s.row == 0 then SIZE_MAX else s.Cursor() - 1
    ensures BackedUp(s).Valid() && BackedUp(s).column == s.width - 1
  {
    AreaGrows(s.width, s.row, s.height);
    AreaGrows(s.width, 0, s.row);
    if s.row > 0 {
      AreaGrows(s.width, 1, s.row);
      AreaGrows(s.width, 0, 1);
    }
  }
}

# VGA driver of project-asiago, modelled in Dafny

This project models the VGA driver `src/modules/screen/vga.cpp`. The driver has three parts:

- **Text console.** An 80x25-style grid of 16-bit cells (character in the low byte, attribute in the high byte) with a cursor. `putChar` writes ordinary bytes, interprets newline, backspace and tab, wraps at the end of a row, and scrolls at the end of the grid. After every character it reprograms the hardware cursor through the CRT controller ports 0x3D4/0x3D5.
- **256-colour graphics mode.** An 8-bit back buffer (`graphicsDoubleBuffer`) written by `setColor`, `vga_graphics_pixel` and `vga_graphics_rectangle`, and copied to the frame buffer by `vga_graphics_flip`.
- **Mode set.** `write_regs` programs mode 13h (320x200, 256 colours) from the 61-byte table `vga_320x200x256`, and `vga_graphicsMode` then clears the back buffer.

Layout:

- `platform.dfy` (module `Platform`): bytes and port events, the bit helpers `getBit`/`changeBit`, `memcpy`, `stringlength` and the row-major index `y * W + x`. The index is written `Linear(W, x, y)` over `Area(W, h)` so that only `AreaIsProduct`, the bridge to `y * W + x`, needs nonlinear arithmetic.
- `text_console.dfy` (module `TextConsole`): the text console as values. `Put` is `putChar`, `PutAll` is a sequence of `putChar` calls, and `WriteString` is `vga_terminal_writeString`.
- `terminal.dfy` (module `TextTerminal`): class `Terminal`. It holds the module state (row, column, colour, cell buffer, port log) and updates it in place. `PutChar` on every branch, `WriteString`, `Initialize`, `UpdateCursor`, `Backup` and the scroll are proved to produce the state and the port writes that the functions of `TextConsole` specify. The helpers `PutEntryAt`, `ShiftUp`, `MoveRowUp` and `BlankRow`, `SetBackgroundColor` and the constructor are specified cell by cell or field by field in their own contracts.
- `text_properties.dfy` (module `TextProperties`): what the console promises, proved over those functions.
- `mode_set.dfy` (module `ModeSet`): the register table, the exact port traffic of `write_regs` (`Events`), and the method `WriteRegs`, proved to produce it.
- `graphics.dfy` (module `Graphics`): the colour packing of `setColor` and class `Display`. `Display` holds the back buffer, the frame-buffer pointer, the mode table and the port log.

Modelling choices:

- A `char` is a byte 0..255. x86 `char` is signed, so `entry` sign-extends a byte of 128 or more, and the attribute byte comes out as 0xFF (`Entry`).
- `updateCursor` truncates the position to `unsigned short` (`CursorSync`).
- Port accesses are recorded in a `ports` log, oldest first; `In(p)` is an `inb`.
- The two values `write_regs` reads back from port 0x3D5 are parameters (`rd03`, `rd11`).
- Grid sizes (`VGA_TEXT_WIDTH/HEIGHT`, `VGA_GRAPHICS_WIDTH/HEIGHT`) are constructor parameters.
- `COLOR_LIGHT_GREY` is 7 and `COLOR_BLACK` is 0, the standard VGA text palette, because `modules/screen/vga.h`, where the enum lives, is not part of this model.

## Model

| member | source | states |
|---|---|---|
| Platform.GetBit | src/modules/screen/vga.cpp:137-143 | `getBit(x, n)` is bit `n` of `x`, a value below 2 |
| Platform.ChangeBit | src/modules/screen/vga.cpp:137-143 | `changeBit(x, n, v)` on a byte: bit `n` becomes `v` and every other bit of the byte is kept |
| Platform.BitsDetermine | src/modules/screen/vga.cpp:135-144 | two values below 2^n with equal low n bits are equal; this is how the bit-by-bit construction in `setColor` is pinned to one byte |
| Platform.MemCopy | src/modules/screen/vga.cpp:33-34 | `memcpy` of `n` cells between non-overlapping ranges: the destination range takes the source cells and the rest of the destination is unchanged |
| Platform.StringLength | src/modules/screen/vga.cpp:104 | `stringlength` counts the bytes before the first NUL: none of them is 0, and the next byte, if any, is 0 |
| Platform.LinearIsRowMajor | src/modules/screen/vga.cpp:26 | the cell index is `y * W + x` |
| Platform.LinearBound | src/modules/screen/vga.cpp:26-27 | a point on the grid indexes inside the buffer |
| Platform.LinearInjective | src/modules/screen/vga.cpp:118-119 | two points of the grid share an index exactly when they are the same point |
| Platform.LinearCovers | src/modules/screen/vga.cpp:116-120 | every index of the buffer is the index of some point of the grid |
| TextConsole.MakeColor | src/modules/screen/vga.cpp:95-97 | the foreground is the low nibble and the background the high nibble of the attribute |
| TextConsole.Entry | src/modules/screen/vga.cpp:19-23 | the low byte of the cell is the character; the high byte is the colour, or 0xFF for a byte of 128 or more (sign extension of `char`) |
| TextConsole.Initialized | src/modules/screen/vga.cpp:111-122 | cursor at (0, 0), colour light grey on black, and every cell a space in that colour, 0x0720 |
| TextConsole.Scroll | src/modules/screen/vga.cpp:30-36 | cell `j` takes cell `j + W`, for every cell but the last row; the last row is all `blank` |
| TextConsole.Written | src/modules/screen/vga.cpp:76-88 | storing a regular byte keeps the cursor on the grid, with the same geometry and colour |
| TextConsole.BackedUp | src/modules/screen/vga.cpp:49-56 | the column steps back; from column 0 it goes to the last column of the row above, and from row 0 to the last row; the cells are untouched |
| TextConsole.CursorSync | src/modules/screen/vga.cpp:38-47 | 0x3D4←0x0F, 0x3D5←low byte, 0x3D4←0x0E, 0x3D5←high byte of the position truncated to 16 bits |
| TextConsole.Put | src/modules/screen/vga.cpp:58-91 | every path of `putChar` leaves the cursor on the grid, with the same geometry and colour |
| TextConsole.PutSpaces | src/modules/screen/vga.cpp:69-74 | the tab branch keeps the cursor on the grid |
| TextConsole.PutAll | src/modules/screen/vga.cpp:105-108 | `putChar` over a run of bytes keeps the cursor on the grid |
| TextTerminal.Terminal.constructor | src/modules/screen/vga.cpp:14-17 | the statics start zeroed: cursor at (0, 0), colour 0, empty port log |
| TextTerminal.Terminal.Initialize | src/modules/screen/vga.cpp:111-122 | after the two nested loops the console is `Initialized` and no port is touched |
| TextTerminal.Terminal.SetBackgroundColor | src/modules/screen/vga.cpp:99-101 | the whole attribute byte is replaced by the argument |
| TextTerminal.Terminal.PutEntryAt | src/modules/screen/vga.cpp:25-28 | exactly the cell at `y * W + x` changes, to `entry(c, color)` |
| TextTerminal.Terminal.ShiftUp | src/modules/screen/vga.cpp:30-36 | rows 1..H-1 move up one row and the last row keeps its old content |
| TextTerminal.Terminal.MoveRowUp | src/modules/screen/vga.cpp:33-34 | one `memcpy` copies the row at `i` over the row above it and changes nothing else |
| TextTerminal.Terminal.UpdateCursor | src/modules/screen/vga.cpp:38-47 | four port writes are appended: index 0x0F, low byte, index 0x0E, high byte of the position |
| TextTerminal.Terminal.Backup | src/modules/screen/vga.cpp:49-56 | the cursor becomes `BackedUp` of the old one |
| TextTerminal.Terminal.PutChar | src/modules/screen/vga.cpp:58-91 | the new state and the appended port writes are exactly those of `Put` |
| TextTerminal.Terminal.EraseBack | src/modules/screen/vga.cpp:64-68 | the backspace branch produces `Put(s, 8)` |
| TextTerminal.Terminal.PutTabSpaces | src/modules/screen/vga.cpp:69-74 | the tab loop produces `PutSpaces(s, TAB_SIZE)` |
| TextTerminal.Terminal.WriteRegular | src/modules/screen/vga.cpp:76-88 | the regular branch, before `updateCursor`, produces `Written(s, c)` |
| TextTerminal.Terminal.ScrollUp | src/modules/screen/vga.cpp:80-87 | `shiftUp`, the row step back and the blanking loop give `Scroll` of the grid with a blank last row |
| TextTerminal.Terminal.BlankRow | src/modules/screen/vga.cpp:83-86 | exactly the cells of the current row become spaces in the current colour |
| TextConsole.WriteString | src/modules/screen/vga.cpp:103-109 | the console stays on the grid with the same geometry and colour; a string that starts with NUL changes nothing and writes no port |
| TextTerminal.Terminal.WriteString | src/modules/screen/vga.cpp:103-109 | the new state and port writes are those of `WriteString` on the bytes before the NUL |
| TextProperties.CursorSyncDecodes | src/modules/screen/vga.cpp:38-47 | the two data bytes rebuild the cursor index modulo 2^16, or exactly when the grid has at most 2^16 cells |
| TextProperties.PutEndsWithCursorSync | src/modules/screen/vga.cpp:58-91 | every `putChar` ends with the four cursor writes for the final cursor |
| TextProperties.PutSpacesEndsWithCursorSync | src/modules/screen/vga.cpp:69-74 | so does the tab branch |
| TextProperties.PutAllEndsWithCursorSync | src/modules/screen/vga.cpp:103-109 | so does writing a non-empty string |
| TextProperties.PutSpacesIsPutAll | src/modules/screen/vga.cpp:69-74 | `n` tab spaces are the same as writing `n` space characters |
| TextProperties.TabIsTwoSpaces | src/modules/screen/vga.cpp:10 | with `TAB_SIZE` 2, a tab is the string of two spaces |
| TextProperties.PutAllAppend | src/modules/screen/vga.cpp:105-108 | writing `a + b` is writing `a`, then `b` from the state `a` leaves |
| TextProperties.WriteStringStopsAtNul | src/modules/screen/vga.cpp:103-109 | nothing after the first NUL is written |
| TextProperties.WriteStringWithoutNul | src/modules/screen/vga.cpp:103-109 | a string without NUL is written in full |
| TextProperties.RegularAdvances | src/modules/screen/vga.cpp:75-90 | a regular byte lands at the cursor in the current colour and the cursor moves one cell on; only from the last cell does the grid scroll, with the cursor left at (0, H-1) |
| TextProperties.ScrollMovesRows | src/modules/screen/vga.cpp:30-36 | after the scroll, (x, y) holds the old (x, y + 1), and the last row is blank |
| TextProperties.NewlineEffect | src/modules/screen/vga.cpp:59-63 | newline blanks only the last cell of the row and moves to column 0 of the next row, or scrolls on the last row |
| TextProperties.BackspaceMidRow | src/modules/screen/vga.cpp:64-68 | inside a row, the cell to the left becomes a space and the cursor stays on it |
| TextProperties.WrittenWraps | src/modules/screen/vga.cpp:78-80 | a byte stored in the last column of a row above the last moves to column 0 of the next row |
| TextProperties.BackspaceRowStart | src/modules/screen/vga.cpp:64-68 | at column 0 below row 0, the last cell of the row above becomes a space and the cursor stays on it |
| TextProperties.BackspaceAtOrigin | src/modules/screen/vga.cpp:49-56 | at (0, 0) the space is written in the last cell, the grid scrolls, and the cursor ends on row H-2 |
| TextProperties.RunWithinRow | src/modules/screen/vga.cpp:103-109 | a run of ordinary bytes that fits in the row is stored cell after cell from the cursor, which ends just past it |
| TextProperties.RowRun | src/modules/screen/vga.cpp:76-90 | a whole row of ordinary bytes from column 0 is stored across the row; the cursor wraps to column 0 of the next row, or on the last row the grid scrolls and the cursor stays at the start of the last row |
| TextProperties.RowsRun | src/modules/screen/vga.cpp:76-90 | `k` whole rows from the start of row `r` leave `RowsShown`: stored from the cursor while `r + k < H`, otherwise the old rows above `r` and the text, scrolled up once per row written on the last row, above a blank last row |
| TextProperties.RowsFromHome | src/modules/screen/vga.cpp:76-90 | from the home position, `n < H` whole rows are shown from the top with the old cells below and the cursor at the start of row `n` |
| TextProperties.RowsScrollOff | src/modules/screen/vga.cpp:76-90 | from the home position, `n >= H` whole rows scroll the top line off `n - H + 1` times: the grid shows the last H - 1 rows written above a blank last row, cursor at the start of the last row |
| TextProperties.Decrement | src/modules/screen/vga.cpp:50 | `--` on a 64-bit `size_t` stays below 2^64 and is subtraction of one modulo 2^64 |
| TextProperties.BackupLp64 | src/modules/screen/vga.cpp:49-56 | `backup` with a 64-bit `size_t` compared against the 32-bit `(unsigned) -1`: the cells and the screen size are untouched |
| TextProperties.BackupLp64LeavesGrid | src/modules/screen/vga.cpp:49-56 | with a 64-bit `size_t`, `backup` at column 0 leaves the column at 2^64 - 1, off the grid, and the index of the next write wraps to one cell before the buffer at row 0 and to the end of the row above otherwise, while `BackedUp` stays on the grid at the last column |
| ModeSet.SetHigh | src/modules/screen/vga.cpp:258 | the or-with-0x80 sets bit 7 and keeps the low seven bits |
| ModeSet.ClearHigh | src/modules/screen/vga.cpp:260 | the and-with-`~0x80` clears bit 7 and keeps the low seven bits |
| ModeSet.Patched | src/modules/screen/vga.cpp:261-263 | CRT controller register 0x03 of the table gets bit 7 set, register 0x11 gets bit 7 cleared, and every other byte is kept |
| ModeSet.IndexedWrites | src/modules/screen/vga.cpp:251-255 | register `i` is selected on the index port, then written with byte `i` on the data port |
| ModeSet.AttributeWrites | src/modules/screen/vga.cpp:277-282 | each attribute register is preceded by a status read, then selected and written on port 0x3C0 |
| ModeSet.Unlock | src/modules/screen/vga.cpp:256-260 | select CRTC register 0x03, read it, write it back with bit 7 set; select 0x11, read it, write it back with bit 7 clear; the other seven bits are kept |
| ModeSet.Events | src/modules/screen/vga.cpp:244-286 | `write_regs` makes 150 port accesses, starting with the misc output register ← `t[0]` and ending with the palette lock |
| ModeSet.EventsLayout | src/modules/screen/vga.cpp:244-286 | `write_regs` issues 150 accesses: misc, 5 sequencer pairs, the 6-access unlock, 25 CRT controller pairs from the patched table, 9 graphics controller pairs, 21 attribute triples, the palette lock |
| ModeSet.SecondCallSameWrites | src/modules/screen/vga.cpp:261-263 | the patch is idempotent, so a second `write_regs` on the patched table issues the same writes |
| ModeSet.StockTableIsPatched | src/modules/screen/vga.cpp:230-242 | the table has 61 bytes and already carries the unlock bits, so the patch leaves it unchanged |
| ModeSet.WriteRegs | src/modules/screen/vga.cpp:244-286 | the table is patched in place and the port traffic is exactly `Events` of the old table |
| ModeSet.WriteIndexed | src/modules/screen/vga.cpp:265-269 | one indexed group's loop issues its index/data pairs for the table slice |
| ModeSet.WriteAttributes | src/modules/screen/vga.cpp:277-282 | the attribute loop issues its status-read/index/value triples for the table slice |
| Graphics.PackedBit | src/modules/screen/vga.cpp:135-142 | bit `k` of a packed row of bits is the `k`-th bit, and the value is below 2^length |
| Graphics.Quantise | src/modules/screen/vga.cpp:129-142 | the colour is below 64; bits 0-2 are the high bits of blue/64, green/64 and red/64, and bits 3-5 their low bits |
| Graphics.HighLow | src/modules/screen/vga.cpp:130-132 | the two bits of a channel level are `v / 2` and `v % 2` |
| Graphics.QuantiseDecodes | src/modules/screen/vga.cpp:129-142 | each channel's top two bits can be read back from the packed byte |
| Graphics.QuantiseInjective | src/modules/screen/vga.cpp:129-142 | two colours pack alike exactly when all three channels agree in their top two bits |
| Graphics.QuantiseBlack | src/modules/screen/vga.cpp:129-142 | (0, 0, 0) packs to 0 |
| Graphics.QuantiseWhite | src/modules/screen/vga.cpp:129-142 | (255, 255, 255) packs to 63 |
| Graphics.SameByte | src/modules/screen/vga.cpp:135-144 | a byte is determined by its eight bits |
| Graphics.PixelAccepted | src/modules/screen/vga.cpp:172-175 | the guard as written accepts every on-screen point, and the only off-screen points it accepts are on the edges `x == W` or `y == H` |
| Graphics.PixelEdgeAliases | src/modules/screen/vga.cpp:172-177 | the guard as written accepts `x == W`, which lands on (0, y + 1), and `y == H`, which lands past the buffer |
| Graphics.EdgePixelPaintsNextRow | src/modules/screen/vga.cpp:172-177 | the guard as written accepts (W, y) off the screen, and its index is that of (0, y + 1), inside the buffer, whenever y + 1 < H |
| Graphics.InBoundsIndex | src/modules/screen/vga.cpp:172-177 | with the corrected guard each accepted point has its own cell inside the buffer; the points only the original guard accepts lie on the two edges just outside the screen |
| Graphics.Display.constructor | src/modules/screen/vga.cpp:126-127 | the static back buffer starts zeroed, the frame-buffer pointer null, the table stock |
| Graphics.Display.Initialize | src/modules/screen/vga.cpp:159-161 | the frame-buffer pointer is set to display memory |
| Graphics.Display.SetColor | src/modules/screen/vga.cpp:129-145 | exactly the cell `index` changes, to `Quantise(red, green, blue)` |
| Graphics.Display.Pixel | src/modules/screen/vga.cpp:170-180 | with the corrected guard: `true` and exactly the cell (x, y) painted when (x, y) is on the screen, otherwise `false` and no change |
| Graphics.Display.PixelAsWritten | src/modules/screen/vga.cpp:170-180 | with the guard as written: `true` exactly when `x <= W` and `y <= H`, and then the cell at index `y * W + x` gets `Quantise(red, green, blue)` and no other cell changes; otherwise `false` and no change |
| Graphics.Display.Rectangle | src/modules/screen/vga.cpp:182-200 | `false` and no change when `x + w > W` or `y + h > H`; otherwise `true`, every cell of the rectangle gets the colour and every other cell keeps its value |
| Graphics.Display.FillColumn | src/modules/screen/vga.cpp:188-194 | the inner loop paints rows `y`..`y+h-1` of column `xp` and nothing else |
| Graphics.Display.Flip | src/modules/screen/vga.cpp:163-168 | the frame buffer becomes a copy of the back buffer |
| Graphics.Display.GraphicsMode | src/modules/screen/vga.cpp:288-293 | the port traffic of `write_regs` on the stock table is appended, the table is unchanged, and every back-buffer cell is 0 |

## Left out

- `src/modules/screen/screen.cpp` forwards to a UEFI terminal back end and has no logic of its own; it is not part of this model.
- `vsync` (vga.cpp:147-155) polls port 0x3DA until a vertical retrace begins. That depends on hardware timing, so `Flip` treats the wait as a no-op.
- The fixed addresses 0xB8000 and 0xA0000 are not modelled. The text buffer is an array owned by `Terminal`; the frame buffer is an array passed to `Display.Initialize`.
- The values `inb` returns are not modelled; they are parameters of `WriteRegs` and `GraphicsMode`.
- `getBit`, `changeBit`, `memcpy` and `stringlength` come from `utils/utils.h`, and `outb`/`inb` from `kernel/ports.h`; neither header is part of this model. The helpers are modelled by what their uses in vga.cpp need: `memcpy` on non-overlapping ranges, `stringlength` as the count of bytes before the first NUL, and `changeBit`/`getBit` as bit access.
- Platform.MemCopy: copies whole 16-bit cells where the source copies `VGA_TEXT_WIDTH * 2` bytes, which is the same memory.
- TextTerminal.Terminal.constructor: the text console before `vga_terminal_initialize` writes through a null `terminalBuffer`. The model gives the console its buffer from the start, so that undefined behaviour is not modelled.
- The `size_t` row, column and index arithmetic of the text console is modelled as unbounded, assuming `size_t` has the width of `unsigned`. Under that assumption only `backup` wraps, and its wrap is modelled by the `(unsigned) -1` comparison. The 64-bit case is in Findings.
- TextConsole.BackedUp: models `--terminalColumn == (unsigned) -1` as if `size_t` and `unsigned` had the same width, i.e. as the intended wrap to the last column; with a 64-bit `size_t` the comparison never holds (see Findings and TextProperties.BackupLp64).
- TextTerminal.Terminal.Backup: same assumption as TextConsole.BackedUp, that `size_t` and `unsigned` have the same width.
- Graphics.Display.Rectangle: requires that `x + w` and `y + h` fit in `uint32`. The source's comparisons would wrap, and the model does not cover that case.
- Graphics.Display.Rectangle: the source's `uint16` column and `uint8` row counters are modelled as unbounded, which is exact because `Display.Valid` bounds the screen to fewer than 2^16 columns and 2^8 rows.
- Graphics.Display.FillColumn: calls `PixelAsWritten`, as the source calls `vga_graphics_pixel`. Every pixel it visits is on the screen, so the guard accepts it and the source's `return false` after a refused pixel cannot be reached. The model proves that branch unreachable instead of returning.
- Graphics.Display.Pixel: models the corrected bound (see Findings), not the `>` comparison as written.
- Graphics.Display.PixelAsWritten: requires that the index the accepted point writes lies inside the back buffer. The points it excludes, `(W, H - 1)` and `(x, H)` for `x <= W`, write past the end of `graphicsDoubleBuffer`; that out-of-bounds store is not modelled (see Findings).
- Graphics.Display.Flip: requires the frame-buffer pointer to be set. A flip before `vga_graphics_initialize` copies through a null pointer, which is not modelled.

## Findings

| source | as written | input that shows it | evidently intended | confidence | as-written member | corrected member |
|---|---|---|---|---|---|---|
| src/modules/screen/vga.cpp:172-175 | `vga_graphics_pixel` rejects only `x > W` and `y > H` | `x == W`, `y < H - 1` paints (0, y + 1); `(W, H - 1)` and `(0, H)` write at index `W * H`, one past `graphicsDoubleBuffer` | reject `x >= W` or `y >= H` | not executed | Graphics.Display.PixelAsWritten | Graphics.Display.Pixel |
| src/modules/screen/vga.cpp:50-52 | `backup` decrements the `size_t` column and row and compares them with `(unsigned) -1` | with a 64-bit `size_t`, backspace at column 0: the column becomes 2^64 - 1, not 0xFFFFFFFF, so it is not reset; at (0, 0) the space lands one cell before `terminalBuffer`, elsewhere on the last cell of the row above, and the cursor is left off the grid | wrap to the last column of the row above, and from row 0 to the last row | not executed | TextProperties.BackupLp64LeavesGrid | TextConsole.BackedUp |

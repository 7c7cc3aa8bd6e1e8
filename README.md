# ST7567 LCD flush engine: a Dafny model

This project models the display-update core of RepRapFirmware's driver for
the ST7567 128x64 monochrome LCD (`Lcd7567`). The frame buffer keeps a dirty
rectangle `[startCol, endCol) x [startRow, endRow)` and a resume cursor
`nextFlushRow`. Each call of `FlushSome` that finds the rectangle non-empty
sends exactly one 8-row controller page of that rectangle to the controller,
then updates the rectangle and the cursor. It returns true when the caller should call again.

Files and modules:

- `st7567.dfy`, module `St7567`: the controller's side of the wire. It holds
  the bus events (`Select`, `Cmd`, `A0High`, `Data`, `A0Low`, `Deselect`).
  It has the three-command column/page address encoder `GraphicsAddress`,
  with the controller's decoder `DecodeAddress` and their round trip. It also
  has the 1x8 tile byte layout (`PackTile`, bit i = pixel i rows below the
  page top, so the top pixel is the LSB) and its inverse `UnpackTile`.
- `flush_engine.dfy`, module `FlushEngine`: one `FlushSome` call as a pure
  state transition. `Step` gives the new five fields and the result.
  `Emitted` gives the bus transaction the call performs. `Drain` gives the
  calls a caller makes until the result is false. The lemmas cover one call
  (no-op, cursor normalisation, page rounding, return rule, sentinel,
  transaction layout) and repeated calls (termination, exact page sequences,
  coverage).
- `lcd7567.dfy`, module `Lcd7567Driver`: the driver object as a class. Its
  mutable fields are `startRow`, `endRow`, `startCol`, `endCol` and
  `nextFlushRow`, plus a ghost `trace` of bus events. `FlushSome` is written
  step by step as in the source, and its postcondition ties the new fields,
  the result and the appended trace to `Step` and `Emitted`. `GatherTile` is
  the inner bit-gathering loop, proved equal to `PackTile`.

Inputs the driver cannot see are parameters. The frame buffer's
`ReadPixel(x, y)` is a total function `Pixels = (nat, nat) -> bool` given to
`FlushSome`. The hardware is reduced to the trace events it produces.

Facts the model establishes about the code as written:

- A call that finds the rectangle empty returns false. It sends nothing and
  changes no field. The sentinel (`startRow = 64`, `startCol = 128`, all
  others 0) is empty, so the call after a false is always a no-op.
- A fresh sweep from `startRow` over a height that is a multiple of 8 sends
  exactly height/8 successive pages. All calls but the last return true, and
  the last one leaves the sentinel.
- Otherwise `startRow` overshoots `endRow`. Then ceil(height/8) calls send a
  page and all of them return true. One more call returns false, sends
  nothing and does not reset to the sentinel.
- Whatever the fields, repeated calls without drawing in between reach false.
  The measure is (endRow - startRow, endRow - cursor while the cursor is
  partway through a sweep), ordered lexicographically.
- If `startRow` is a multiple of 8, every row of the rectangle has its page
  sent before the result is false, whether the cursor starts a fresh sweep
  or sits partway through the rectangle (as it does after new damage between
  calls). If `startRow` is not aligned, the page
  below the first one can be skipped. With dirty rows [5, 10), page 0 is sent
  and then false is returned, so rows 8 and 9 are never sent
  (`UnalignedStartSkipsPage`). Whether the base class ever produces an
  unaligned `startRow` is outside this model, so this is stated as behaviour,
  not as a defect.

Two behaviours of the code worth noting:

- The address sequence sends the column high nibble first (`0x1h`), then the
  column low nibble (`0x0l`), then the page (`0xBp`)
  (src/Display/Lcd/ST7567/Lcd7567.cpp:169-173).
- For a rectangle whose height is a multiple of 8, the code returns true
  height/8 - 1 times, not ceil(height/8) times. The last page-sending call
  already returns false.

## Model

| member | source | states |
|---|---|---|
| St7567.PackTile | src/Display/Lcd/ST7567/Lcd7567.cpp:109-117 | bit i of the tile byte is pixel i of the strip (top pixel = LSB); bits beyond the strip are clear |
| St7567.UnpackTile | src/Display/Lcd/ST7567/Lcd7567.cpp:109-117 | the controller's reading of a data byte (row i shows bit i) packed again gives back the byte, so every byte is the packing of the strip it displays |
| St7567.UnpackPackTile | src/Display/Lcd/ST7567/Lcd7567.cpp:109-119 | the controller reads back exactly the eight pixels that were packed |
| St7567.BitsDetermine | src/Display/Lcd/ST7567/Lcd7567.cpp:112-117 | a byte is determined by its eight bits, which is why gathering bit by bit fixes the byte |
| St7567.GraphicsAddress | src/Display/Lcd/ST7567/Lcd7567.cpp:166-176 | three commands: high nibble 0x1 (column MSB), 0x0 (column LSB), 0xB (page); the page command's low nibble is (r / 8) mod 16 |
| St7567.DecodeAddress | src/Display/Lcd/ST7567/Lcd7567.cpp:168-173 | the controller's reading of the three commands; page below 16, column below 256 |
| St7567.AddressRoundTrip | src/Display/Lcd/ST7567/Lcd7567.cpp:169-173 | for row < 128 and column < 256, decoding the commands gives back (row / 8, column) |
| FlushEngine.Resume | src/Display/Lcd/ST7567/Lcd7567.cpp:88-91 | a cursor inside [startRow, endRow) is kept, any other is reset to startRow; the row used lies in the rectangle |
| FlushEngine.PageRow | src/Display/Lcd/ST7567/Lcd7567.cpp:98 | startCom is the row rounded down to a multiple of 8: aligned and at most 7 below the row |
| FlushEngine.TileAt | src/Display/Lcd/ST7567/Lcd7567.cpp:107-117 | the data byte for column x has bit i equal to ReadPixel(x, startCom + i) |
| FlushEngine.DataRun | src/Display/Lcd/ST7567/Lcd7567.cpp:107-120 | one data byte per column of [startCol, endCol) |
| FlushEngine.DataRunAt | src/Display/Lcd/ST7567/Lcd7567.cpp:107-120 | the k-th data byte is the tile of column startCol + k, so columns go in increasing order |
| FlushEngine.Sent | src/Display/Lcd/ST7567/Lcd7567.cpp:85-103 | a call sends a page exactly when the rectangle is not empty |
| FlushEngine.EmptyIsNoOp | src/Display/Lcd/ST7567/Lcd7567.cpp:84-138 | empty rectangle: result false, no bus event, every field unchanged |
| FlushEngine.CursorNormalisation | src/Display/Lcd/ST7567/Lcd7567.cpp:87-98 | the page sent holds the resumed row; startRow advances by 8 exactly on a fresh sweep; columns and endRow stay while work remains |
| FlushEngine.ReturnRule | src/Display/Lcd/ST7567/Lcd7567.cpp:126-135 | true iff the advanced startRow differs from endRow, with the cursor 8 further on; otherwise the sentinel; after false the rectangle is empty |
| FlushEngine.SentinelIsIdle | src/Display/Lcd/ST7567/Lcd7567.cpp:133-138 | the sentinel is empty and a call on it returns false, sends nothing and changes nothing |
| FlushEngine.StepStaysOnPanel | src/Display/Lcd/ST7567/Lcd7567.cpp:93-135 | with endRow <= 64 and endCol <= 128 every field stays below 256 after a call, so the 8-bit additions never wrap |
| FlushEngine.TransactionLayout | src/Display/Lcd/ST7567/Lcd7567.cpp:100-124 | Select, 3 commands, A0 high, endCol - startCol data bytes in column order, A0 low, Deselect; commands only before A0 high, data only while it is high |
| FlushEngine.TransactionShape | src/Display/Lcd/ST7567/Lcd7567.cpp:98-123 | the address decodes to (startCom / 8, startCol), the page nibble is startCom / 8, and bit i of the byte for column startCol + k is ReadPixel(startCol + k, startCom + i) |
| FlushEngine.ReadsStayOnPanel | src/Display/Lcd/ST7567/Lcd7567.cpp:107-114 | every pixel read by a sending call lies on the 128x64 panel |
| FlushEngine.StepProgress | src/Display/Lcd/ST7567/Lcd7567.cpp:88-131 | a call returning true decreases (endRow - startRow, lag of a mid-sweep cursor) lexicographically |
| FlushEngine.Drain | src/Display/Lcd/ST7567/Lcd7567.cpp:82-139 | the finite sequence of calls until false, starting with the first call's page, result and fields |
| FlushEngine.DrainEnds | src/Display/Lcd/ST7567/Lcd7567.cpp:126-138 | repeated calls end: all but the last return true, the last returns false and leaves nothing to do |
| FlushEngine.FreshStep | src/Display/Lcd/ST7567/Lcd7567.cpp:93-130 | a fresh sweep moves startRow and the cursor together one page down, so the next call is fresh too |
| FlushEngine.PageRowNext | src/Display/Lcd/ST7567/Lcd7567.cpp:98 | the page of the row 8 further down is the next page |
| FlushEngine.DrainAligned | src/Display/Lcd/ST7567/Lcd7567.cpp:93-135 | height a multiple of 8: exactly height/8 calls, the k-th sends page PageRow(startRow) + 8k, the last leaves the sentinel |
| FlushEngine.DrainUnaligned | src/Display/Lcd/ST7567/Lcd7567.cpp:85-131 | other heights: ceil(height/8) sending calls all return true, then one false that sends nothing and leaves startRow past endRow, not the sentinel |
| FlushEngine.DrainSendsEachPage | src/Display/Lcd/ST7567/Lcd7567.cpp:88-131 | on a fresh sweep, for every k with startRow + 8k < endRow the k-th call sends the page k pages below startRow's page |
| FlushEngine.FreshSweepCovers | src/Display/Lcd/ST7567/Lcd7567.cpp:93-123 | a fresh sweep from a page-aligned startRow sends every dirty row's page before false |
| FlushEngine.DrainCoversAlignedSweep | src/Display/Lcd/ST7567/Lcd7567.cpp:88-131 | from any state with a page-aligned startRow, fresh or with the cursor mid-sweep, every dirty row's page is sent before false |
| FlushEngine.UnalignedStartSkipsPage | src/Display/Lcd/ST7567/Lcd7567.cpp:93-98 | dirty rows [5, 10): page 0 is sent, then false; page 8 (rows 8 and 9) is never sent |
| FlushEngine.TwoPageRectangle | src/Display/Lcd/ST7567/Lcd7567.cpp:82-139 | 16x16 at the origin: page 0 with true and cursor 8, then page 8 with false and the sentinel |
| FlushEngine.SubPageRectangle | src/Display/Lcd/ST7567/Lcd7567.cpp:82-139 | rows [3, 5): page 0 with true and startRow 11, then false without sending and without the sentinel |
| Lcd7567Driver.GatherTile | src/Display/Lcd/ST7567/Lcd7567.cpp:109-117 | the loop that ORs in 1 << i for each set pixel yields the reference tile byte: bit i = ReadPixel(x, startCom + i) |
| Lcd7567Driver.Lcd7567.constructor | src/Display/Lcd/ST7567/Lcd7567.cpp:15-18 | a 128x64 panel, nothing dirty (the sentinel), empty trace |
| Lcd7567Driver.Lcd7567.SelectDevice | src/Display/Lcd/ST7567/Lcd7567.cpp:141-151 | appends Select to the trace |
| Lcd7567Driver.Lcd7567.DeselectDevice | src/Display/Lcd/ST7567/Lcd7567.cpp:153-162 | appends Deselect to the trace |
| Lcd7567Driver.Lcd7567.SendLcdCommand | src/Display/Lcd/ST7567/Lcd7567.cpp:188-193 | appends one command byte |
| Lcd7567Driver.Lcd7567.SendLcdData | src/Display/Lcd/ST7567/Lcd7567.cpp:200-205 | appends one data byte |
| Lcd7567Driver.Lcd7567.StartDataTransaction | src/Display/Lcd/ST7567/Lcd7567.cpp:195-198 | appends A0High |
| Lcd7567Driver.Lcd7567.EndDataTransaction | src/Display/Lcd/ST7567/Lcd7567.cpp:207-210 | appends A0Low |
| Lcd7567Driver.Lcd7567.SetGraphicsAddress | src/Display/Lcd/ST7567/Lcd7567.cpp:166-176 | appends the three commands of GraphicsAddress(r, c), in order |
| Lcd7567Driver.Lcd7567.SendTiles | src/Display/Lcd/ST7567/Lcd7567.cpp:106-120 | appends exactly the data bytes of DataRun for [startCol, endCol) |
| Lcd7567Driver.Lcd7567.OpenPage | src/Display/Lcd/ST7567/Lcd7567.cpp:102-104 | appends Select, the three address commands for (startCom, startCol), then A0High |
| Lcd7567Driver.Lcd7567.ClosePage | src/Display/Lcd/ST7567/Lcd7567.cpp:122-123 | appends A0Low then Deselect |
| Lcd7567Driver.Lcd7567.FlushRow | src/Display/Lcd/ST7567/Lcd7567.cpp:100-124 | appends exactly one Transaction for the page at startCom |
| Lcd7567Driver.Lcd7567.FlushSome | src/Display/Lcd/ST7567/Lcd7567.cpp:82-139 | new fields and result are Step of the old fields, the trace grows by Emitted of the old fields, and the panel bounds are kept |

## Left out

- `HardwareInit` (src/Display/Lcd/ST7567/Lcd7567.cpp:20-79): a fixed list of vendor initialisation commands and a call to `FlushAll`, with no branches.
- `CommandDelay`, `DataDelay` and the microsecond waits in `SelectDevice` and `DeselectDevice`: timing only, with no effect on what is sent.
- GPIO writes (`pinMode`, `digitalWrite`) and SPI calls (`device.Select`, `device.Deselect`, `device.TransceivePacket`): hardware calls. They appear only as trace events.
- The Duet 2 Maestro chip-select branches: platform wiring with no effect on the protocol.
- The base class `Lcd` is not part of this model. This covers the frame buffer, `ReadPixel`, drawing operations that grow the rectangle, `FlushAll` and the initial field values. `ReadPixel` is a parameter. Growth of the rectangle between calls is any change of the fields that keeps them on the panel. The constructor starts from the sentinel.
- Lcd7567Driver.Lcd7567.FlushSome: requires that the fields fit the 8-bit pixel coordinate type and that `endRow <= 64` and `endCol <= 128`. The base class is outside this model and is assumed to keep this. Under it `startRow += 8` and `nextFlushRow += 8` never wrap, so 8-bit wrap-around is not modelled.
- St7567.GraphicsAddress: takes its arguments as naturals rather than 32-bit unsigned values. `>> 4` and `& 0x0F` are written as `/ 16` and `% 16`, which agree on every non-negative value.
- Concurrency between drawing and flushing: the model is sequential. Drawing can only happen between calls.
- src/Display/Lcd/ST7567/Lcd7567.h: declarations only.

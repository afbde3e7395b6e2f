# HD44780 drivers and text windows of ziutek/lcd, in Dafny

This project models the Go package `ziutek/lcd` in three groups.

**Instruction and data nibble encoders.** These cover `hdc.Device`, `hdc.Driver` and `hd44780.Driver`. They drive a Hitachi HD44780 character LCD controller through its 4-bit interface.
- An 8-bit instruction travels as two nibbles, high nibble first, with RS low.
- A data byte travels the same way, with the RS bit pattern OR'd into both nibbles.
- Initialisation sends the nibbles 3, 3, 3, 2 of the controller's "initializing by instruction" procedure.
- `Device` writes through its own 160-byte array.
- The two `Driver` types queue nibbles in a buffer through a fill index `n`. The buffer goes to the writer when it is full or on an explicit `Flush`. `Reset` writes its init nibbles straight to the writer, outside the buffer.

**Bit-bang encoders.** These are `hdc.Bitbang` and `hdc.BitbangOut`.
- Each byte is framed with the E (enable) line: as `b, b|e`, or as `b, b|e, b|e, b`.
- The aux bits `a` are OR'd into every byte.
- Frames are batched through a fixed buffer, and each call's accepted byte count is turned back into whole input bytes.

**Text windows.** These are `textWindow` in window.go and `TextWindow` in textwindow.go: a `width * height` grid of runes with a cursor, written at a linear address.

The `io.Writer` is an abstract sink (`Sink.Writer`). It keeps a ghost log of every call: the bytes offered, how many it accepted and whether it failed. It may accept any prefix, but it must report an error whenever it accepted less than everything (the `io.Writer` contract). Every writing method is specified by the exact calls it adds to that log.
- A call-by-call script is given by `Sink.Wrote`.
- The chunked write loop shared by `Device.Write`, `Bitbang.Write` and `BitbangOut.WriteC` is given by `Chunked.Run`. The lemmas about `Run` state what such a loop delivers and what it counts.

Go's `byte` is `bv8`, and Go's truncating `/` is `Grid.GoDiv`. A Go panic is a precondition for constructors and for `Write`'s division by zero. A store outside the grid is the `None` of `Grid.Run`.

Where the doc comments and the code disagree, the model follows the code:
- `NewDevice` and `NewDriver` accept 1 to 40 columns, not "1 to 20".
- `hdc.Driver.Reset` sends Function Set for one line whatever the row count.
- `Device.Init` is documented to leave the display "at home position cleared", but it never sends Clear Display: its last instruction is Return Home, which moves the cursor and keeps the display contents (`HdcDevice.InitNeverClears`).

## Model

| member | source | states |
|---|---|---|
| Bytes.ToByte | hdc/device.go:145-151 | Go's `byte(addr)` keeps the `int` modulo 256 |
| Sink.Writer.Write | hdc/device.go:236 | one call is appended to the log; the writer takes a prefix of what it was offered and fails whenever it took less than all of it |
| Sink.SentSnoc | hdc/driver.go:59-60 | a further call adds its bytes to the end of everything handed over |
| Sink.DeliveredAll | hdc/driver.go:59-62 | when every call succeeds, the writer took everything it was handed |
| Frames.CmdNibbles | hdc/device.go:77-82 | an instruction byte becomes two nibbles, both below 16, and `16 * hi + lo` is the byte |
| Frames.DataNibbles | hdc/device.go:232-233 | a data byte becomes two bytes, its high nibble then its low nibble, with the RS pattern OR'd into both; they go out together in one call |
| Frames.DataNibblesRecombine | hdc/device.go:232-233 | when `rs` keeps out of the low nibble (the default `1 << 6` does), masking and recombining the two emitted nibbles gives the data byte back |
| Frames.DataNibblesHighBits | hdc/device.go:247-248 | both nibbles of a data byte carry exactly the high bits of `rs` |
| Frames.Store2 | hdc/bitbang.go:47-48 | a two-byte frame lands at `buf[k]`, `buf[k + 1]`, and the cells before `k` keep their bytes |
| Frames.Store4 | hdc/bitbangout.go:48-51 | a four-byte frame lands at `buf[k]` to `buf[k + 3]`, and the cells before `k` keep their bytes |
| Frames.WholeFrames | hdc/bitbang.go:52 | `k` accepted bytes hold `k / width` whole frames and less than one more |
| Frames.Pulse2 | hdc/bitbang.go:46-48 | the `Bitbang` frame of one byte `b`: the idle byte `b|a`, then the same byte with E |
| Frames.Pulse4 | hdc/bitbangout.go:46-51 | the `WriteC` frame of one byte `b`: idle `b|a`, E raised twice, idle again |
| Frames.Encode | hdc/device.go:231-235 | the frames of `n` input bytes take `width * n` bytes |
| Frames.EncodeAppend | hdc/device.go:225-241 | the frames of a concatenation are the concatenated frames, so chunking does not change the byte stream |
| Frames.EncodeSnoc | hdc/bitbang.go:45-50 | one more input byte appends its frame, as one round of each fill loop does |
| Frames.UnframeFrame | hdc/bitbangout.go:46-52 | a single frame reads back as its input byte when the byte is clear of the control bits |
| Frames.EncodeAt | hdc/bitbang.go:45-50 | for every input, the frame of input byte `i` sits at bytes `width * i` up to `width * (i + 1)` of the stream |
| Frames.Pulse2Stream | hdc/bitbang.go:45-50 | for every input and every `i`, byte `2i` of the `Bitbang` stream is `data[i]|a` and byte `2i + 1` is `data[i]|a|e` |
| Frames.Pulse4Stream | hdc/bitbangout.go:46-52 | for every input and every `i`, bytes `4i` and `4i + 3` of the `WriteC` stream are `data[i]|a`, and bytes `4i + 1` and `4i + 2` are `data[i]|a|e` |
| Frames.DecodeEncode | hdc/bitbang.go:44-50 | round trip: reading the emitted stream back frame by frame gives the input bytes, for every framing, when the input is clear of the control bits |
| Chunked.Run | hdc/device.go:222-243 | the calls one chunked write loop makes on `data`, the count it returns and whether it failed: each call carries the frames of the next chunk, and a failing call ends the loop with the whole frames it took counted |
| Chunked.ContinuesStart | hdc/device.go:223-225 | the loop invariant holds before the first chunk |
| Chunked.ContinuesStep | hdc/device.go:226-240 | a chunk that the writer took in full keeps the invariant over the rest of the input |
| Chunked.ContinuesFail | hdc/device.go:236-238 | a failing call ends the run, with the whole bytes it took added to the count |
| Chunked.ContinuesFinish | hdc/device.go:242 | once all input is used, the run is complete and the count is `len(data)` |
| Chunked.RunCount | hdc/bitbang.go:51-59 | the count lies between 0 and `len(data)`; it is `len(data)` without a failure; the run failed exactly when its last call failed |
| Chunked.RunCallShape | hdc/bitbang.go:38-56 | every call carries 1 to `chunk` frames; only the last call may fail; empty input makes no call at all |
| Chunked.RunSent | hdc/device.go:225-241 | the bytes handed over are a prefix of the frames of the input, and all of them without a failure |
| Chunked.RunDelivered | hdc/device.go:236-242 | the bytes the writer took begin with the frames of exactly the counted input bytes and hold less than one more frame, so the input from the count on is what remains to be sent |
| Chunked.DeliveredOnFailure | hdc/device.go:236-238 | for a failing call, `k / width` is the number of input bytes whose frames the writer took whole |
| Instructions.FixedCommands | hdc/device.go:84-90 | 0x01 is Clear Display and 0x02 is Return Home |
| Instructions.EntryModeCmd | hdc/device.go:100-102 | an Entry Mode Set instruction whose operand is exactly the flags masked with 0x03 |
| Instructions.DisplayCmd | hdc/device.go:115-117 | a Display Control instruction whose operand is exactly the flags masked with 0x07 |
| Instructions.ShiftCmd | hdc/device.go:128-130 | a Cursor/Display Shift instruction whose operand is exactly the flags masked with 0x0c |
| Instructions.FunctionCmd | hdc/device.go:141-143 | a Function Set instruction whose operand is exactly the flags masked with 0x0f |
| Instructions.CGRAMAddrCmd | hdc/device.go:145-147 | a Set CGRAM Address instruction carrying the address modulo 64 |
| Instructions.DDRAMAddrCmd | hdc/device.go:149-151 | a Set DDRAM Address instruction carrying the address modulo 128 |
| Instructions.BuildersDisjoint | hdc/device.go:84-151 | for any flags and any addresses, no two of the six builders produce the same byte, and neither Clear Display (0x01) nor Return Home (0x02) is the output of any builder |
| HdcDevice.InitScript | hdc/device.go:187-218 | `Init` makes eight writes: the four init nibbles one per write, then four instructions, each one write of two nibbles below 16 |
| HdcDevice.InitNeverClears | hdc/device.go:179-218 | no write of `Init` is Clear Display, contrary to its doc comment; the last one is Return Home |
| HdcDevice.InitScriptBytes | hdc/device.go:162-218 | `Init` writes exactly `[3] [3] [3] [2] [2 8] [0 8] [0 6] [0 2]`, with `[2 0]` in place of `[2 8]` when the display has one row |
| HdcDevice.FunctionNibbles | hdc/device.go:202-206 | the Function Set of `Init` selects two lines unless the display has one row |
| HdcDevice.CursorAddr | hdc/device.go:260-270 | rows 0 to 3 start at 0, 0x40, `cols` and `0x40 + cols`, and the address is that start plus the column; any other row gives address 0 |
| HdcDevice.CursorRowUnchecked | hdc/device.go:253-270 | `MoveCursor` never validates the row: any row outside 0 to 3 is address 0 |
| HdcDevice.CursorAddrInjective | hdc/device.go:260-270 | up to 32 columns, each cell of a 4-row display has its own 7-bit DDRAM address |
| HdcDevice.CursorAddrOverlap | hdc/device.go:266-267 | on a 40-column display, row 2 runs into row 1: column 24 of row 2 is column 0 of row 1 |
| HdcDevice.CursorCommand | hdc/device.go:271 | the Set DDRAM Address instruction `MoveCursor` sends carries the cursor address exactly |
| HdcDevice.Device.constructor | hdc/device.go:44-56 | `NewDevice` accepts 1, 2 or 4 rows and 1 to 40 columns; RS defaults to `1 << 6` |
| HdcDevice.Device.SetMapping | hdc/device.go:66-69 | only the RS pattern changes |
| HdcDevice.Device.WriteNibble | hdc/device.go:71-75 | exactly one call, carrying `[b]` |
| HdcDevice.Device.WriteCmd | hdc/device.go:77-82 | exactly one call, carrying the two nibbles of the instruction |
| HdcDevice.Device.ClearDisplay | hdc/device.go:84-86 | one call with the nibbles of 0x01 |
| HdcDevice.Device.ReturnHome | hdc/device.go:88-90 | one call with the nibbles of 0x02 |
| HdcDevice.Device.SetEntryMode | hdc/device.go:100-102 | one call with the nibbles of the Entry Mode Set instruction |
| HdcDevice.Device.SetDisplay | hdc/device.go:115-117 | one call with the nibbles of the Display Control instruction |
| HdcDevice.Device.SetShift | hdc/device.go:128-130 | one call with the nibbles of the Cursor/Display Shift instruction |
| HdcDevice.Device.SetFunction | hdc/device.go:141-143 | one call with the nibbles of the Function Set instruction |
| HdcDevice.Device.SetCGRAMAddr | hdc/device.go:145-147 | one call with the nibbles of Set CGRAM Address |
| HdcDevice.Device.SetDDRAMAddr | hdc/device.go:149-151 | one call with the nibbles of Set DDRAM Address |
| HdcDevice.Device.Init | hdc/device.go:187-219 | the log gains the calls of the init script in order, stopping right after the first that fails |
| HdcDevice.Device.Write | hdc/device.go:222-243 | the calls and the count are those of a chunked run over RS nibble pairs with chunks of 80 bytes |
| HdcDevice.Device.WriteChunk | hdc/device.go:226-236 | one chunk: a single call carrying the RS nibble pairs of the chunk |
| HdcDevice.Device.WriteByte | hdc/device.go:246-251 | exactly one call, carrying `rs|b>>4, rs|b&0x0f` |
| HdcDevice.Device.MoveCursor | hdc/device.go:253-272 | a column at or past `cols` is an error and writes nothing; otherwise one Set DDRAM Address call for the row's address |
| HdcDriver.MaskedFunctionCmd | hdc/driver.go:133-135 | a Function Set instruction whose operand is the flags masked with 0x06 |
| HdcDriver.TwoLinesDropped | hdc/driver.go:126-135 | the 0x06 mask drops `TwoLines`, but `Font5x10` survives |
| HdcDriver.ResetQueueBytes | hdc/driver.go:178-190 | `Reset` queues the instructions 0x20, 0x08, 0x06 and 0x01 |
| HdcDriver.Driver.constructor | hdc/driver.go:39-52 | `NewDriver` accepts 1, 2 or 4 rows and 1 to 40 columns; the buffer is empty; RS defaults to `1 << 6` |
| HdcDriver.Driver.SetRS | hdc/driver.go:54-57 | only the RS pattern changes; the queue is untouched |
| HdcDriver.Driver.Flush | hdc/driver.go:59-63 | one call with `buf[:n]`; `n` becomes 0 even when the call fails |
| HdcDriver.Driver.Put | hdc/driver.go:71-73 | the pair lands at `buf[n]`, `buf[n + 1]`, `n` grows by 2 and no other cell changes |
| HdcDriver.Driver.WriteCmd | hdc/driver.go:65-75 | a full buffer is flushed first, and a failed flush returns the error without queueing; otherwise the two instruction nibbles are queued, with no call |
| HdcDriver.Driver.ClearDisplay | hdc/driver.go:76-78 | queues the nibbles of 0x01, as `writeCmd` does |
| HdcDriver.Driver.ReturnHome | hdc/driver.go:80-82 | queues the nibbles of 0x02 |
| HdcDriver.Driver.SetEntryMode | hdc/driver.go:92-94 | queues the Entry Mode Set instruction |
| HdcDriver.Driver.SetDisplay | hdc/driver.go:107-109 | queues the Display Control instruction |
| HdcDriver.Driver.Shift | hdc/driver.go:120-122 | queues the Cursor/Display Shift instruction |
| HdcDriver.Driver.SetFunction | hdc/driver.go:133-135 | queues Function Set with the flags masked by 0x06 |
| HdcDriver.Driver.SetCGRAMAddr | hdc/driver.go:137-139 | queues Set CGRAM Address |
| HdcDriver.Driver.SetDDRAMAddr | hdc/driver.go:141-143 | queues Set DDRAM Address |
| HdcDriver.Driver.Reset | hdc/driver.go:170-191 | the queue is dropped and `[3 3 3 2]` goes out in one call outside the buffer; if that call succeeds, exactly the four reset instructions are queued |
| HdcDriver.Driver.WriteByte | hdc/driver.go:195-205 | like `writeCmd`, with the RS nibble pair of the data byte |
| HdcDriver.NothingLost | hdc/driver.go:59-75 | while no flush fails, what the writer took followed by `buf[:n]` is every nibble queued since `Reset`, in order |
| Hd44780Driver.NewDriverAlwaysPanics | hd44780/driver.go:39-41 | the row test as written is true for every row count |
| Hd44780Driver.RowsAccepted | hd44780/driver.go:35-41 | the corrected test accepts exactly 1, 2 and 4 rows |
| Hd44780Driver.Driver.constructor | hd44780/driver.go:38-51 | `NewDriver` with the corrected row test: 1 to 40 columns, an empty 162-byte buffer, RS `1 << 6` |
| Hd44780Driver.Driver.SetRS | hd44780/driver.go:53-56 | only the RS pattern changes; the queue is untouched |
| Hd44780Driver.Driver.Flush | hd44780/driver.go:58-62 | one call with `buf[:n]`; `n` becomes 0 even when the call fails |
| Hd44780Driver.Driver.Put | hd44780/driver.go:96-98 | the pair lands at `buf[n]`, `buf[n + 1]`, `n` grows by 2 and no other cell changes |
| Hd44780Driver.Driver.Reset | hd44780/driver.go:84-88 | the buffer is emptied and exactly `[3 3 3 2]` goes out in one call |
| Hd44780Driver.Driver.WriteCmd | hd44780/driver.go:90-100 | a full buffer is flushed first, and a failed flush returns the error without queueing; otherwise the two instruction nibbles are queued, with no call |
| Hd44780Driver.Driver.WriteByte | hd44780/driver.go:104-114 | like `writeCmd`, with the RS nibble pair of the data byte |
| Hd44780Driver.NothingLost | hd44780/driver.go:58-114 | while no flush fails, what the writer took followed by `buf[:n]` is every nibble queued since `Reset`, in order |
| HdcBitbang.Bitbang.constructor | hdc/bitbang.go:21-28 | E on bit 4, R/W on bit 5, AUX on bit 7, no aux bits set, a 320-byte buffer |
| HdcBitbang.Bitbang.SetMapping | hdc/bitbang.go:30-34 | only `e`, `rw` and `aux` change |
| HdcBitbang.Bitbang.Write | hdc/bitbang.go:36-60 | the calls and the count are those of a chunked run over two-byte E frames with chunks of 160 bytes |
| HdcBitbang.Bitbang.WriteChunk | hdc/bitbang.go:44-51 | one chunk: a single call carrying the two-byte frames of the chunk |
| HdcBitbang.StreamWithoutAux | hdc/bitbang.go:17-28 | `a` is never set, so byte `j` of the stream is the input byte `data[j / 2]`, with E added exactly at odd `j` |
| HdcBitbangOut.Strobe | hdc/bitbangout.go:70-72 | the two bytes `Write` sends for one byte `b`: `b|a` with E raised, then `b|a` with E dropped |
| HdcBitbangOut.Strobes | hdc/bitbangout.go:69-79 | `Write` makes two one-byte calls per input byte |
| HdcBitbangOut.StrobesAt | hdc/bitbangout.go:69-79 | call `2i` of `Write` carries byte `i` with E raised, and call `2i + 1` the same byte with E dropped |
| HdcBitbangOut.EmptyBufferStalls | hdc/bitbangout.go:37-65 | with the chunk of 0 bytes that `NewBitbangOut`'s missing buffer gives, no run of `WriteC`'s loop on non-empty data ends without a failure, and one that ends by a failure counts 0 bytes |
| HdcBitbangOut.BitbangOut.constructor | hdc/bitbangout.go:22-29 | `NewBitbangOut` as written: the line mapping, and a buffer of length 0 |
| HdcBitbangOut.BitbangOut.WithBuffer | hdc/bitbangout.go:22-29 | the constructor with a buffer of at least one four-byte frame |
| HdcBitbangOut.BitbangOut.SetMapping | hdc/bitbangout.go:31-35 | only `e`, `rw` and `aux` change |
| HdcBitbangOut.BitbangOut.WriteC | hdc/bitbangout.go:37-65 | empty input makes no call; otherwise the calls and the count are those of a chunked run over four-byte E frames, `len(buf) / 4` bytes per chunk |
| HdcBitbangOut.BitbangOut.WriteChunk | hdc/bitbangout.go:45-54 | one chunk: a single call carrying the four-byte frames of the chunk |
| HdcBitbangOut.BitbangOut.Write | hdc/bitbangout.go:67-83 | two one-byte calls per input byte, stopping right after the first failure; returns `len(data)`, or `i - 1` when byte `i` failed |
| HdcBitbangOut.BitbangOut.Clock | hdc/bitbangout.go:70-80 | one input byte: its two one-byte calls in order, the second only if the first succeeded |
| Grid.GoDiv | window.go:70 | Go's `/` agrees with the mathematical quotient for a non-negative dividend and a positive divisor |
| Grid.GoDivRem | window.go:68-73 | the remainder Go's `/` leaves has the sign of the dividend and is smaller than the divisor |
| Grid.Blank | window.go:94-98 | every cell holds `' '` |
| Grid.Step | window.go:79-85 | one rune: `'\n'` (and `'\r'` where handled) moves only the address and never panics; any other rune keeps the number of cells and panics exactly when the address is outside the grid |
| Grid.Run | window.go:77-87 | `Write`'s loop never changes the number of cells |
| Grid.CursorOf | window.go:88-90 | `cshift` from (0, 0) gives `cy * width + cx == addr`, and `0 <= cx < width` for a non-negative address |
| Grid.StoreRune | window.go:82-84 | an ordinary rune is stored at `addr` and nowhere else; the address moves one cell on, wrapping to 0 after the last; it panics exactly outside the grid |
| Grid.Newline | window.go:80-81 | `'\n'` writes no cell and moves to the first column of the next row |
| Grid.NewlineOnLastRow | window.go:80-84 | on the last row `'\n'` moves just past the grid, where the next ordinary rune panics |
| Grid.CarriageReturn | textwindow.go:63-64 | `'\r'` writes no cell, moves to the first column of the current row, and is idempotent |
| Grid.CarriageReturnStored | window.go:79-84 | without a `'\r'` case, `'\r'` is stored like any other rune |
| Grid.RunAppend | window.go:77-87 | writing `s + t` is writing `s`, then `t` from where `s` left off |
| Grid.PlainText | window.go:82-84 | text without control runes is laid down left to right, replacing exactly the cells it covers, when it ends before the last cell (past that the address wraps to 0) |
| Window.TextWindow.constructor | window.go:32-40 | `width * height` cells, all blank, with the cursor at (0, 0) |
| Window.TextWindow.Clear | window.go:94-98 | every cell becomes `' '` and the cursor stays |
| Window.TextWindow.CPos | window.go:59-61 | the cursor as `(cx, cy)` |
| Window.TextWindow.SetCPos | window.go:59-66 | `CPos` then returns exactly the pair set |
| Window.TextWindow.CShift | window.go:68-73 | the linear address grows by `shift`; the column is normalised into the row |
| Window.TextWindow.Write | window.go:75-92 | cells and cursor end as `Grid.Run` and `Grid.CursorOf` say; the count returned is always 0 |
| Window.ExampleFirst | lcd_example/main.go:41 | "Halo to ja!" from (3, 2) fills cells 43 to 53 and leaves the cursor at (0, 3) |
| Window.ExampleSecond | lcd_example/main.go:42 | "Ja też!" then fills cells 60 to 66 and leaves the cursor at (0, 4) |
| Window.Example | lcd_example/main.go:38-42 | the session of the example program ends with exactly those two texts in a blank grid and the cursor at (0, 4) |
| TextWindow.TextWindow.constructor | textwindow.go:13-21 | `width * height` cells, all blank, with the cursor at (0, 0) |
| TextWindow.TextWindow.Clear | textwindow.go:77-81 | every cell becomes `' '` and the cursor stays |
| TextWindow.TextWindow.CPos | textwindow.go:40-42 | the cursor as `(cx, cy)` |
| TextWindow.TextWindow.SetCPos | textwindow.go:40-47 | `CPos` then returns exactly the pair set |
| TextWindow.TextWindow.CShift | textwindow.go:49-54 | the linear address grows by `shift`; the column is normalised into the row |
| TextWindow.TextWindow.Write | textwindow.go:56-75 | cells and cursor end as `Grid.Run` with `'\r'` handling says; the count returned is always 0 |

## Left out

- `time.Sleep` in hdc/bitbang.go and hdc/bitbangout.go: timing only, with no effect on the bytes or the counts.
- `log.Printf` in `BitbangOut.WriteC`: tracing output only.
- `Device.Flush`: it type-asserts the writer to `*bufio.Writer`, a foreign type. The model's writer is never one, so `Flush` does nothing and the `Flush` calls inside `Init` are left out.
- `utf8.DecodeRune` in both window `Write`s: the input is modelled as a sequence of runes, already decoded.
- `Width`, `Height`, `Runes`, `Close`, `Rows` and `Cols`: plain field reads, or dropping the rune slice.
- Go's 64-bit `int` overflow in the window address arithmetic and in `SetCGRAMAddr`/`SetDDRAMAddr`: integers are unbounded here.
- `HdcDevice.Device.MoveCursor`: the second column test repeats the first and can never fire, so it is modelled once.
- `HdcDriver.Driver.Reset`: hdc/driver.go:186 lacks its `=` and the function has no final `return`, so the file does not compile. The model follows the evident intent: each queued call assigns `err`, and the result is the last error.
- Panics are preconditions, not modelled behaviour: the row and column tests of `NewDevice` and `NewDriver`; a negative `width * height` in `NewTextWindow`; a zero `width` in `Write` and `cshift`.
- `Window.TextWindow.Write` and `TextWindow.TextWindow.Write` require that no rune is stored outside the grid. Go panics there; the model states it through `Grid.Run` returning a value.
- `HdcBitbangOut.BitbangOut.WriteC` requires a buffer of at least four bytes unless `data` is empty. With the buffer `NewBitbangOut` leaves, the loop never ends (see Findings).
- `Bitbang.a` and `BitbangOut.a` are constants, 0: nothing in either file assigns them.
- window.go and textwindow.go declare the same names in one package, and textwindow.go:13-20 returns a pointer as a value. Each file is modelled as its own module.
- hdc/device.go:92-162 and hdc/driver.go:84-145 both declare `EntryMode`, `Display`, `Shift`, `Function` and `init4bit` in package `hdc`, and hdc/driver.go:120 also names a method `Shift`. Each file is modelled as its own module (`HdcDevice`, `HdcDriver`), sharing the instruction encoders of `Instructions`.
- hd44780/device.go and hd44780/bitbang.go are not part of this model: they do not compile. display.go and screen.go (interfaces only) and the example programs are not part of this model either, apart from the window session of lcd_example/main.go.
- `Put`, `WriteChunk`, `Clock`, `Store2` and `Store4` are not Go functions. They are the loop bodies and buffer stores of the Go code, split out as methods of their own.

## Findings

| source | as written | input that shows it | evidently intended | confidence | as-written member | corrected member |
|---|---|---|---|---|---|---|
| hd44780/driver.go:39-41 | `rows != 1 \|\| rows != 2 \|\| rows != 4` holds for every integer, so `NewDriver` always panics | `rows = 2`: `2 != 1` is true | reject only rows other than 1, 2 and 4 (`&&`, as in hdc/driver.go:40) | high, not executed | Hd44780Driver.NewDriverAlwaysPanics | Hd44780Driver.RowsAccepted |
| hdc/bitbangout.go:22-29 | `NewBitbangOut` never allocates `buf`, so `blen` is 0 and `WriteC` sends empty calls without consuming input | `WriteC([]byte{0x41})` on a writer that never fails: the loop never ends | a buffer of at least one four-byte frame | high, not executed | HdcBitbangOut.EmptyBufferStalls | HdcBitbangOut.BitbangOut.WithBuffer |

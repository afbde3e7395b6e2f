/**
 * `hdc.Device`: sends instructions and data to an HD44780 in 4-bit mode
 * through an `io.Writer`. An instruction travels as its two nibbles with RS
 * low, a data byte as two nibbles with the RS bit pattern OR'd in; the
 * initialisation nibbles travel one per call. Every write goes through the
 * device's own 160-byte buffer.
 */
module HdcDevice {
  import opened Bytes
  import opened Sink
  import opened Frames
  import opened Chunked
  import opened Instructions
  import opened Options

  /** Bytes of the device buffer: 80 data bytes as nibble pairs. */
  const BufLen: nat := 160

  /** One single-byte write per element of `s`. */
  function Singles(s: seq<byte>): (r: seq<seq<byte>>)
    ensures |r| == |s| && forall i :: 0 <= i < |s| ==> r[i] == [s[i]]
  {
    seq(|s|, i requires 0 <= i < |s| => [s[i]])
  }

  /** Function Set flags `Init` uses: 5x8 font, two display lines unless the display has one row. */
  function InitFunction(rows: int): byte
  {
    if rows != 1 then Font5x8 | TwoLines else Font5x8
  }

  /**
   * The writes of `Init`: the four init nibbles one write each, then four
   * instructions, each one write of two nibbles.
   */
  function InitScript(rows: int): (r: seq<seq<byte>>)
    ensures |r| == 8
    ensures forall i :: 0 <= i < 4 ==> r[i] == [Init4Bit[i]]
    ensures forall i :: 4 <= i < 8 ==> |r[i]| == 2 && r[i][0] < 16 && r[i][1] < 16
  {
    Singles(Init4Bit) + [
      CmdNibbles(FunctionCmd(InitFunction(rows))),
      CmdNibbles(DisplayCmd(DisplayOff | CursorOff | BlinkOff)),
      CmdNibbles(EntryModeCmd(IncrMode)),
      CmdNibbles(ReturnHomeCmd)
    ]
  }

  lemma InitScriptShape(rows: int)
    ensures |InitScript(rows)| == 8
    ensures forall i :: 0 <= i < |Init4Bit| ==> InitScript(rows)[i] == [Init4Bit[i]]
    ensures InitScript(rows)[4] == CmdNibbles(FunctionCmd(InitFunction(rows)))
    ensures InitScript(rows)[5] == CmdNibbles(DisplayCmd(DisplayOff | CursorOff | BlinkOff))
    ensures InitScript(rows)[6] == CmdNibbles(EntryModeCmd(IncrMode))
    ensures InitScript(rows)[7] == CmdNibbles(ReturnHomeCmd)
  {
  }

  /**
   * `Init`'s doc comment promises a cleared display, but no write of `Init`
   * is Clear Display: the last instruction is Return Home, which only moves
   * the cursor.
   */
  lemma InitNeverClears(rows: int)
    ensures forall i :: 0 <= i < |InitScript(rows)| ==> InitScript(rows)[i] != CmdNibbles(ClearDisplayCmd)
    ensures InitScript(rows)[7] == CmdNibbles(ReturnHomeCmd)
  {
    InitScriptBytes(rows);
    assert CmdNibbles(ClearDisplayCmd) == [0, 1];
  }

  /** The writes of `Init` byte by byte: `[2, 8]` selects two lines, `[2, 0]` one. */
  lemma InitScriptBytes(rows: int)
    ensures InitScript(rows) ==
      [[3], [3], [3], [2], [2, if rows == 1 then 0 else 8], [0, 8], [0, 6], [0, 2]]
  {
    assert Singles(Init4Bit) == [[3], [3], [3], [2]];
    FunctionNibbles(rows);
  }

  lemma FunctionNibbles(rows: int)
    ensures CmdNibbles(FunctionCmd(InitFunction(rows))) == [2, if rows == 1 then 0 else 8]
  {
    if rows == 1 {
      assert FunctionCmd(InitFunction(rows)) == 0x20;
    } else {
      assert FunctionCmd(InitFunction(rows)) == 0x28;
    }
  }

  /**
   * DDRAM address of column `col` on row `row` of a display `cols` wide:
   * rows 0 and 1 start at 0x00 and 0x40, rows 2 and 3 continue them after
   * `cols` cells. Any other row gives address 0.
   */
  function CursorAddr(cols: int, col: int, row: int): (a: int)
    ensures 0 <= row < 4 ==>
      a == (if row % 2 == 1 then 0x40 else 0) + (if row >= 2 then cols else 0) + col
    ensures row < 0 || 3 < row ==> a == 0
  {
    if row == 0 then col
    else if row == 1 then 0x40 + col
    else if row == 2 then cols + col
    else if row == 3 then 0x40 + cols + col
    else 0
  }

  /** `MoveCursor` never checks the row: a row outside 0..3 is not an error and lands at address 0. */
  lemma CursorRowUnchecked(cols: int, col: int, row: int)
    requires row < 0 || 3 < row
    ensures CursorAddr(cols, col, row) == 0
  {
  }

  /** On a display at most 32 columns wide every cell has its own 7-bit DDRAM address. */
  lemma CursorAddrInjective(cols: int, c1: int, r1: int, c2: int, r2: int)
    requires 1 <= cols <= 32
    requires 0 <= c1 < cols && 0 <= r1 < 4 && 0 <= c2 < cols && 0 <= r2 < 4
    ensures 0 <= CursorAddr(cols, c1, r1) < 0x80
    ensures CursorAddr(cols, c1, r1) == CursorAddr(cols, c2, r2) ==> c1 == c2 && r1 == r2
  {
  }

  /** Wider than 32 columns, row 2 runs into row 1: on a 40-column display (col 24, row 2) is (col 0, row 1). */
  lemma CursorAddrOverlap()
    ensures CursorAddr(40, 24, 2) == CursorAddr(40, 0, 1) == 0x40
  {
  }

  /** The Set DDRAM Address instruction `MoveCursor` sends carries the cursor address exactly. */
  lemma CursorCommand(cols: int, col: int, row: int)
    requires 0 <= CursorAddr(cols, col, row) < 0x80
    ensures Instructions.Decode(DDRAMAddrCmd(CursorAddr(cols, col, row))) == Some(SetDDRAMAddr)
    ensures Operand(DDRAMAddrCmd(CursorAddr(cols, col, row))) as int == CursorAddr(cols, col, row)
  {
    var a := CursorAddr(cols, col, row);
    assert a % 128 == a;
  }

  class Device {
    const w: Writer
    const rows: int
    const cols: int
    /** The bit pattern OR'd into data nibbles (the RS line). */
    var rs: byte
    const buf: array<byte>

    predicate Valid()
    {
      && buf.Length == BufLen
      && (rows == 1 || rows == 2 || rows == 4)
      && 1 <= cols <= 40
    }

    /** `NewDevice`: panics unless `rows` is 1, 2 or 4 and `cols` is 1 to 40. */
    constructor (w: Writer, cols: int, rows: int)
      requires rows == 1 || rows == 2 || rows == 4
      requires 1 <= cols <= 40
      ensures Valid()
      ensures this.w == w && this.rows == rows && this.cols == cols && rs == 0x40
      ensures fresh(buf)
    {
      this.w := w;
      this.rows := rows;
      this.cols := cols;
      rs := 1 << 6;
      buf := new byte[BufLen];
    }

    /** Changes the bit used for RS. */
    method SetMapping(rs: byte)
      modifies this
      ensures this.rs == rs
    {
      this.rs := rs;
    }

    /** One call carrying the single byte `b`. */
    method WriteNibble(b: byte) returns (err: bool)
      requires Valid()
      modifies w, buf
      ensures Wrote(w.log, old(w.log), [[b]], err)
    {
      buf[0] := b;
      var k, e := w.Write(buf[..1]);
      err := e;
      WroteCall(w.log, old(w.log), Call(buf[..1], k, e), [b]);
    }

    /** One call carrying the two nibbles of instruction `b`, high first. */
    method WriteCmd(b: byte) returns (err: bool)
      requires Valid()
      modifies w, buf
      ensures Wrote(w.log, old(w.log), [CmdNibbles(b)], err)
    {
      buf[0] := b >> 4;
      buf[1] := b & 0x0f;
      var k, e := w.Write(buf[..2]);
      err := e;
      WroteCall(w.log, old(w.log), Call(buf[..2], k, e), CmdNibbles(b));
    }

    method ClearDisplay() returns (err: bool)
      requires Valid()
      modifies w, buf
      ensures Wrote(w.log, old(w.log), [CmdNibbles(ClearDisplayCmd)], err)
    {
      err := WriteCmd(ClearDisplayCmd);
    }

    method ReturnHome() returns (err: bool)
      requires Valid()
      modifies w, buf
      ensures Wrote(w.log, old(w.log), [CmdNibbles(ReturnHomeCmd)], err)
    {
      err := WriteCmd(ReturnHomeCmd);
    }

    method SetEntryMode(f: byte) returns (err: bool)
      requires Valid()
      modifies w, buf
      ensures Wrote(w.log, old(w.log), [CmdNibbles(EntryModeCmd(f))], err)
    {
      err := WriteCmd(EntryModeCmd(f));
    }

    method SetDisplay(f: byte) returns (err: bool)
      requires Valid()
      modifies w, buf
      ensures Wrote(w.log, old(w.log), [CmdNibbles(DisplayCmd(f))], err)
    {
      err := WriteCmd(DisplayCmd(f));
    }

    method SetShift(f: byte) returns (err: bool)
      requires Valid()
      modifies w, buf
      ensures Wrote(w.log, old(w.log), [CmdNibbles(ShiftCmd(f))], err)
    {
      err := WriteCmd(ShiftCmd(f));
    }

    method SetFunction(f: byte) returns (err: bool)
      requires Valid()
      modifies w, buf
      ensures Wrote(w.log, old(w.log), [CmdNibbles(FunctionCmd(f))], err)
    {
      err := WriteCmd(FunctionCmd(f));
    }

    method SetCGRAMAddr(addr: int) returns (err: bool)
      requires Valid()
      modifies w, buf
      ensures Wrote(w.log, old(w.log), [CmdNibbles(CGRAMAddrCmd(addr))], err)
    {
      err := WriteCmd(CGRAMAddrCmd(addr));
    }

    method SetDDRAMAddr(addr: int) returns (err: bool)
      requires Valid()
      modifies w, buf
      ensures Wrote(w.log, old(w.log), [CmdNibbles(DDRAMAddrCmd(addr))], err)
    {
      err := WriteCmd(DDRAMAddrCmd(addr));
    }

    /**
     * Initialises the controller: the init nibbles one call each, then
     * Function Set, Display Control (all off), Entry Mode Set (increment) and
     * Return Home, stopping at the first failed call.
     */
    method Init() returns (err: bool)
      requires Valid()
      modifies w, buf
      ensures Wrote(w.log, old(w.log), InitScript(rows), err)
    {
      ghost var log0 := w.log;
      ghost var script := InitScript(rows);
      InitScriptShape(rows);
      assert script[..0] == [];
      assert w.log[|log0|..] == [];
      var i := 0;
      while i < |Init4Bit|
        invariant 0 <= i <= |Init4Bit| && |w.log| == |log0| + i
        invariant Wrote(w.log, log0, script[..i], false)
      {
        ghost var log1 := w.log;
        err := WriteNibble(Init4Bit[i]);
        Continue(log0, log1, w.log, script, i, err);
        if err {
          return;
        }
        i := i + 1;
      }
      var f := Font5x8;
      if rows != 1 {
        f := f | TwoLines;
      }
      ghost var log1 := w.log;
      err := SetFunction(f);
      Continue(log0, log1, w.log, script, 4, err);
      if err {
        return;
      }
      log1 := w.log;
      err := SetDisplay(DisplayOff | CursorOff | BlinkOff);
      Continue(log0, log1, w.log, script, 5, err);
      if err {
        return;
      }
      log1 := w.log;
      err := SetEntryMode(IncrMode);
      Continue(log0, log1, w.log, script, 6, err);
      if err {
        return;
      }
      log1 := w.log;
      err := ReturnHome();
      Continue(log0, log1, w.log, script, 7, err);
      assert script[..8] == script;
    }

    /**
     * Writes `data` at the current CGRAM or DDRAM address: chunks of at most
     * 80 bytes, each as one call of its RS nibble pairs. Returns the bytes of
     * earlier chunks plus the whole pairs the failing call took, if one failed.
     */
    method Write(data: seq<byte>) returns (n: int, err: bool)
      requires Valid()
      modifies w, buf
      ensures Extends(w.log, old(w.log))
      ensures Run(Nibbles(rs), BufLen / 2, data, w.log[|old(w.log)|..], n, err)
    {
      ghost var log0 := w.log;
      ghost var f := Nibbles(rs);
      var bl := buf.Length / 2;
      ContinuesStart(f, bl, data);
      assert w.log[|log0|..] == [];
      var rest := data;
      while |rest| > 0
        invariant Extends(w.log, log0)
        invariant Continues(f, bl, data, w.log[|log0|..], rest)
        decreases |rest|
      {
        var l := bl;
        if l > |rest| {
          l := |rest|;
        }
        assert l == Min(bl, |rest|);
        ghost var calls := w.log[|log0|..];
        var accepted, failed := WriteChunk(rest[..l]);
        ghost var c := Call(Encode(f, rest[..l]), accepted, failed);
        assert w.log[|log0|..] == calls + [c];
        if failed {
          ContinuesFail(f, bl, data, calls, rest, c);
          return |data| - |rest| + accepted / 2, true;
        }
        ContinuesStep(f, bl, data, calls, rest, c);
        rest := rest[l..];
      }
      ContinuesFinish(f, bl, data, w.log[|log0|..]);
      return |data|, false;
    }

    /**
     * One round of the loop: the RS nibble pairs of `chunk` stored at the
     * front of the buffer, then handed to the writer in one call.
     */
    method WriteChunk(chunk: seq<byte>) returns (accepted: nat, failed: bool)
      requires Valid() && |chunk| <= buf.Length / 2
      modifies w, buf
      ensures w.log == old(w.log) + [Call(Encode(Nibbles(rs), chunk), accepted, failed)]
      ensures Call(Encode(Nibbles(rs), chunk), accepted, failed).Honest()
    {
      var f := Nibbles(rs);
      var k := 0;
      var i := 0;
      while i < |chunk|
        invariant 0 <= i <= |chunk| && k == 2 * i
        invariant buf[..k] == Encode(f, chunk[..i])
        invariant w.log == old(w.log)
      {
        var fr := f.Frame(chunk[i]);
        Store2(buf, k, fr);
        EncodeSnoc(f, chunk, i);
        k := k + 2;
        i := i + 1;
      }
      assert chunk[..i] == chunk;
      accepted, failed := w.Write(buf[..k]);
    }

    /** Writes one data byte: one call with its two RS nibbles. */
    method WriteByte(b: byte) returns (err: bool)
      requires Valid()
      modifies w, buf
      ensures Wrote(w.log, old(w.log), [DataNibbles(rs, b)], err)
    {
      buf[0] := rs | (b >> 4);
      buf[1] := rs | (b & 0x0f);
      var k, e := w.Write(buf[..2]);
      err := e;
      WroteCall(w.log, old(w.log), Call(buf[..2], k, e), DataNibbles(rs, b));
    }

    /**
     * Moves the cursor to (`col`, `row`): an error without any write when
     * `col >= cols`, otherwise Set DDRAM Address with `CursorAddr`. The
     * source tests the column a second time where the row test belongs, so
     * the row is never checked (`CursorRowUnchecked`).
     */
    method MoveCursor(col: int, row: int) returns (err: bool)
      requires Valid()
      modifies w, buf
      ensures col >= cols ==> err && w.log == old(w.log)
      ensures col < cols ==> Wrote(w.log, old(w.log), [CmdNibbles(DDRAMAddrCmd(CursorAddr(cols, col, row)))], err)
    {
      if col >= cols {
        return true;
      }
      var addr := 0;
      if row == 0 {
        addr := col;
      } else if row == 1 {
        addr := 0x40 + col;
      } else if row == 2 {
        addr := cols + col;
      } else if row == 3 {
        addr := 0x40 + cols + col;
      }
      err := SetDDRAMAddr(addr);
    }
  }
}

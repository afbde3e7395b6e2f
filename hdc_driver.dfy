/**
 * `hdc.Driver`: queues instruction and data nibbles in a 168-byte buffer
 * through the fill index `n` and hands the buffer to the writer only when it
 * is full (or on an explicit `Flush`). The ghost fields record, since the
 * last `Reset`, every nibble queued and every flush call made.
 */
module HdcDriver {
  import opened Bytes
  import opened Sink
  import opened Frames
  import opened Instructions
  import opened Options

  /** `defaultBufLen`: room for 84 bytes as nibbles. */
  const BufLen: nat := 2 * 84

  /** Function Set flag of this driver for the 5x7 font (the same bit pattern as 5x8). */
  const Font5x7: byte := 0

  /** Function Set as `Driver.SetFunction` builds it: the flags are masked with 0x06. */
  function MaskedFunctionCmd(f: byte): (r: byte)
    ensures Instructions.Decode(r) == Some(FunctionSet)
    ensures Operand(r) == f & 0x06
  {
    0x20 | (f & 0x06)
  }

  /** The 0x06 mask drops the line-count bit: `TwoLines` never reaches the controller, `Font5x10` does. */
  lemma TwoLinesDropped(f: byte)
    ensures MaskedFunctionCmd(f | TwoLines) == MaskedFunctionCmd(f)
    ensures MaskedFunctionCmd(TwoLines) == 0x20 && MaskedFunctionCmd(Font5x10) == 0x24
  {
  }

  /** The nibbles `Reset` queues after the init nibbles: Function Set, Display Control, Entry Mode Set, Clear Display. */
  const ResetQueue: seq<byte> :=
    CmdNibbles(MaskedFunctionCmd(OneLine | Font5x7)) + CmdNibbles(DisplayCmd(DisplayOff | CursorOff | BlinkOff))
    + CmdNibbles(EntryModeCmd(IncrMode)) + CmdNibbles(ClearDisplayCmd)

  /** `Reset` queues the instructions 0x20, 0x08, 0x06 and 0x01. */
  lemma ResetQueueBytes()
    ensures ResetQueue == [2, 0, 0, 8, 0, 6, 0, 1]
  {
    assert MaskedFunctionCmd(OneLine | Font5x7) == 0x20;
    assert DisplayCmd(DisplayOff | CursorOff | BlinkOff) == 0x08;
    assert EntryModeCmd(IncrMode) == 0x06;
  }

  class Driver {
    const w: Writer
    const rows: int
    const cols: int
    /** The bit pattern OR'd into data nibbles (the RS line). */
    var rs: byte
    const buf: array<byte>
    /** Fill index: `buf[..n]` is queued and not yet handed to the writer. */
    var n: int
    /** Every nibble byte queued since the last `Reset`, in order. */
    ghost var appended: seq<byte>
    /** Every flush call made since the last `Reset`, in order. */
    ghost var flushes: seq<Call>

    /**
     * The buffer invariant: `n` is an even index into the 168-byte buffer,
     * and what the flushes handed over followed by `buf[..n]` is exactly what
     * was queued.
     */
    ghost predicate Valid()
      reads this, buf
    {
      && buf.Length == BufLen
      && (rows == 1 || rows == 2 || rows == 4)
      && 1 <= cols <= 40
      && 0 <= n <= buf.Length && n % 2 == 0
      && (forall i :: 0 <= i < |flushes| ==> flushes[i].Honest())
      && Sent(flushes) + buf[..n] == appended
    }

    /**
     * What `writeCmd` and `WriteByte` do with the two bytes `pair`: a full
     * buffer is flushed first, in one call; if that call fails the error is
     * returned and nothing is queued. Otherwise `pair` lands at `buf[n]`,
     * `buf[n + 1]`, `n` grows by 2 and no other cell changes. No call happens
     * unless the buffer was full.
     */
    twostate predicate Queued(pair: seq<byte>, err: bool)
      reads this, w, buf
    {
      && 0 <= n <= buf.Length && rs == old(rs)
      && (forall i :: n <= i < buf.Length ==> buf[i] == old(buf[i]))
      && if old(n) == buf.Length then
           && |w.log| == |old(w.log)| + 1
           && Wrote(w.log, old(w.log), [old(buf[..n])], err)
           && flushes == old(flushes) + [w.log[|old(w.log)|]]
           && if err then
                n == 0 && appended == old(appended)
              else
                buf[..n] == pair && appended == old(appended) + pair
         else
           && 0 <= old(n) <= n
           && !err && w.log == old(w.log) && flushes == old(flushes)
           && buf[..n] == old(buf[..n]) + pair && appended == old(appended) + pair
    }

    /** `NewDriver`: panics unless `rows` is 1, 2 or 4 and `cols` is 1 to 40. */
    constructor (w: Writer, rows: int, cols: int)
      requires rows == 1 || rows == 2 || rows == 4
      requires 1 <= cols <= 40
      ensures Valid()
      ensures this.w == w && this.rows == rows && this.cols == cols && rs == 0x40
      ensures n == 0 && appended == [] && flushes == [] && fresh(buf)
    {
      this.w := w;
      this.rows := rows;
      this.cols := cols;
      rs := 1 << 6;
      buf := new byte[BufLen];
      n := 0;
      appended := [];
      flushes := [];
    }

    /** Changes the bit used for RS. */
    method SetRS(rs: byte)
      requires Valid()
      modifies this
      ensures Valid()
      ensures this.rs == rs && n == old(n) && appended == old(appended) && flushes == old(flushes)
    {
      this.rs := rs;
    }

    /** Hands `buf[..n]` to the writer in one call and empties the buffer, even when the call fails. */
    method Flush() returns (err: bool)
      requires Valid()
      modifies this, w
      ensures Valid()
      ensures |w.log| == |old(w.log)| + 1 && Wrote(w.log, old(w.log), [old(buf[..n])], err)
      ensures flushes == old(flushes) + [w.log[|old(w.log)|]]
      ensures n == 0 && rs == old(rs) && appended == old(appended)
    {
      var k, e := w.Write(buf[..n]);
      ghost var c := Call(buf[..n], k, e);
      WroteCall(w.log, old(w.log), c, buf[..n]);
      SentSnoc(flushes, c);
      flushes := flushes + [c];
      n := 0;
      err := e;
    }

    /** The stores `writeCmd` and `WriteByte` both end with: `hi` and `lo` at `buf[n]` and `buf[n + 1]`, then `n += 2`. */
    method Put(hi: byte, lo: byte)
      requires Valid() && n + 2 <= buf.Length
      modifies this, buf
      ensures Valid()
      ensures n == old(n) + 2 && buf[..n] == old(buf[..n]) + [hi, lo] && appended == old(appended) + [hi, lo]
      ensures forall i :: n <= i < buf.Length ==> buf[i] == old(buf[i])
      ensures rs == old(rs) && flushes == old(flushes)
    {
      ghost var before := buf[..n];
      buf[n] := hi;
      buf[n + 1] := lo;
      n := n + 2;
      appended := appended + [hi, lo];
      assert buf[..n] == before + [hi, lo];
    }

    /** Queues the two nibbles of instruction `b`, high first. */
    method WriteCmd(b: byte) returns (err: bool)
      requires Valid()
      modifies this, w, buf
      ensures Valid() && Queued(CmdNibbles(b), err)
    {
      if n == buf.Length {
        err := Flush();
        if err {
          return;
        }
      }
      Put(b >> 4, b & 0x0f);
      err := false;
    }

    method ClearDisplay() returns (err: bool)
      requires Valid()
      modifies this, w, buf
      ensures Valid() && Queued(CmdNibbles(ClearDisplayCmd), err)
    {
      err := WriteCmd(ClearDisplayCmd);
    }

    method ReturnHome() returns (err: bool)
      requires Valid()
      modifies this, w, buf
      ensures Valid() && Queued(CmdNibbles(ReturnHomeCmd), err)
    {
      err := WriteCmd(ReturnHomeCmd);
    }

    method SetEntryMode(f: byte) returns (err: bool)
      requires Valid()
      modifies this, w, buf
      ensures Valid() && Queued(CmdNibbles(EntryModeCmd(f)), err)
    {
      err := WriteCmd(EntryModeCmd(f));
    }

    method SetDisplay(f: byte) returns (err: bool)
      requires Valid()
      modifies this, w, buf
      ensures Valid() && Queued(CmdNibbles(DisplayCmd(f)), err)
    {
      err := WriteCmd(DisplayCmd(f));
    }

    method Shift(f: byte) returns (err: bool)
      requires Valid()
      modifies this, w, buf
      ensures Valid() && Queued(CmdNibbles(ShiftCmd(f)), err)
    {
      err := WriteCmd(ShiftCmd(f));
    }

    method SetFunction(f: byte) returns (err: bool)
      requires Valid()
      modifies this, w, buf
      ensures Valid() && Queued(CmdNibbles(MaskedFunctionCmd(f)), err)
    {
      err := WriteCmd(MaskedFunctionCmd(f));
    }

    method SetCGRAMAddr(addr: int) returns (err: bool)
      requires Valid()
      modifies this, w, buf
      ensures Valid() && Queued(CmdNibbles(CGRAMAddrCmd(addr)), err)
    {
      err := WriteCmd(CGRAMAddrCmd(addr));
    }

    method SetDDRAMAddr(addr: int) returns (err: bool)
      requires Valid()
      modifies this, w, buf
      ensures Valid() && Queued(CmdNibbles(DDRAMAddrCmd(addr)), err)
    {
      err := WriteCmd(DDRAMAddrCmd(addr));
    }

    /**
     * Drops whatever was queued, writes the init nibbles in one call outside
     * the buffer and, if that succeeds, queues Function Set (one line, 5x7),
     * Display Control (all off), Entry Mode Set (increment) and Clear Display.
     * Queueing into the emptied buffer never flushes, so only the first call
     * can fail.
     */
    method Reset() returns (err: bool)
      requires Valid()
      modifies this, w, buf
      ensures Valid() && rs == old(rs) && flushes == []
      ensures Wrote(w.log, old(w.log), [Init4Bit], err)
      ensures err ==> n == 0 && appended == []
      ensures !err ==> n == |ResetQueue| && buf[..n] == appended == ResetQueue
    {
      n := 0;
      flushes := [];
      appended := [];
      var k, e := w.Write(Init4Bit);
      WroteCall(w.log, old(w.log), Call(Init4Bit, k, e), Init4Bit);
      if e {
        return true;
      }
      ghost var log1 := w.log;
      err := SetFunction(OneLine | Font5x7);
      assert !err;
      err := SetDisplay(DisplayOff | CursorOff | BlinkOff);
      assert !err;
      err := SetEntryMode(IncrMode);
      assert !err;
      err := ClearDisplay();
      assert [] + CmdNibbles(MaskedFunctionCmd(OneLine | Font5x7)) == CmdNibbles(MaskedFunctionCmd(OneLine | Font5x7));
      assert w.log == log1;
    }

    /** Queues one data byte as its two RS nibbles. */
    method WriteByte(b: byte) returns (err: bool)
      requires Valid()
      modifies this, w, buf
      ensures Valid() && Queued(DataNibbles(rs, b), err)
    {
      if n == buf.Length {
        err := Flush();
        if err {
          return;
        }
      }
      var pair := DataNibbles(rs, b);
      Put(pair[0], pair[1]);
      err := false;
    }
  }

  /**
   * Nothing queued is lost while the writer never fails: what it took,
   * followed by what is still buffered, is everything queued, in order.
   */
  lemma NothingLost(d: Driver)
    requires d.Valid()
    requires forall i :: 0 <= i < |d.flushes| ==> !d.flushes[i].failed
    ensures Delivered(d.flushes) + d.buf[..d.n] == d.appended
  {
    DeliveredAll(d.flushes);
  }
}

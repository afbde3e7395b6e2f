/**
 * `hd44780.Driver`: the same nibble buffer as `hdc.Driver`, 162 bytes long,
 * with only `writeCmd`, `WriteByte`, `Flush` and a `Reset` that sends the
 * init nibbles. The ghost fields record, since the last `Reset`, every nibble
 * queued and every flush call made.
 */
module Hd44780Driver {
  import opened Bytes
  import opened Sink
  import opened Frames
  import opened Instructions

  /** Room for 81 bytes as nibbles: one instruction and a whole 80-character display. */
  const BufLen: nat := 2 * 81

  /** The row test of `NewDriver` as written: `||` joins the three inequalities. */
  predicate RowsRejectedAsWritten(rows: int)
  {
    rows != 1 || rows != 2 || rows != 4
  }

  /** As written the test rejects every row count, so `NewDriver` always panics. */
  lemma NewDriverAlwaysPanics(rows: int)
    ensures RowsRejectedAsWritten(rows)
  {
  }

  /** The row test as documented ("rows can be 1, 2 or 4"), as `hdc.NewDriver` writes it. */
  predicate RowsRejected(rows: int)
  {
    rows != 1 && rows != 2 && rows != 4
  }

  lemma RowsAccepted(rows: int)
    ensures !RowsRejected(rows) <==> rows == 1 || rows == 2 || rows == 4
    ensures !RowsRejected(2) && RowsRejected(3)
  {
  }

  class Driver {
    const w: Writer
    const rows: int
    const cols: int
    /** The bit pattern OR'd into data nibbles (the RS line). */
    var rs: byte
    const buf: array<byte>
    /** Fill index: `buf[..n]` is queued and not yet handed to the writer. */
    var n: int
    /** Every nibble byte queued since the last `Reset`, in order. */
    ghost var appended: seq<byte>
    /** Every flush call made since the last `Reset`, in order. */
    ghost var flushes: seq<Call>

    /**
     * The buffer invariant: `n` is an even index into the 162-byte buffer,
     * and what the flushes handed over followed by `buf[..n]` is exactly what
     * was queued.
     */
    ghost predicate Valid()
      reads this, buf
    {
      && buf.Length == BufLen
      && (rows == 1 || rows == 2 || rows == 4)
      && 1 <= cols <= 40
      && 0 <= n <= buf.Length && n % 2 == 0
      && (forall i :: 0 <= i < |flushes| ==> flushes[i].Honest())
      && Sent(flushes) + buf[..n] == appended
    }

    /**
     * What `writeCmd` and `WriteByte` do with the two bytes `pair`: a full
     * buffer is flushed first, in one call; if that call fails the error is
     * returned and nothing is queued. Otherwise `pair` lands at `buf[n]`,
     * `buf[n + 1]`, `n` grows by 2 and no other cell changes. No call happens
     * unless the buffer was full.
     */
    twostate predicate Queued(pair: seq<byte>, err: bool)
      reads this, w, buf
    {
      && 0 <= n <= buf.Length && rs == old(rs)
      && (forall i :: n <= i < buf.Length ==> buf[i] == old(buf[i]))
      && if old(n) == buf.Length then
           && |w.log| == |old(w.log)| + 1
           && Wrote(w.log, old(w.log), [old(buf[..n])], err)
           && flushes == old(flushes) + [w.log[|old(w.log)|]]
           && if err then
                n == 0 && appended == old(appended)
              else
                buf[..n] == pair && appended == old(appended) + pair
         else
           && 0 <= old(n) <= n
           && !err && w.log == old(w.log) && flushes == old(flushes)
           && buf[..n] == old(buf[..n]) + pair && appended == old(appended) + pair
    }

    /** `NewDriver` with its row test corrected (`RowsRejected`); it panics unless `cols` is 1 to 40. */
    constructor (w: Writer, rows: int, cols: int)
      requires !RowsRejected(rows)
      requires 1 <= cols <= 40
      ensures Valid()
      ensures this.w == w && this.rows == rows && this.cols == cols && rs == 0x40
      ensures n == 0 && appended == [] && flushes == [] && fresh(buf)
    {
      this.w := w;
      this.rows := rows;
      this.cols := cols;
      rs := 1 << 6;
      buf := new byte[BufLen];
      n := 0;
      appended := [];
      flushes := [];
    }

    /** Changes the bit used for RS. */
    method SetRS(rs: byte)
      requires Valid()
      modifies this
      ensures Valid()
      ensures this.rs == rs && n == old(n) && appended == old(appended) && flushes == old(flushes)
    {
      this.rs := rs;
    }

    /** Hands `buf[..n]` to the writer in one call and empties the buffer, even when the call fails. */
    method Flush() returns (err: bool)
      requires Valid()
      modifies this, w
      ensures Valid()
      ensures |w.log| == |old(w.log)| + 1 && Wrote(w.log, old(w.log), [old(buf[..n])], err)
      ensures flushes == old(flushes) + [w.log[|old(w.log)|]]
      ensures n == 0 && rs == old(rs) && appended == old(appended)
    {
      var k, e := w.Write(buf[..n]);
      ghost var c := Call(buf[..n], k, e);
      WroteCall(w.log, old(w.log), c, buf[..n]);
      SentSnoc(flushes, c);
      flushes := flushes + [c];
      n := 0;
      err := e;
    }

    /** The stores `writeCmd` and `WriteByte` both end with: `hi` and `lo` at `buf[n]` and `buf[n + 1]`, then `n += 2`. */
    method Put(hi: byte, lo: byte)
      requires Valid() && n + 2 <= buf.Length
      modifies this, buf
      ensures Valid()
      ensures n == old(n) + 2 && buf[..n] == old(buf[..n]) + [hi, lo] && appended == old(appended) + [hi, lo]
      ensures forall i :: n <= i < buf.Length ==> buf[i] == old(buf[i])
      ensures rs == old(rs) && flushes == old(flushes)
    {
      ghost var before := buf[..n];
      buf[n] := hi;
      buf[n + 1] := lo;
      n := n + 2;
      appended := appended + [hi, lo];
      assert buf[..n] == before + [hi, lo];
    }

    /** Drops whatever was queued and writes the init nibbles in one call, outside the buffer. */
    method Reset() returns (err: bool)
      requires Valid()
      modifies this, w
      ensures Valid() && rs == old(rs)
      ensures n == 0 && appended == [] && flushes == []
      ensures Wrote(w.log, old(w.log), [Init4Bit], err)
    {
      n := 0;
      flushes := [];
      appended := [];
      var k, e := w.Write(Init4Bit);
      WroteCall(w.log, old(w.log), Call(Init4Bit, k, e), Init4Bit);
      err := e;
    }

    /** Queues the two nibbles of instruction `b`, high first. */
    method WriteCmd(b: byte) returns (err: bool)
      requires Valid()
      modifies this, w, buf
      ensures Valid() && Queued(CmdNibbles(b), err)
    {
      if n == buf.Length {
        err := Flush();
        if err {
          return;
        }
      }
      Put(b >> 4, b & 0x0f);
      err := false;
    }

    /** Queues one data byte as its two RS nibbles. */
    method WriteByte(b: byte) returns (err: bool)
      requires Valid()
      modifies this, w, buf
      ensures Valid() && Queued(DataNibbles(rs, b), err)
    {
      if n == buf.Length {
        err := Flush();
        if err {
          return;
        }
      }
      var pair := DataNibbles(rs, b);
      Put(pair[0], pair[1]);
      err := false;
    }
  }

  /**
   * Nothing queued is lost while the writer never fails: what it took,
   * followed by what is still buffered, is everything queued, in order.
   */
  lemma NothingLost(d: Driver)
    requires d.Valid()
    requires forall i :: 0 <= i < |d.flushes| ==> !d.flushes[i].failed
    ensures Delivered(d.flushes) + d.buf[..d.n] == d.appended
  {
    DeliveredAll(d.flushes);
  }
}

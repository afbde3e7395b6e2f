/**
 * `hdc.BitbangOut`: a second bit-bang encoder. `WriteC` clocks each byte as
 * a four-byte frame (E low, high, high, low) batched through `buf`; `Write`
 * makes two one-byte calls per input byte, E high and then E low. The aux
 * bits `a` ride along on every byte.
 */
module HdcBitbangOut {
  import opened Bytes
  import opened Sink
  import opened Frames
  import opened Chunked

  /** One byte as `Write` clocks it: with E raised, then with E dropped; aux bits on both. */
  function Strobe(a: byte, e: byte, b: byte): (r: seq<byte>)
    ensures |r| == 2
  {
    [b | a | e, b | a]
  }

  /** The calls of `Write`: two one-byte calls per input byte, the bytes of its `Strobe` in order. */
  function Strobes(a: byte, e: byte, data: seq<byte>): (r: seq<seq<byte>>)
    ensures |r| == 2 * |data|
  {
    seq(2 * |data|, j requires 0 <= j < 2 * |data| => [Strobe(a, e, data[j / 2])[j % 2]])
  }

  /** Call `2i` of `Write` carries byte `i` with E raised, call `2i + 1` the same byte with E dropped. */
  lemma StrobesAt(a: byte, e: byte, data: seq<byte>, i: nat)
    requires i < |data|
    ensures Strobes(a, e, data)[2 * i] == [Strobe(a, e, data[i])[0]]
    ensures Strobes(a, e, data)[2 * i + 1] == [Strobe(a, e, data[i])[1]]
  {
    assert (2 * i) / 2 == i && (2 * i) % 2 == 0;
    assert (2 * i + 1) / 2 == i && (2 * i + 1) % 2 == 1;
  }

  /**
   * As written the constructor leaves `buf` empty, so `WriteC`'s chunk
   * length is `0 / 4 == 0`: every round sends an empty call and consumes
   * nothing. On non-empty data no sequence of calls ends the loop without a
   * failure, so with a writer that never fails the loop never ends; and the
   * only way out, a failing call, returns a count of 0.
   */
  lemma {:induction false} EmptyBufferStalls(a: byte, e: byte, data: seq<byte>, calls: seq<Call>, n: int)
    requires data != []
    ensures !Run(EPulse4(a, e), 0, data, calls, n, false)
    ensures Run(EPulse4(a, e), 0, data, calls, n, true) ==> n == 0
    decreases |calls|
  {
    var f := EPulse4(a, e);
    if calls != [] && !calls[0].failed {
      assert Min(0, |data|) == 0 && data[0..] == data;
      EmptyBufferStalls(a, e, data, calls[1..], n - f.Whole(calls[0].accepted));
    }
  }

  class BitbangOut {
    const w: Writer
    /** Bit patterns of the E, R/W and AUX lines. */
    var e: byte
    var rw: byte
    var aux: byte
    /** Bits OR'd into every emitted byte; nothing in the type ever assigns them. */
    const a: byte
    const buf: array<byte>

    /** `NewBitbangOut` as written: E on bit 4, R/W on bit 5, AUX on bit 7, and no buffer at all. */
    constructor (w: Writer)
      ensures this.w == w && e == 0x10 && rw == 0x20 && aux == 0x80 && a == 0
      ensures buf.Length == 0 && fresh(buf)
    {
      this.w := w;
      e := 1 << 4;
      rw := 1 << 5;
      aux := 1 << 7;
      a := 0;
      buf := new byte[0];
    }

    /** `NewBitbangOut` with a buffer of `size` bytes, room for at least one frame. */
    constructor WithBuffer(w: Writer, size: nat)
      requires 4 <= size
      ensures this.w == w && e == 0x10 && rw == 0x20 && aux == 0x80 && a == 0
      ensures buf.Length == size && fresh(buf)
    {
      this.w := w;
      e := 1 << 4;
      rw := 1 << 5;
      aux := 1 << 7;
      a := 0;
      buf := new byte[size];
    }

    /** Changes the line mapping: `e`, `rw` and `aux`, nothing else. */
    method SetMapping(e: byte, rw: byte, aux: byte)
      modifies this
      ensures this.e == e && this.rw == rw && this.aux == aux
    {
      this.e := e;
      this.rw := rw;
      this.aux := aux;
    }

    /**
     * Writes `data` in chunks of at most `len(buf) / 4` bytes, one call per
     * chunk, adding the whole frames each call took to the count; stops at
     * the first failed call. Needs room for one frame unless `data` is empty
     * (`EmptyBufferStalls`).
     */
    method WriteC(data: seq<byte>) returns (n: int, err: bool)
      requires 4 <= buf.Length || data == []
      modifies w, buf
      ensures data == [] ==> n == 0 && !err && w.log == old(w.log)
      ensures Extends(w.log, old(w.log))
      ensures 4 <= buf.Length ==> Run(EPulse4(a, e), buf.Length / 4, data, w.log[|old(w.log)|..], n, err)
    {
      n := 0;
      if data == [] {
        return 0, false;
      }
      ghost var log0 := w.log;
      ghost var f := EPulse4(a, e);
      var blen := buf.Length / 4;
      ContinuesStart(f, blen, data);
      assert w.log[|log0|..] == [];
      var rest := data;
      while |rest| > 0
        invariant Extends(w.log, log0)
        invariant Continues(f, blen, data, w.log[|log0|..], rest)
        invariant n == |data| - |rest|
        decreases |rest|
      {
        var l := |rest|;
        if l > blen {
          l := blen;
        }
        assert l == Min(blen, |rest|);
        ghost var calls := w.log[|log0|..];
        var accepted, failed := WriteChunk(rest[..l]);
        ghost var c := Call(Encode(f, rest[..l]), accepted, failed);
        assert w.log[|log0|..] == calls + [c];
        n := n + accepted / 4;
        if failed {
          ContinuesFail(f, blen, data, calls, rest, c);
          return n, true;
        }
        ContinuesStep(f, blen, data, calls, rest, c);
        rest := rest[l..];
      }
      ContinuesFinish(f, blen, data, w.log[|log0|..]);
      return n, false;
    }

    /**
     * One round of the loop: the four-byte frames of `chunk` stored at the
     * front of the buffer, then handed to the writer in one call.
     */
    method WriteChunk(chunk: seq<byte>) returns (accepted: nat, failed: bool)
      requires 4 * |chunk| <= buf.Length
      modifies w, buf
      ensures w.log == old(w.log) + [Call(Encode(EPulse4(a, e), chunk), accepted, failed)]
      ensures Call(Encode(EPulse4(a, e), chunk), accepted, failed).Honest()
    {
      var f := EPulse4(a, e);
      var k := 0;
      var i := 0;
      while i < |chunk|
        invariant 0 <= i <= |chunk| && k == 4 * i
        invariant buf[..k] == Encode(f, chunk[..i])
        invariant w.log == old(w.log)
      {
        var fr := f.Frame(chunk[i]);
        Store4(buf, k, fr);
        EncodeSnoc(f, chunk, i);
        k := k + 4;
        i := i + 1;
      }
      assert chunk[..i] == chunk;
      accepted, failed := w.Write(buf[..k]);
    }

    /**
     * Clocks `data` out one byte at a time, two one-byte calls per byte.
     * Returns `len(data)`, or, when a call for the byte at index `i` fails,
     * `i - 1` (so -1 for the first byte).
     */
    method Write(data: seq<byte>) returns (r: int, err: bool)
      modifies w
      ensures Wrote(w.log, old(w.log), Strobes(a, e, data), err)
      ensures !err ==> r == |data|
      ensures err ==> r == (|w.log| - |old(w.log)| - 1) / 2 - 1
    {
      ghost var log0 := w.log;
      ghost var script := Strobes(a, e, data);
      assert script[..0] == [];
      assert w.log[|log0|..] == [];
      var buf := new byte[2];
      var i := 0;
      while i < |data|
        invariant 0 <= i <= |data| && |w.log| == |log0| + 2 * i
        invariant Wrote(w.log, log0, script[..2 * i], false)
      {
        StrobesAt(a, e, data, i);
        var failed := Clock(Strobe(a, e, data[i]), buf, log0, script, 2 * i);
        if failed {
          return i - 1, true;
        }
        i := i + 1;
      }
      assert script[..2 * i] == script;
      return |data|, false;
    }

    /**
     * The body of `Write`'s loop for one byte: its `Strobe` frame `fr` through
     * the two-byte `buf`, one byte per call, the second call only if the first
     * succeeded. The calls are entries `j` and `j + 1` of `script`.
     */
    method Clock(fr: seq<byte>, buf: array<byte>, ghost log0: seq<Call>, ghost script: seq<seq<byte>>, ghost j: nat)
      returns (err: bool)
      requires |fr| == 2 && buf.Length == 2 && |w.log| == |log0| + j && j + 1 < |script|
      requires Wrote(w.log, log0, script[..j], false)
      requires script[j] == [fr[0]] && script[j + 1] == [fr[1]]
      modifies w, buf
      ensures !err ==> |w.log| == |log0| + j + 2 && Wrote(w.log, log0, script[..j + 2], false)
      ensures err ==> (|w.log| == |log0| + j + 1 || |w.log| == |log0| + j + 2) && Wrote(w.log, log0, script, true)
    {
      Store2(buf, 0, fr);
      assert buf[..1] == [fr[0]] && buf[1..] == [fr[1]];
      ghost var log1 := w.log;
      var k1, e1 := w.Write(buf[..1]);
      Step(log0, log1, Call(buf[..1], k1, e1), script, j);
      if e1 {
        return true;
      }
      log1 := w.log;
      var k2, e2 := w.Write(buf[1..]);
      Step(log0, log1, Call(buf[1..], k2, e2), script, j + 1);
      return e2;
    }
  }
}

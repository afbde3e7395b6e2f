/**
 * `hdc.Bitbang`: clocks bytes out through a bit-bang writer (an FTDI chip,
 * say). Each byte is sent twice, first as is and then with E raised, so the
 * controller latches it on the E edge; the aux bits `a` ride along on both.
 * Frames are batched through a 320-byte buffer.
 */
module HdcBitbang {
  import opened Bytes
  import opened Sink
  import opened Frames
  import opened Chunked

  /** Bytes of the frame buffer: 160 input bytes as two-byte frames. */
  const BufLen: nat := 80 * 2 * 2

  class Bitbang {
    const w: Writer
    /** Bit patterns of the E, R/W and AUX lines. */
    var e: byte
    var rw: byte
    var aux: byte
    /** Bits OR'd into every emitted byte; nothing in the type ever assigns them. */
    const a: byte
    const buf: array<byte>

    predicate Valid()
    {
      buf.Length == BufLen
    }

    /** `NewBitbang`: E on bit 4, R/W on bit 5, AUX on bit 7, no aux bits set. */
    constructor (w: Writer)
      ensures Valid()
      ensures this.w == w && e == 0x10 && rw == 0x20 && aux == 0x80 && a == 0
      ensures fresh(buf)
    {
      this.w := w;
      e := 1 << 4;
      rw := 1 << 5;
      aux := 1 << 7;
      a := 0;
      buf := new byte[BufLen];
    }

    /** Changes the line mapping: `e`, `rw` and `aux`, nothing else. */
    method SetMapping(e: byte, rw: byte, aux: byte)
      modifies this
      ensures this.e == e && this.rw == rw && this.aux == aux
    {
      this.e := e;
      this.rw := rw;
      this.aux := aux;
    }

    /**
     * Writes `data` in chunks of at most 160 bytes, one call per chunk,
     * adding the whole frames each call took to the count; stops at the first
     * failed call.
     */
    method Write(data: seq<byte>) returns (n: int, err: bool)
      requires Valid()
      modifies w, buf
      ensures Extends(w.log, old(w.log))
      ensures Run(EPulse2(a, e), BufLen / 2, data, w.log[|old(w.log)|..], n, err)
    {
      ghost var log0 := w.log;
      ghost var f := EPulse2(a, e);
      n := 0;
      var blen := buf.Length / 2;
      ContinuesStart(f, blen, data);
      assert w.log[|log0|..] == [];
      var rest := data;
      while |rest| != 0
        invariant Extends(w.log, log0)
        invariant Continues(f, blen, data, w.log[|log0|..], rest)
        invariant n == |data| - |rest|
        decreases |rest|
      {
        var l := |rest|;
        if l > blen {
          l := blen;
        }
        assert l == Min(blen, |rest|);
        ghost var calls := w.log[|log0|..];
        var accepted, failed := WriteChunk(rest[..l]);
        ghost var c := Call(Encode(f, rest[..l]), accepted, failed);
        assert w.log[|log0|..] == calls + [c];
        n := n + accepted / 2;
        if failed {
          ContinuesFail(f, blen, data, calls, rest, c);
          return n, true;
        }
        ContinuesStep(f, blen, data, calls, rest, c);
        rest := rest[l..];
      }
      ContinuesFinish(f, blen, data, w.log[|log0|..]);
      return n, false;
    }

    /**
     * One round of the loop: the two-byte frames of `chunk` stored at the
     * front of the buffer, then handed to the writer in one call.
     */
    method WriteChunk(chunk: seq<byte>) returns (accepted: nat, failed: bool)
      requires Valid() && |chunk| <= buf.Length / 2
      modifies w, buf
      ensures w.log == old(w.log) + [Call(Encode(EPulse2(a, e), chunk), accepted, failed)]
      ensures Call(Encode(EPulse2(a, e), chunk), accepted, failed).Honest()
    {
      var f := EPulse2(a, e);
      var k := 0;
      var i := 0;
      while i < |chunk|
        invariant 0 <= i <= |chunk| && k == 2 * i
        invariant buf[..k] == Encode(f, chunk[..i])
        invariant w.log == old(w.log)
      {
        var fr := f.Frame(chunk[i]);
        Store2(buf, k, fr);
        EncodeSnoc(f, chunk, i);
        k := k + 2;
        i := i + 1;
      }
      assert chunk[..i] == chunk;
      accepted, failed := w.Write(buf[..k]);
    }
  }

  /** Byte `j` of the stream without aux bits: `data[j / 2]`, with E at odd `j`. */
  lemma StreamByteWithoutAux(e: byte, data: seq<byte>, j: nat)
    requires j < 2 * |data|
    ensures |Encode(EPulse2(0, e), data)| == 2 * |data|
    ensures Encode(EPulse2(0, e), data)[j] == if j % 2 == 0 then data[j / 2] else data[j / 2] | e
  {
    var i := j / 2;
    Pulse2Stream(0, e, data, i);
    var b := data[i];
    assert b | 0 == b;
    if j % 2 == 0 {
      assert j == 2 * i;
    } else {
      assert j == 2 * i + 1;
    }
  }

  /**
   * With the aux bits never set, every byte of the stream is an input byte
   * or that byte with E: byte `j` carries `data[j / 2]`, with E added
   * exactly at odd `j`.
   */
  lemma StreamWithoutAux(e: byte, data: seq<byte>)
    ensures |Encode(EPulse2(0, e), data)| == 2 * |data|
    ensures forall j :: 0 <= j < 2 * |data| ==>
      Encode(EPulse2(0, e), data)[j] == if j % 2 == 0 then data[j / 2] else data[j / 2] | e
  {
    var s := Encode(EPulse2(0, e), data);
    forall j | 0 <= j < 2 * |data|
      ensures s[j] == if j % 2 == 0 then data[j / 2] else data[j / 2] | e
    {
      StreamByteWithoutAux(e, data, j);
    }
  }
}

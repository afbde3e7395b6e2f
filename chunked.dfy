/**
 * The chunked write loop shared by `Device.Write`, `Bitbang.Write` and
 * `BitbangOut.WriteC`: the input is cut into chunks of at most `chunk`
 * bytes, every byte of a chunk is expanded into its frame in a fixed buffer,
 * the buffer goes to the writer in one call, and `k / width` whole input
 * bytes are counted for a call that accepted `k` bytes. The first failing
 * call ends the loop.
 */
module Chunked {
  import opened Bytes
  import opened Sink
  import opened Frames

  /**
   * `calls` is the sequence of writer calls the loop makes on `data`, and
   * `(n, failed)` is what it returns.
   */
  ghost predicate Run(f: Framing, chunk: nat, data: seq<byte>, calls: seq<Call>, n: int, failed: bool)
    decreases |calls|
  {
    if data == [] then
      calls == [] && n == 0 && !failed
    else
      var l := Min(chunk, |data|);
      && calls != []
      && calls[0].Honest()
      && calls[0].bytes == Encode(f, data[..l])
      && if calls[0].failed then
           |calls| == 1 && failed && n == f.Whole(calls[0].accepted)
         else
           Run(f, chunk, data[l..], calls[1..], n - f.Whole(calls[0].accepted), failed)
  }

  /**
   * Loop invariant of the implementations: `calls` began a run over `data`
   * and consumed all of it but the suffix `rest`, without a failure; any run
   * over `rest` completes it.
   */
  ghost predicate Continues(f: Framing, chunk: nat, data: seq<byte>, calls: seq<Call>, rest: seq<byte>)
    requires chunk > 0
  {
    && |rest| <= |data|
    && rest == data[|data| - |rest|..]
    && forall more, m, fl {:trigger Completes(f, chunk, rest, more, m, fl)} ::
         Completes(f, chunk, rest, more, m, fl) ==>
         Run(f, chunk, data, calls + more, |data| - |rest| + m, fl)
  }

  /** `Run` under another name, so that the invariant is used only where asked. */
  ghost predicate Completes(f: Framing, chunk: nat, rest: seq<byte>, more: seq<Call>, m: int, fl: bool)
    requires chunk > 0
  {
    Run(f, chunk, rest, more, m, fl)
  }

  lemma ContinuesStart(f: Framing, chunk: nat, data: seq<byte>)
    requires chunk > 0
    ensures Continues(f, chunk, data, [], data)
  {
    forall more, m, fl | Completes(f, chunk, data, more, m, fl)
      ensures Run(f, chunk, data, [] + more, |data| - |data| + m, fl)
    {
      assert [] + more == more;
    }
  }

  /** A call that takes the whole next chunk moves the loop on by one chunk. */
  lemma ContinuesStep(f: Framing, chunk: nat, data: seq<byte>, calls: seq<Call>, rest: seq<byte>, c: Call)
    requires chunk > 0
    requires Continues(f, chunk, data, calls, rest)
    requires rest != [] && c.Honest() && !c.failed
    requires c.bytes == Encode(f, rest[..Min(chunk, |rest|)])
    ensures Continues(f, chunk, data, calls + [c], rest[Min(chunk, |rest|)..])
  {
    var rest' := rest[Min(chunk, |rest|)..];
    assert rest' == data[|data| - |rest'|..];
    forall more, m, fl | Completes(f, chunk, rest', more, m, fl)
      ensures Run(f, chunk, data, calls + [c] + more, |data| - |rest'| + m, fl)
    {
      RunCons(f, chunk, rest, c, more, m, fl);
      ContinuesWith(f, chunk, data, calls, rest, c, more, m, fl);
    }
  }

  /** Instantiates the invariant for one full call followed by a run over what remains after it. */
  lemma ContinuesWith(f: Framing, chunk: nat, data: seq<byte>, calls: seq<Call>, rest: seq<byte>,
                      c: Call, more: seq<Call>, m: int, fl: bool)
    requires chunk > 0
    requires Continues(f, chunk, data, calls, rest)
    requires Run(f, chunk, rest, [c] + more, Min(chunk, |rest|) + m, fl)
    ensures Run(f, chunk, data, calls + [c] + more, |data| - |rest[Min(chunk, |rest|)..]| + m, fl)
  {
    assert Completes(f, chunk, rest, [c] + more, Min(chunk, |rest|) + m, fl);
    assert calls + [c] + more == calls + ([c] + more);
    assert |data| - |rest[Min(chunk, |rest|)..]| + m == |data| - |rest| + (Min(chunk, |rest|) + m);
  }

  /** One fully taken chunk in front of a run over the remaining input is a run. */
  lemma RunCons(f: Framing, chunk: nat, rest: seq<byte>, c: Call, more: seq<Call>, m: int, fl: bool)
    requires chunk > 0
    requires rest != [] && c.Honest() && !c.failed
    requires c.bytes == Encode(f, rest[..Min(chunk, |rest|)])
    requires Run(f, chunk, rest[Min(chunk, |rest|)..], more, m, fl)
    ensures Run(f, chunk, rest, [c] + more, Min(chunk, |rest|) + m, fl)
  {
    var l := Min(chunk, |rest|);
    ExactFrames(f, l);
    var all := [c] + more;
    assert all[0] == c && all[1..] == more;
  }

  /** A failing call on the next chunk ends the run, counting the whole frames it took. */
  lemma ContinuesFail(f: Framing, chunk: nat, data: seq<byte>, calls: seq<Call>, rest: seq<byte>, c: Call)
    requires chunk > 0
    requires Continues(f, chunk, data, calls, rest)
    requires rest != [] && c.Honest() && c.failed
    requires c.bytes == Encode(f, rest[..Min(chunk, |rest|)])
    ensures Run(f, chunk, data, calls + [c], |data| - |rest| + f.Whole(c.accepted), true)
  {
    assert Completes(f, chunk, rest, [c], f.Whole(c.accepted), true);
  }

  /** Nothing left: the run is complete and reports every input byte. */
  lemma ContinuesFinish(f: Framing, chunk: nat, data: seq<byte>, calls: seq<Call>)
    requires chunk > 0
    requires Continues(f, chunk, data, calls, [])
    ensures Run(f, chunk, data, calls, |data|, false)
  {
    assert Completes(f, chunk, [], [], 0, false);
    assert calls + [] == calls;
  }

  /** The count returned never exceeds the input, and is all of it when no call failed. */
  lemma {:induction false} RunCount(f: Framing, chunk: nat, data: seq<byte>, calls: seq<Call>, n: int, failed: bool)
    requires chunk > 0
    requires Run(f, chunk, data, calls, n, failed)
    ensures 0 <= n <= |data|
    ensures !failed ==> n == |data|
    ensures failed <==> calls != [] && calls[|calls| - 1].failed
    decreases |data|
  {
    if data != [] {
      var l := Min(chunk, |data|);
      var c := calls[0];
      if c.failed {
        FewerFrames(f, c.accepted, l);
      } else {
        ExactFrames(f, l);
        RunCount(f, chunk, data[l..], calls[1..], n - l, failed);
      }
    }
  }

  /**
   * Every call carries the frames of between one and `chunk` input bytes, and
   * no call follows a failed one: only the last call may fail.
   */
  lemma {:induction false} RunCallShape(f: Framing, chunk: nat, data: seq<byte>, calls: seq<Call>, n: int, failed: bool)
    requires chunk > 0
    requires Run(f, chunk, data, calls, n, failed)
    ensures forall i :: 0 <= i < |calls| ==> 0 < |calls[i].bytes| <= f.Span(chunk) && calls[i].bytes != []
    ensures forall i :: 0 <= i < |calls| - 1 ==> !calls[i].failed
    ensures data == [] <==> calls == []
    decreases |data|
  {
    if data != [] {
      var l := Min(chunk, |data|);
      SpanMono(f, 1, l);
      SpanMono(f, l, chunk);
      if !calls[0].failed {
        RunCallShape(f, chunk, data[l..], calls[1..], n - f.Whole(calls[0].accepted), failed);
        forall i | 0 < i < |calls|
          ensures 0 < |calls[i].bytes| <= f.Span(chunk)
        {
          assert calls[i] == calls[1..][i - 1];
        }
        forall i | 0 < i < |calls| - 1
          ensures !calls[i].failed
        {
          assert calls[i] == calls[1..][i - 1];
        }
      }
    }
  }

  /**
   * What was handed to the writer is a prefix of the encoded input, and all
   * of it when no call failed: frames go out in input order, each exactly once.
   */
  lemma {:induction false} RunSent(f: Framing, chunk: nat, data: seq<byte>, calls: seq<Call>, n: int, failed: bool)
    requires chunk > 0
    requires Run(f, chunk, data, calls, n, failed)
    ensures Prefix(Sent(calls), Encode(f, data))
    ensures !failed ==> Sent(calls) == Encode(f, data)
    decreases |data|
  {
    if data != [] {
      var l := Min(chunk, |data|);
      EncodeSplit(f, data, l, l);
      var c := calls[0];
      if !c.failed {
        RunSent(f, chunk, data[l..], calls[1..], n - f.Whole(c.accepted), failed);
        assert Sent(calls) == c.bytes + Sent(calls[1..]);
        PrefixCons(c.bytes, Sent(calls[1..]), Encode(f, data[l..]));
      } else {
        assert calls == [c];
        assert Sent(calls) == c.bytes + Sent([]);
        PrefixAppend(c.bytes, Encode(f, data[l..]));
      }
    }
  }

  /**
   * The count is exact: the writer took precisely the frames of the first `n`
   * input bytes, plus less than one frame of the next. Resubmitting `data[n..]`
   * therefore neither repeats nor skips a whole frame.
   */
  lemma {:induction false} RunDelivered(f: Framing, chunk: nat, data: seq<byte>, calls: seq<Call>, n: int, failed: bool)
    requires chunk > 0
    requires Run(f, chunk, data, calls, n, failed)
    ensures 0 <= n <= |data|
    ensures Prefix(Encode(f, data[..n]), Delivered(calls))
    ensures Prefix(Delivered(calls), Encode(f, data))
    ensures |Delivered(calls)| < f.Span(n + 1)
    ensures !failed ==> Delivered(calls) == Encode(f, data)
    decreases |data|
  {
    if data == [] {
      assert data[..n] == [];
    } else {
      var l := Min(chunk, |data|);
      var c := calls[0];
      if c.failed {
        DeliveredLast(f, chunk, data, calls, n, failed);
      } else {
        ExactFrames(f, l);
        RunDelivered(f, chunk, data[l..], calls[1..], n - l, failed);
        DeliveredNext(f, data, l, calls, n, failed);
      }
    }
  }

  /** Gluing a fully taken chunk in front of what the rest of the run delivered. */
  lemma DeliveredCons(f: Framing, data: seq<byte>, l: nat, n: nat, head: seq<byte>, tail: seq<byte>)
    requires l <= n <= |data|
    requires head == Encode(f, data[..l])
    requires Prefix(Encode(f, data[l..][..n - l]), tail) && Prefix(tail, Encode(f, data[l..]))
    requires |tail| < f.Span(n - l + 1)
    ensures Prefix(Encode(f, data[..n]), head + tail) && Prefix(head + tail, Encode(f, data))
    ensures |head + tail| < f.Span(n + 1)
    ensures tail == Encode(f, data[l..]) ==> head + tail == Encode(f, data)
  {
    SpanSum(f, l, n - l + 1);
    DeliveredAfterChunk(f, data, l, n, head, tail);
  }

  /** A first call that took the whole chunk `data[..l]`, given the facts for the rest of the run. */
  lemma DeliveredNext(f: Framing, data: seq<byte>, l: nat, calls: seq<Call>, n: int, failed: bool)
    requires l <= n <= |data|
    requires calls != [] && calls[0].Honest() && !calls[0].failed
    requires calls[0].bytes == Encode(f, data[..l])
    requires Prefix(Encode(f, data[l..][..n - l]), Delivered(calls[1..]))
    requires Prefix(Delivered(calls[1..]), Encode(f, data[l..]))
    requires |Delivered(calls[1..])| < f.Span(n - l + 1)
    requires !failed ==> Delivered(calls[1..]) == Encode(f, data[l..])
    ensures Prefix(Encode(f, data[..n]), Delivered(calls))
    ensures Prefix(Delivered(calls), Encode(f, data))
    ensures |Delivered(calls)| < f.Span(n + 1)
    ensures !failed ==> Delivered(calls) == Encode(f, data)
  {
    DeliveredFirst(calls);
    DeliveredCons(f, data, l, n, calls[0].bytes, Delivered(calls[1..]));
  }

  /** A run whose first call fails. */
  lemma DeliveredLast(f: Framing, chunk: nat, data: seq<byte>, calls: seq<Call>, n: int, failed: bool)
    requires chunk > 0
    requires Run(f, chunk, data, calls, n, failed)
    requires data != [] && calls[0].failed
    ensures 0 <= n <= |data|
    ensures Prefix(Encode(f, data[..n]), Delivered(calls))
    ensures Prefix(Delivered(calls), Encode(f, data))
    ensures |Delivered(calls)| < f.Span(n + 1)
    ensures failed
  {
    var c := calls[0];
    assert calls == [c];
    DeliveredOnFailure(f, data, Min(chunk, |data|), c);
  }

  /** A failed call on the chunk `data[..l]` took the frames of `accepted / width` whole bytes. */
  lemma DeliveredOnFailure(f: Framing, data: seq<byte>, l: nat, c: Call)
    requires l <= |data|
    requires c.Honest() && c.bytes == Encode(f, data[..l])
    ensures var q := f.Whole(c.accepted);
      && q <= l
      && Prefix(Encode(f, data[..q]), Delivered([c]))
      && Prefix(Delivered([c]), Encode(f, data))
      && |Delivered([c])| < f.Span(q + 1)
  {
    var q := f.Whole(c.accepted);
    assert Delivered([c]) == c.bytes[..c.accepted];
    WholeFrames(f, c.accepted);
    FewerFrames(f, c.accepted, l);
    EncodePrefix(f, data, l);
    EncodePrefix(f, data[..l], q);
    assert data[..l][..q] == data[..q];
    assert Encode(f, data[..q]) == c.bytes[..f.Span(q)];
  }

  /** Prefix bounds survive putting one chunk's frames in front. */
  lemma DeliveredAfterChunk(f: Framing, data: seq<byte>, l: nat, n: nat, head: seq<byte>, tail: seq<byte>)
    requires l <= n <= |data|
    requires head == Encode(f, data[..l])
    requires Prefix(Encode(f, data[l..][..n - l]), tail) && Prefix(tail, Encode(f, data[l..]))
    ensures Prefix(Encode(f, data[..n]), head + tail) && Prefix(head + tail, Encode(f, data))
  {
    EncodeSplit(f, data, l, n);
    PrefixCons(head, Encode(f, data[l..][..n - l]), tail);
    PrefixCons(head, tail, Encode(f, data[l..]));
  }

  lemma EncodeSplit(f: Framing, data: seq<byte>, l: nat, n: nat)
    requires l <= n <= |data|
    ensures Encode(f, data[..n]) == Encode(f, data[..l]) + Encode(f, data[l..][..n - l])
    ensures Encode(f, data) == Encode(f, data[..l]) + Encode(f, data[l..])
  {
    assert data[..n] == data[..l] + data[l..][..n - l];
    EncodeAppend(f, data[..l], data[l..][..n - l]);
    assert data == data[..l] + data[l..];
    EncodeAppend(f, data[..l], data[l..]);
  }
}

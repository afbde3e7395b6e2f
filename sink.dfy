/**
 * The `io.Writer` every encoder of the driver writes to, as an abstract sink.
 * Each call is recorded in a ghost log together with the number of bytes the
 * writer accepted and whether it returned an error; both are chosen by the
 * writer, within what the `io.Writer` contract allows.
 */
module Sink {
  import opened Bytes

  /** One call `w.Write(bytes)`, answered with `(accepted, err)`; `failed` is `err != nil`. */
  datatype Call = Call(bytes: seq<byte>, accepted: nat, failed: bool)
  {
    /** The `io.Writer` contract: never more than was offered, and an error whenever less was taken. */
    predicate Honest()
    {
      accepted <= |bytes| && (!failed ==> accepted == |bytes|)
    }

    /** The prefix of `bytes` the writer took. */
    function Taken(): seq<byte>
    {
      if accepted <= |bytes| then bytes[..accepted] else bytes
    }
  }

  /** Everything handed to the writer by `calls`, in order. */
  function Sent(calls: seq<Call>): seq<byte>
  {
    if calls == [] then [] else calls[0].bytes + Sent(calls[1..])
  }

  /** Everything the writer took from `calls`, in order. */
  function Delivered(calls: seq<Call>): seq<byte>
  {
    if calls == [] then [] else calls[0].Taken() + Delivered(calls[1..])
  }

  /** `a` is a prefix of `b`. */
  predicate Prefix(a: seq<byte>, b: seq<byte>)
  {
    |a| <= |b| && b[..|a|] == a
  }

  lemma PrefixAppend(a: seq<byte>, b: seq<byte>)
    ensures Prefix(a, a + b)
  {
    assert (a + b)[..|a|] == a;
  }

  lemma PrefixCons(h: seq<byte>, a: seq<byte>, b: seq<byte>)
    requires Prefix(a, b)
    ensures Prefix(h + a, h + b)
  {
    assert (h + b)[..|h + a|] == h + b[..|a|];
  }

  /** `log` continues `before`: calls are only ever appended. */
  ghost predicate Extends(log: seq<Call>, before: seq<Call>)
  {
    |before| <= |log| && log[..|before|] == before
  }

  /**
   * `calls` are the writes of `script`, made one per entry and in order,
   * stopping right after the first one that fails; `err` says whether one failed.
   */
  ghost predicate RanScript(calls: seq<Call>, script: seq<seq<byte>>, err: bool)
  {
    && |calls| <= |script|
    && (forall i :: 0 <= i < |calls| ==> calls[i].bytes == script[i] && calls[i].Honest())
    && (forall i :: 0 <= i < |calls| - 1 ==> !calls[i].failed)
    && if err then calls != [] && calls[|calls| - 1].failed
       else |calls| == |script| && forall i :: 0 <= i < |calls| ==> !calls[i].failed
  }

  /** Since `before`, the writer saw exactly the calls of `script`, as `RanScript` describes. */
  ghost predicate Wrote(log: seq<Call>, before: seq<Call>, script: seq<seq<byte>>, err: bool)
  {
    Extends(log, before) && RanScript(log[|before|..], script, err)
  }

  class Writer {
    /** Every call made on this writer so far. */
    ghost var log: seq<Call>

    constructor ()
      ensures log == []
    {
      log := [];
    }

    /** `Write(p)`: the writer accepts some prefix of `p`, and reports an error when it is not all of `p`. */
    method Write(p: seq<byte>) returns (k: nat, err: bool)
      modifies this
      ensures Call(p, k, err).Honest()
      ensures log == old(log) + [Call(p, k, err)]
    {
      k :| k <= |p|;
      err :| k < |p| ==> err;
      log := log + [Call(p, k, err)];
    }
  }

  /** A script run so far without failure extends by one honest call for its next entry. */
  lemma {:induction false} ScriptStep(calls: seq<Call>, script: seq<seq<byte>>, c: Call)
    requires |calls| < |script|
    requires RanScript(calls, script[..|calls|], false)
    requires c.Honest() && c.bytes == script[|calls|]
    ensures RanScript(calls + [c], script[..|calls| + 1], c.failed)
    ensures c.failed ==> RanScript(calls + [c], script, true)
  {
    var j := |calls|;
    var next := calls + [c];
    forall i | 0 <= i < |next|
      ensures next[i].bytes == script[..j + 1][i] && next[i].Honest()
    {
      if i < j {
        assert next[i] == calls[i];
        assert script[..j][i] == script[i] == script[..j + 1][i];
      }
    }
    forall i | 0 <= i < |next|
      ensures next[i].bytes == script[i]
    {
      if i < j {
        assert script[..j][i] == script[i];
      }
    }
  }

  /** One honest call carrying `bytes` runs the one-entry script `[bytes]`. */
  lemma WroteCall(log: seq<Call>, before: seq<Call>, c: Call, bytes: seq<byte>)
    requires log == before + [c] && c.Honest() && c.bytes == bytes
    ensures Wrote(log, before, [bytes], c.failed)
  {
    assert log[|before|..] == [c];
  }

  /** A one-entry script is exactly one call. */
  lemma WroteOne(log: seq<Call>, before: seq<Call>, bytes: seq<byte>, err: bool)
    requires Wrote(log, before, [bytes], err)
    ensures |log| == |before| + 1 && log == before + [log[|before|]]
    ensures log[|before|].bytes == bytes && log[|before|].Honest() && log[|before|].failed == err
  {
    assert log[|before|..][0] == log[|before|];
  }

  /**
   * Running the next entry of a script after the first `i` ran without
   * failure: the first `i + 1` entries ran, and if this call failed the whole
   * script ended there.
   */
  lemma Continue(log0: seq<Call>, log1: seq<Call>, log2: seq<Call>, script: seq<seq<byte>>, i: nat, err: bool)
    requires |log1| == |log0| + i && i < |script|
    requires Wrote(log1, log0, script[..i], false)
    requires Wrote(log2, log1, [script[i]], err)
    ensures |log2| == |log0| + i + 1
    ensures Wrote(log2, log0, script[..i + 1], err)
    ensures err ==> Wrote(log2, log0, script, true)
  {
    WroteOne(log2, log1, script[i], err);
    var c := log2[|log1|];
    assert log2[|log0|..] == log1[|log0|..] + [c];
    ScriptStep(log1[|log0|..], script, c);
  }

  /** `Continue` for a call made directly on the writer: one honest call carrying the next entry. */
  lemma Step(log0: seq<Call>, log1: seq<Call>, c: Call, script: seq<seq<byte>>, i: nat)
    requires |log1| == |log0| + i && i < |script|
    requires Wrote(log1, log0, script[..i], false)
    requires c.Honest() && c.bytes == script[i]
    ensures |log1 + [c]| == |log0| + i + 1
    ensures Wrote(log1 + [c], log0, script[..i + 1], c.failed)
    ensures c.failed ==> Wrote(log1 + [c], log0, script, true)
  {
    WroteCall(log1 + [c], log1, c, script[i]);
    Continue(log0, log1, log1 + [c], script, i, c.failed);
  }

  /** Appending a call appends its bytes to everything sent. */
  lemma {:induction false} SentSnoc(calls: seq<Call>, c: Call)
    ensures Sent(calls + [c]) == Sent(calls) + c.bytes
    decreases |calls|
  {
    if calls == [] {
      assert [] + [c] == [c];
      assert [c][1..] == [];
    } else {
      assert (calls + [c])[1..] == calls[1..] + [c];
      SentSnoc(calls[1..], c);
    }
  }

  /** A first call that took everything delivered all of its bytes. */
  lemma DeliveredFirst(calls: seq<Call>)
    requires calls != [] && calls[0].Honest() && !calls[0].failed
    ensures Delivered(calls) == calls[0].bytes + Delivered(calls[1..])
  {
    assert calls[0].Taken() == calls[0].bytes;
  }

  /** When every call was honest and none failed, the writer took everything it was handed. */
  lemma {:induction false} DeliveredAll(calls: seq<Call>)
    requires forall i :: 0 <= i < |calls| ==> calls[i].Honest() && !calls[i].failed
    ensures Delivered(calls) == Sent(calls)
    decreases |calls|
  {
    if calls != [] {
      DeliveredFirst(calls);
      DeliveredAll(calls[1..]);
    }
  }
}

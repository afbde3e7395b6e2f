/**
 * The bytes the encoders put on the wire for one input byte.
 *
 * The HD44780 is driven through its 4-bit interface: an 8-bit instruction or
 * character travels as two nibbles, high nibble first, each in the low four
 * bits of an output byte. The bitbang encoders then clock every such byte into
 * the controller by framing it with the E (enable) line.
 */
module Frames {
  import opened Bytes

  /** Instruction byte `b` as the two nibbles of the 4-bit interface (RS low). */
  function CmdNibbles(b: byte): (r: seq<byte>)
    ensures |r| == 2 && r[0] < 16 && r[1] < 16
    ensures r[0] * 16 + r[1] == b
  {
    [b >> 4, b & 0x0f]
  }

  /** Data byte `b` as two nibbles, each with the RS bit pattern `rs` OR'd in. */
  function DataNibbles(rs: byte, b: byte): (r: seq<byte>)
    ensures |r| == 2
  {
    [rs | (b >> 4), rs | (b & 0x0f)]
  }

  /** Recombines two bus bytes into the byte whose nibbles they carry, ignoring their high bits. */
  function Join(hi: byte, lo: byte): byte
  {
    (hi & 0x0f) * 16 + (lo & 0x0f)
  }

  /** When `rs` keeps out of the low nibble, masking it off and recombining gives the data byte back. */
  lemma DataNibblesRecombine(rs: byte, b: byte)
    requires rs & 0x0f == 0
    ensures Join(rs | (b >> 4), rs | (b & 0x0f)) == b
  {
  }

  /** Both nibbles of a data byte carry exactly the high bits of `rs`. */
  lemma DataNibblesHighBits(rs: byte, b: byte)
    ensures (rs | (b >> 4)) & 0xf0 == rs & 0xf0
    ensures (rs | (b & 0x0f)) & 0xf0 == rs & 0xf0
  {
  }

  /**
   * One byte clocked in by `Bitbang.Write`: the data lines with E low, then
   * with E high; the persistent aux bits `a` are OR'd into both.
   */
  function Pulse2(a: byte, e: byte, b: byte): (r: seq<byte>)
    ensures |r| == 2
  {
    [b | a, b | a | e]
  }

  /** One byte clocked in by `BitbangOut.WriteC`: E low, high, high, low. */
  function Pulse4(a: byte, e: byte, b: byte): (r: seq<byte>)
    ensures |r| == 4
  {
    [b | a, b | a | e, b | a | e, b | a]
  }

  /** Masking E and aux off the idle byte of a frame leaves the data bits. */
  lemma IdleCarriesData(a: byte, e: byte, b: byte)
    ensures (b | a) & !(a | e) == b & !(a | e)
  {
  }

  /** A data byte clear of the control bits survives the mask unchanged. */
  lemma CleanByteUnmasked(a: byte, e: byte, b: byte)
    requires b & (a | e) == 0
    ensures b & !(a | e) == b
  {
  }

  /** Stores a two-byte frame at `buf[k]`, `buf[k + 1]`: every other cell keeps its byte. */
  method Store2(buf: array<byte>, k: nat, fr: seq<byte>)
    requires |fr| == 2 && k + 2 <= buf.Length
    modifies buf
    ensures buf[..k + 2] == old(buf[..k]) + fr
    ensures buf[k + 2..] == old(buf[k + 2..])
  {
    ghost var before := buf[..k];
    buf[k] := fr[0];
    buf[k + 1] := fr[1];
    assert buf[..k] == before && buf[k..k + 2] == fr;
    assert buf[..k + 2] == buf[..k] + buf[k..k + 2];
  }

  /** Stores a four-byte frame at `buf[k]` to `buf[k + 3]`: every other cell keeps its byte. */
  method Store4(buf: array<byte>, k: nat, fr: seq<byte>)
    requires |fr| == 4 && k + 4 <= buf.Length
    modifies buf
    ensures buf[..k + 4] == old(buf[..k]) + fr
    ensures buf[k + 4..] == old(buf[k + 4..])
  {
    ghost var before := buf[..k];
    buf[k] := fr[0];
    buf[k + 1] := fr[1];
    buf[k + 2] := fr[2];
    buf[k + 3] := fr[3];
    assert buf[..k] == before && buf[k..k + 4] == fr;
    assert buf[..k + 4] == buf[..k] + buf[k..k + 4];
  }

  /** How an encoder turns each input byte into a fixed-size frame. */
  datatype Framing =
    | Nibbles(rs: byte)           // Device.Write: data byte -> two RS nibbles
    | EPulse2(a: byte, e: byte)   // Bitbang.Write
    | EPulse4(a: byte, e: byte)   // BitbangOut.WriteC
  {
    function Width(): nat
    {
      if EPulse4? then 4 else 2
    }

    /** Bytes taken by the frames of `n` input bytes, `Width() * n`. */
    function Span(n: int): int
    {
      if EPulse4? then 4 * n else 2 * n
    }

    /** Whole frames in `k` bytes, `k / Width()`. */
    function Whole(k: int): int
    {
      if EPulse4? then k / 4 else k / 2
    }

    function Frame(b: byte): (r: seq<byte>)
      ensures |r| == Width()
    {
      match this
      case Nibbles(rs) => DataNibbles(rs, b)
      case EPulse2(a, e) => Pulse2(a, e, b)
      case EPulse4(a, e) => Pulse4(a, e, b)
    }

    /** Recovers the input byte from one frame: recombines the nibbles, or masks off E and aux. */
    function Unframe(fr: seq<byte>): byte
      requires |fr| == Width()
    {
      match this
      case Nibbles(_) => Join(fr[0], fr[1])
      case EPulse2(a, e) => fr[0] & !(a | e)
      case EPulse4(a, e) => fr[0] & !(a | e)
    }

    /** The inputs whose frames can be told apart from the control bits. */
    predicate Clean(data: seq<byte>)
    {
      match this
      case Nibbles(rs) => rs & 0x0f == 0
      case EPulse2(a, e) => forall b | b in data :: b & (a | e) == 0
      case EPulse4(a, e) => forall b | b in data :: b & (a | e) == 0
    }
  }

  /** Frame arithmetic: `Span` and `Whole` are linear in each width. */
  lemma SpanSum(f: Framing, x: int, y: int)
    ensures f.Span(x) + f.Span(y) == f.Span(x + y)
  {
  }

  lemma SpanMono(f: Framing, x: int, y: int)
    requires x <= y
    ensures f.Span(x) <= f.Span(y)
  {
  }

  /** `k` accepted bytes hold `Whole(k)` whole frames and less than one more. */
  lemma WholeFrames(f: Framing, k: nat)
    ensures 0 <= f.Whole(k)
    ensures f.Span(f.Whole(k)) <= k < f.Span(f.Whole(k) + 1)
  {
  }

  lemma ExactFrames(f: Framing, l: nat)
    ensures f.Whole(f.Span(l)) == l
  {
  }

  /** At most `l` whole frames fit in at most `l` frames' worth of bytes. */
  lemma FewerFrames(f: Framing, k: nat, l: nat)
    requires k <= f.Span(l)
    ensures f.Whole(k) <= l
  {
  }

  /** The frames of all of `data`, in order. */
  function Encode(f: Framing, data: seq<byte>): (r: seq<byte>)
    ensures |r| == f.Span(|data|)
  {
    if data == [] then [] else f.Frame(data[0]) + Encode(f, data[1..])
  }

  /** Reads a byte stream back frame by frame (a trailing partial frame is dropped). */
  function Decode(f: Framing, s: seq<byte>): seq<byte>
    decreases |s|
  {
    if |s| < f.Width() || f.Width() == 0 then [] else [f.Unframe(s[..f.Width()])] + Decode(f, s[f.Width()..])
  }

  /** Encoding is a homomorphism: frames of a concatenation are the concatenated frames. */
  lemma {:induction false} EncodeAppend(f: Framing, x: seq<byte>, y: seq<byte>)
    ensures Encode(f, x + y) == Encode(f, x) + Encode(f, y)
  {
    if x != [] {
      assert (x + y)[1..] == x[1..] + y;
      EncodeAppend(f, x[1..], y);
    } else {
      assert x + y == y;
    }
  }

  /** The encoders' fill loops: one more input byte appends its frame. */
  lemma EncodeSnoc(f: Framing, data: seq<byte>, i: nat)
    requires i < |data|
    ensures Encode(f, data[..i + 1]) == Encode(f, data[..i]) + f.Frame(data[i])
  {
    assert data[..i + 1] == data[..i] + [data[i]];
    EncodeAppend(f, data[..i], [data[i]]);
    assert Encode(f, [data[i]]) == f.Frame(data[i]) + Encode(f, []);
  }

  /** Frames of a prefix are a prefix of the frames. */
  lemma EncodePrefix(f: Framing, data: seq<byte>, j: nat)
    requires j <= |data|
    ensures Encode(f, data[..j]) == Encode(f, data)[..f.Span(j)]
  {
    assert data == data[..j] + data[j..];
    EncodeAppend(f, data[..j], data[j..]);
  }

  /** The frame of input byte `i` occupies bytes `Span(i)` up to `Span(i + 1)` of the stream. */
  lemma EncodeAt(f: Framing, data: seq<byte>, i: nat)
    requires i < |data|
    ensures f.Span(i + 1) <= |Encode(f, data)|
    ensures Encode(f, data)[f.Span(i)..f.Span(i + 1)] == f.Frame(data[i])
  {
    EncodeSnoc(f, data, i);
    EncodePrefix(f, data, i + 1);
    var head := Encode(f, data[..i]);
    assert Encode(f, data)[..f.Span(i + 1)] == head + f.Frame(data[i]);
    assert Encode(f, data)[f.Span(i)..f.Span(i + 1)] == (head + f.Frame(data[i]))[|head|..];
  }

  /** The stream of `Bitbang.Write`: input byte `i` is sent idle (`data[i] | a`) at `2i`, then strobed with E at `2i + 1`. */
  lemma Pulse2Stream(a: byte, e: byte, data: seq<byte>, i: nat)
    requires i < |data|
    ensures 2 * i + 1 < |Encode(EPulse2(a, e), data)|
    ensures Encode(EPulse2(a, e), data)[2 * i] == data[i] | a
    ensures Encode(EPulse2(a, e), data)[2 * i + 1] == data[i] | a | e
  {
    var s := Encode(EPulse2(a, e), data);
    EncodeAt(EPulse2(a, e), data, i);
    assert s[2 * i] == s[2 * i..2 * i + 2][0] && s[2 * i + 1] == s[2 * i..2 * i + 2][1];
  }

  /**
   * The stream of `BitbangOut.WriteC`: input byte `i` is sent idle at `4i`,
   * strobed with E at `4i + 1` and `4i + 2`, and idle again at `4i + 3`.
   */
  lemma Pulse4Stream(a: byte, e: byte, data: seq<byte>, i: nat)
    requires i < |data|
    ensures 4 * i + 3 < |Encode(EPulse4(a, e), data)|
    ensures Encode(EPulse4(a, e), data)[4 * i] == Encode(EPulse4(a, e), data)[4 * i + 3] == data[i] | a
    ensures Encode(EPulse4(a, e), data)[4 * i + 1] == Encode(EPulse4(a, e), data)[4 * i + 2] == data[i] | a | e
  {
    var s := Encode(EPulse4(a, e), data);
    EncodeAt(EPulse4(a, e), data, i);
    var fr := s[4 * i..4 * i + 4];
    assert s[4 * i] == fr[0] && s[4 * i + 1] == fr[1] && s[4 * i + 2] == fr[2] && s[4 * i + 3] == fr[3];
  }

  /** A single frame can be read back when the input byte does not collide with the control bits. */
  lemma UnframeFrame(f: Framing, b: byte)
    requires f.Clean([b])
    ensures f.Unframe(f.Frame(b)) == b
  {
    if f.Nibbles? {
      UnframeNibbles(f.rs, b);
    } else if f.EPulse2? {
      assert b in [b];
      UnframePulse2(f.a, f.e, b);
    } else {
      assert b in [b];
      UnframePulse4(f.a, f.e, b);
    }
  }

  lemma UnframeNibbles(rs: byte, b: byte)
    requires rs & 0x0f == 0
    ensures Nibbles(rs).Unframe(Nibbles(rs).Frame(b)) == b
  {
    DataNibblesRecombine(rs, b);
  }

  lemma UnframePulse2(a: byte, e: byte, b: byte)
    requires b & (a | e) == 0
    ensures EPulse2(a, e).Unframe(EPulse2(a, e).Frame(b)) == b
  {
    UnmaskIdle(a, e, b);
  }

  lemma UnframePulse4(a: byte, e: byte, b: byte)
    requires b & (a | e) == 0
    ensures EPulse4(a, e).Unframe(EPulse4(a, e).Frame(b)) == b
  {
    UnmaskIdle(a, e, b);
  }

  lemma UnmaskIdle(a: byte, e: byte, b: byte)
    requires b & (a | e) == 0
    ensures (b | a) & !(a | e) == b
  {
    IdleCarriesData(a, e, b);
    CleanByteUnmasked(a, e, b);
  }

  /** Round trip: decoding the encoded stream gives back the input bytes. */
  lemma {:induction false} DecodeEncode(f: Framing, data: seq<byte>)
    requires f.Clean(data)
    ensures Decode(f, Encode(f, data)) == data
  {
    if data != [] {
      var s := Encode(f, data);
      var w := f.Width();
      assert s[..w] == f.Frame(data[0]);
      assert s[w..] == Encode(f, data[1..]);
      assert f.Clean([data[0]]) by {
        if !f.Nibbles? { assert data[0] in data; }
      }
      UnframeFrame(f, data[0]);
      assert f.Clean(data[1..]) by {
        if !f.Nibbles? {
          forall b | b in data[1..] ensures b in data { }
        }
      }
      DecodeEncode(f, data[1..]);
    }
  }
}

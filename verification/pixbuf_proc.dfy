/**
  The buffer pass of `apply_curves`: resolve the curve selector, then rewrite
  an interleaved RGB byte buffer in place, three channel bytes per step.
 */
module PixbufProc {
  import opened ToneCurves

  /** C `unsigned int`, the selector's type. */
  newtype u32 = x: int | 0 <= x < 0x1_0000_0000

  /** C `unsigned short`, the type of the width and height arguments. */
  newtype u16 = x: int | 0 <= x < 0x1_0000

  /** What a selector resolves to: leave the buffer alone, or apply a curve. */
  datatype Selection = NoOp | Apply(curve: Curve)

  /**
    The selector is reduced modulo 3; there is no out-of-range error, so
    every selector picks one of the three outcomes.
   */
  function Select(selector: u32): (s: Selection)
    ensures s == NoOp <==> selector % 3 == 0
    ensures s == Apply(Light) <==> selector % 3 == 1
    ensures s == Apply(Mid) <==> selector % 3 == 2
  {
    match selector % 3
    case 1 => Apply(Light)
    case 2 => Apply(Mid)
    case _ => NoOp
  }

  /** Selectors three apart resolve the same way: 3 acts like 0, 4 like 1. */
  lemma SelectPeriodic(selector: u32)
    requires selector as int + 3 < 0x1_0000_0000
    ensures Select(selector + 3) == Select(selector)
  {
  }

  /**
    Reference pass: the buffer as a run of whole 3-byte pixels, each channel
    byte mapped through the curve. The result is pointwise: every output
    byte is the curve applied to the input byte at the same index.
   */
  function MapBuffer(c: Curve, buf: seq<byte>): (r: seq<byte>)
    requires |buf| % 3 == 0
    ensures |r| == |buf|
    ensures forall i :: 0 <= i < |buf| ==> r[i] == MapByte(c, buf[i])
    decreases |buf|
  {
    if |buf| == 0 then []
    else [MapByte(c, buf[0]), MapByte(c, buf[1]), MapByte(c, buf[2])] + MapBuffer(c, buf[3..])
  }

  /** The reference pass is the only buffer that maps every byte in place. */
  lemma MapBufferUnique(c: Curve, buf: seq<byte>, out: seq<byte>)
    requires |buf| % 3 == 0 && |out| == |buf|
    requires forall i :: 0 <= i < |buf| ==> out[i] == MapByte(c, buf[i])
    ensures out == MapBuffer(c, buf)
  {
  }

  /** Pixels are mapped independently: the pass splits at any pixel boundary. */
  lemma {:induction false} MapBufferAppend(c: Curve, a: seq<byte>, b: seq<byte>)
    requires |a| % 3 == 0 && |b| % 3 == 0
    ensures MapBuffer(c, a + b) == MapBuffer(c, a) + MapBuffer(c, b)
    decreases |a|
  {
    if |a| == 0 {
      assert a + b == b;
    } else {
      assert (a + b)[3..] == a[3..] + b;
      MapBufferAppend(c, a[3..], b);
    }
  }

  /**
    What the whole call leaves in the buffer, given its original bytes. A
    no-op selector returns before the loop, so any length is fine for it;
    a curve needs whole pixels.
   */
  function Transform(selector: u32, buf: seq<byte>): (r: seq<byte>)
    requires selector % 3 == 0 || |buf| % 3 == 0
    ensures |r| == |buf|
    ensures selector % 3 == 0 ==> r == buf
    ensures selector % 3 != 0 ==>
      forall i :: 0 <= i < |buf| ==> r[i] == MapByte(Select(selector).curve, buf[i])
  {
    match Select(selector)
    case NoOp => buf
    case Apply(c) => MapBuffer(c, buf)
  }

  /** Selector 0 (mod 3) leaves the buffer byte-for-byte unchanged. */
  lemma TransformNoOp(selector: u32, buf: seq<byte>)
    requires selector % 3 == 0
    ensures Transform(selector, buf) == buf
  {
  }

  /**
    Each output byte depends only on the original byte at the same index:
    two buffers that agree at i give the same byte at i.
   */
  lemma TransformLocal(selector: u32, buf1: seq<byte>, buf2: seq<byte>, i: int)
    requires selector % 3 == 0 || |buf1| % 3 == 0
    requires |buf1| == |buf2|
    requires 0 <= i < |buf1| && buf1[i] == buf2[i]
    ensures |Transform(selector, buf1)| == |buf1|
    ensures Transform(selector, buf1)[i] == Transform(selector, buf2)[i]
  {
  }

  /** Every curve keeps the relative order of channel values. */
  lemma TransformMonotone(selector: u32, buf: seq<byte>, i: int, j: int)
    requires selector % 3 == 0 || |buf| % 3 == 0
    requires 0 <= i < |buf| && 0 <= j < |buf| && buf[i] <= buf[j]
    ensures |Transform(selector, buf)| == |buf|
    ensures Transform(selector, buf)[i] <= Transform(selector, buf)[j]
  {
    match Select(selector)
    case NoOp =>
    case Apply(c) => MapByteMonotone(c, buf[i], buf[j]);
  }

  /** A pixel at the curve-1 breakpoint, (170,170,170), becomes (20,20,20). */
  lemma TransformLightBreakpoint()
    ensures Transform(1, [170, 170, 170]) == [20, 20, 20]
  {
    MapByteControlPoints();
  }

  /** Curve 2 takes (0,255,120) to (0,255,20): both anchors and a breakpoint. */
  lemma TransformMidControlPoints()
    ensures Transform(2, [0, 255, 120]) == [0, 255, 20]
  {
    var pixel: seq<byte> := [0, 255, 120];
    MapByteControlPoints();
    assert pixel[3..] == [];
    assert MapBuffer(Mid, pixel) == [MapByte(Mid, 0), MapByte(Mid, 255), MapByte(Mid, 120)];
  }

  /** Selector 3 on a 4-byte buffer, not whole pixels, is a no-op. */
  lemma TransformNoOpPartialPixel()
    ensures Transform(3, [10, 20, 30, 40]) == [10, 20, 30, 40]
  {
  }

  /**
    The C loop on a value copy of the buffer. `written` records, in order, the
    index of every byte the loop stores to. Width and height are accepted and
    ignored, as in the C code.
   */
  method Curves(selector: u32, w: u16, h: u16, buf: seq<byte>) returns (out: seq<byte>, written: seq<int>)
    requires selector % 3 == 0 || |buf| % 3 == 0
    ensures out == Transform(selector, buf)
    ensures selector % 3 == 0 ==> out == buf && written == []
    ensures selector % 3 != 0 ==> |written| == |buf|
    ensures selector % 3 != 0 ==> forall k :: 0 <= k < |written| ==> written[k] == k
  {
    out, written := buf, [];
    var c: Curve;
    match Select(selector) {
      case NoOp => return;
      case Apply(c') => c := c';
    }
    var p := 0;
    while p < |out|
      invariant |out| == |buf|
      invariant 0 <= p <= |buf| && p % 3 == 0
      invariant forall i :: 0 <= i < p ==> out[i] == MapByte(c, buf[i])
      invariant forall i :: p <= i < |buf| ==> out[i] == buf[i]
      invariant |written| == p
      invariant forall k :: 0 <= k < p ==> written[k] == k
    {
      out := out[p := MapByte(c, out[p])];
      out := out[p + 1 := MapByte(c, out[p + 1])];
      out := out[p + 2 := MapByte(c, out[p + 2])];
      written := written + [p, p + 1, p + 2];
      p := p + 3;
    }
    MapBufferUnique(c, buf, out);
  }

  /**
    The C loop proper: rewrites the caller's buffer in place, three bytes per
    step while the index is below the end. Only the buffer is written, and
    its final contents are the reference pass of the original bytes.
   */
  method MapInPlace(c: Curve, buf: array<byte>)
    requires buf.Length % 3 == 0
    modifies buf
    ensures buf[..] == MapBuffer(c, old(buf[..]))
  {
    ghost var orig := buf[..];
    var p := 0;
    while p < buf.Length
      invariant 0 <= p <= buf.Length && p % 3 == 0
      invariant forall i :: 0 <= i < p ==> buf[i] == MapByte(c, orig[i])
      invariant forall i :: p <= i < buf.Length ==> buf[i] == orig[i]
    {
      buf[p] := MapByte(c, buf[p]);
      buf[p + 1] := MapByte(c, buf[p + 1]);
      buf[p + 2] := MapByte(c, buf[p + 2]);
      p := p + 3;
    }
    MapBufferUnique(c, orig, buf[..]);
  }

  /**
    The whole call on the caller's buffer: a no-op selector returns without
    touching it, any other runs the in-place loop with the selected curve.
   */
  method CurvesInPlace(selector: u32, w: u16, h: u16, buf: array<byte>)
    requires selector % 3 == 0 || buf.Length % 3 == 0
    modifies buf
    ensures buf[..] == Transform(selector, old(buf[..]))
  {
    match Select(selector) {
      case NoOp =>
      case Apply(c) => MapInPlace(c, buf);
    }
  }
}

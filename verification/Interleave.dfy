/** The decoder's output: planar samples interleaved into one reused buffer
    (inc/AudioEngine23/AudioEngine23.hpp, Decoder::getData). Buffers are counted in samples: a `Cell` is
    the block of bytes_per_sample bytes that one memcpy of the inner loop moves. */
module Interleave {
  import opened Adts
  import opened ModArithmetic
  import opened Pcm

  type Cell = Bytes

  /** One decoded frame: per channel a plane, possibly missing, or everything packed in the first. */
  datatype Decoded = Decoded(planar: bool, nbSamples: nat, planes: seq<Option<seq<Cell>>>)

  /** The position of sample i of channel 0. */
  function At(i: nat, channels: nat): nat {
    if i == 0 then 0 else At(i - 1, channels) + channels
  }

  lemma {:induction false} AtIsProduct(i: nat, channels: nat)
    ensures At(i, channels) == i * channels
  {
    if i == 0 {
    } else {
      AtIsProduct(i - 1, channels);
      assert (i - 1) * channels + channels == i * channels;
    }
  }

  lemma {:induction false} AtGrows(i: nat, n: nat, channels: nat)
    requires i < n
    ensures At(i, channels) + channels <= At(n, channels)
    decreases n
  {
    if i == n - 1 {
    } else {
      AtGrows(i, n - 1, channels);
    }
  }

  /** What the codec library guarantees about the planes it fills. */
  predicate Filled(d: Decoded, channels: nat) {
    if d.planar then
      && channels <= |d.planes|
      && forall c :: 0 <= c < channels && d.planes[c].Some? ==> |d.planes[c].value| >= d.nbSamples
    else
      |d.planes| > 0 && d.planes[0].Some? && |d.planes[0].value| >= At(d.nbSamples, channels)
  }

  /** Sample i of channel c, or for a missing plane what the buffer already holds in its place. */
  function Picked(d: Decoded, channels: nat, stale: seq<Cell>, i: nat, c: nat): Cell
    requires d.planar && Filled(d, channels) && i < d.nbSamples && c < channels && |stale| >= At(d.nbSamples, channels)
  {
    AtGrows(i, d.nbSamples, channels);
    match d.planes[c]
    case Some(plane) => plane[i]
    case None => stale[At(i, channels) + c]
  }

  /** Sample i of the first c channels. */
  function Row(d: Decoded, channels: nat, stale: seq<Cell>, i: nat, c: nat): (r: seq<Cell>)
    requires d.planar && Filled(d, channels) && i < d.nbSamples && c <= channels && |stale| >= At(d.nbSamples, channels)
    ensures |r| == c && forall j :: 0 <= j < c ==> r[j] == Picked(d, channels, stale, i, j)
  {
    if c == 0 then [] else Row(d, channels, stale, i, c - 1) + [Picked(d, channels, stale, i, c - 1)]
  }

  /** The packed form of the first n samples: L R L R ... */
  function Interleaved(d: Decoded, channels: nat, stale: seq<Cell>, n: nat): (r: seq<Cell>)
    requires d.planar && Filled(d, channels) && n <= d.nbSamples && |stale| >= At(d.nbSamples, channels)
    ensures |r| == At(n, channels)
  {
    if n == 0 then [] else Interleaved(d, channels, stale, n - 1) + Row(d, channels, stale, n - 1, channels)
  }

  /** One channel picked out of a packed buffer again. */
  function Plane(packed: seq<Cell>, channels: nat, c: nat, n: nat): (r: seq<Cell>)
    requires c < channels && |packed| >= At(n, channels)
    ensures |r| == n
  {
    if n == 0 then [] else Plane(packed, channels, c, n - 1) + [packed[At(n - 1, channels) + c]]
  }

  lemma {:induction false} PlaneOfPrefix(packed: seq<Cell>, more: seq<Cell>, channels: nat, c: nat, n: nat)
    requires c < channels && |packed| >= At(n, channels)
    ensures Plane(packed + more, channels, c, n) == Plane(packed, channels, c, n)
    decreases n
  {
    if n == 0 {
    } else {
      PlaneOfPrefix(packed, more, channels, c, n - 1);
    }
  }

  /** What should come out for a channel: the plane that was there or, in place of a missing one, the
      buffer's old samples. */
  function Expected(d: Decoded, channels: nat, stale: seq<Cell>, c: nat, n: nat): seq<Cell>
    requires d.planar && Filled(d, channels) && c < channels && n <= d.nbSamples && |stale| >= At(n, channels)
  {
    match d.planes[c]
    case Some(plane) => plane[..n]
    case None => Plane(stale, channels, c, n)
  }

  lemma ExpectedNext(d: Decoded, channels: nat, stale: seq<Cell>, c: nat, n: nat)
    requires d.planar && Filled(d, channels) && c < channels && 0 < n <= d.nbSamples &&
             |stale| >= At(d.nbSamples, channels)
    ensures At(n - 1, channels) <= At(n, channels) <= |stale|
    ensures Expected(d, channels, stale, c, n) ==
            Expected(d, channels, stale, c, n - 1) + [Picked(d, channels, stale, n - 1, c)]
  {
    AtGrows(n - 1, d.nbSamples, channels);
  }

  /** Round trip: interleaving loses nothing. */
  lemma {:induction false} PlanesSurvive(d: Decoded, channels: nat, stale: seq<Cell>, c: nat, n: nat)
    requires d.planar && Filled(d, channels) && c < channels && n <= d.nbSamples && |stale| >= At(d.nbSamples, channels)
    ensures |stale| >= At(n, channels)
    ensures Plane(Interleaved(d, channels, stale, n), channels, c, n) == Expected(d, channels, stale, c, n)
  {
    if n == 0 {
      assert At(0, channels) == 0;
      assert |Expected(d, channels, stale, c, 0)| == 0;
    } else {
      PlanesSurvive(d, channels, stale, c, n - 1);
      NextPlane(d, channels, stale, c, n);
    }
  }

  lemma NextPlane(d: Decoded, channels: nat, stale: seq<Cell>, c: nat, n: nat)
    requires d.planar && Filled(d, channels) && c < channels && 0 < n <= d.nbSamples &&
             |stale| >= At(d.nbSamples, channels)
    requires |stale| >= At(n - 1, channels)
    requires Plane(Interleaved(d, channels, stale, n - 1), channels, c, n - 1) == Expected(d, channels, stale, c, n - 1)
    ensures |stale| >= At(n, channels)
    ensures Plane(Interleaved(d, channels, stale, n), channels, c, n) == Expected(d, channels, stale, c, n)
  {
    var before, row := Interleaved(d, channels, stale, n - 1), Row(d, channels, stale, n - 1, channels);
    ExpectedNext(d, channels, stale, c, n);
    PlaneOfNextRow(before, row, channels, c, n);
    assert Interleaved(d, channels, stale, n) == before + row;
  }

  lemma PlaneOfNextRow(before: seq<Cell>, row: seq<Cell>, channels: nat, c: nat, n: nat)
    requires c < channels && n > 0 && |before| == At(n - 1, channels) && |row| == channels
    ensures Plane(before + row, channels, c, n) == Plane(before, channels, c, n - 1) + [row[c]]
  {
    PlaneOfPrefix(before, row, channels, c, n - 1);
  }

  lemma ChannelsWithin(i: nat, n: nat, channels: nat, c: nat)
    requires i < n && c < channels
    ensures i * channels + c < At(n, channels)
  {
    AtIsProduct(i, channels);
    AtGrows(i, n, channels);
  }

  /** Sample i of channel c stands at place i * channels + c. */
  lemma {:induction false} PackedAt(d: Decoded, channels: nat, stale: seq<Cell>, n: nat, i: nat, c: nat)
    requires d.planar && Filled(d, channels) && i < n <= d.nbSamples && c < channels
    requires |stale| >= At(d.nbSamples, channels)
    ensures i * channels + c < |Interleaved(d, channels, stale, n)| && i * channels + c < |stale|
    ensures Interleaved(d, channels, stale, n)[i * channels + c] ==
            match d.planes[c] case Some(plane) => plane[i] case None => stale[i * channels + c]
    decreases n
  {
    ChannelsWithin(i, n, channels, c);
    ChannelsWithin(i, d.nbSamples, channels, c);
    AtIsProduct(i, channels);
    if i < n - 1 {
      PackedAt(d, channels, stale, n - 1, i, c);
    }
  }

  /** vector::resize to one and a half times the need keeps the contents and adds zeros. */
  function Grown(buf: seq<Cell>, need: nat, zero: Cell): (r: seq<Cell>)
    ensures |r| >= need && |buf| <= |r| && r[..|buf|] == buf
    ensures |r| == (if |buf| < need then need * 3 / 2 else |buf|) && forall k :: |buf| <= k < |r| ==> r[k] == zero
  {
    if |buf| < need then buf + seq(need * 3 / 2 - |buf|, _ => zero) else buf
  }

  /** Counting the buffer in whole samples loses nothing: with `bytes` bytes the buffer is too small exactly
      if its whole samples are, and one and a half times the bytes hold one and a half times the samples. */
  lemma GrowthInBytes(bytes: nat, need: nat, width: nat)
    requires width > 0
    ensures bytes < need * width <==> bytes / width < need
    ensures need * width * 3 / 2 / width == need * 3 / 2
  {
    var samples, rest := bytes / width, bytes % width;
    assert bytes == samples * width + rest;
    var missing := need - samples;
    ProductSpread(missing, width);
    assert missing * width == need * width - samples * width;
    var q, r := need * 3 / 2, need * 3 % 2;
    TimesWidth(need, q, r, width);
    var spare := r * width / 2;
    assert spare < width;
    UniqueMod(q * width + spare, width, q, spare);
  }

  lemma TimesWidth(need: nat, q: nat, r: nat, width: nat)
    requires need * 3 == 2 * q + r
    ensures need * width * 3 / 2 == q * width + r * width / 2
  {
    assert need * width * 3 == (need * 3) * width;
    assert (2 * q + r) * width == 2 * (q * width) + r * width;
  }

  class Decoder {
    var outBuffer: array<Cell>

    constructor ()
      ensures fresh(outBuffer) && outBuffer.Length == 0
    {
      outBuffer := new Cell[0];
    }

    method Reserve(need: nat, zero: Cell)
      modifies this`outBuffer
      ensures outBuffer == old(outBuffer) || fresh(outBuffer)
      ensures outBuffer[..] == Grown(old(outBuffer[..]), need, zero)
      ensures outBuffer.Length == if old(outBuffer.Length) < need then need * 3 / 2 else old(outBuffer.Length)
      ensures forall k :: 0 <= k < old(outBuffer.Length) ==> outBuffer[k] == old(outBuffer[k])
      ensures forall k :: old(outBuffer.Length) <= k < outBuffer.Length ==> outBuffer[k] == zero
    {
      if outBuffer.Length < need {
        var was := outBuffer;
        outBuffer := new Cell[need * 3 / 2](i => zero);
        for i := 0 to was.Length
          invariant fresh(outBuffer) && outBuffer.Length == need * 3 / 2
          invariant outBuffer[..] == was[..i] + seq(need * 3 / 2 - i, _ => zero)
          invariant was[..] == old(was[..])
        {
          outBuffer[i] := was[i];
        }
      }
    }

    /** `received` is the frame the codec returned, if it returned one; the result is the size in bytes. */
    method GetData(received: Option<Decoded>, channels: nat, width: int) returns (r: Option<nat>)
      requires received.Some? && width >= 0 ==> Filled(received.value, channels)
      modifies this, outBuffer
      ensures r.None? <==> received.None? || width < 0
      ensures r.None? ==> outBuffer == old(outBuffer) && outBuffer[..] == old(outBuffer[..])
      ensures r.Some? ==>
                var d := received.value;
                var need := At(d.nbSamples, channels);
                var stale := Grown(old(outBuffer[..]), need, seq(width, _ => 0));
                && need <= outBuffer.Length && r.value == need * width
                && outBuffer[..need] ==
                  (if d.planar then Interleaved(d, channels, stale, d.nbSamples) else d.planes[0].value[..need])
                && outBuffer[need..] == stale[need..]
      ensures r.Some? ==> r.value == received.value.nbSamples * channels * width
    {
      if received.None? || width < 0 {
        return None;
      }
      var d := received.value;
      var need := d.nbSamples * channels;
      AtIsProduct(d.nbSamples, channels);
      Reserve(need, seq(width, _ => 0));
      if d.planar {
        Pack(d, channels, outBuffer);
      } else {
        CopyPacked(d.planes[0].value, need, outBuffer);
      }
      r := Some(need * width);
    }

    static method CopyPacked(src: seq<Cell>, need: nat, dst: array<Cell>)
      requires need <= |src| && need <= dst.Length
      modifies dst
      ensures dst[..need] == src[..need] && dst[need..] == old(dst[need..])
    {
      forall j | 0 <= j < need {
        dst[j] := src[j];
      }
    }

    /** The two copying loops. */
    static method Pack(d: Decoded, channels: nat, dst: array<Cell>)
      requires d.planar && Filled(d, channels) && At(d.nbSamples, channels) <= dst.Length
      modifies dst
      ensures dst[..At(d.nbSamples, channels)] == Interleaved(d, channels, old(dst[..]), d.nbSamples)
      ensures dst[At(d.nbSamples, channels)..] == old(dst[At(d.nbSamples, channels)..])
    {
      ghost var stale := dst[..];
      var copyPos := 0;
      for i := 0 to d.nbSamples
        invariant copyPos == At(i, channels) <= dst.Length
        invariant dst[..copyPos] == Interleaved(d, channels, stale, i)
        invariant dst[copyPos..] == stale[copyPos..]
      {
        AtGrows(i, d.nbSamples, channels);
        PackRow(d, channels, stale, i, dst, copyPos);
        assert Interleaved(d, channels, stale, i + 1) ==
               Interleaved(d, channels, stale, i) + Row(d, channels, stale, i, channels);
        copyPos := copyPos + channels;
      }
    }

    /** The inner loop: one sample of every channel. */
    static method PackRow(d: Decoded, channels: nat, ghost stale: seq<Cell>, i: nat, dst: array<Cell>, start: nat)
      requires d.planar && Filled(d, channels) && i < d.nbSamples && At(d.nbSamples, channels) <= dst.Length == |stale|
      requires start == At(i, channels) <= dst.Length && dst[start..] == stale[start..]
      modifies dst
      ensures start + channels <= dst.Length
      ensures dst[..start + channels] == old(dst[..start]) + Row(d, channels, stale, i, channels)
      ensures dst[start + channels..] == stale[start + channels..]
    {
      AtGrows(i, d.nbSamples, channels);
      var copyPos := start;
      for ch := 0 to channels
        invariant copyPos == start + ch
        invariant dst[..copyPos] == old(dst[..start]) + Row(d, channels, stale, i, ch)
        invariant dst[copyPos..] == stale[copyPos..]
      {
        assert dst[copyPos..][1..] == stale[copyPos..][1..];
        CopySample(d, channels, stale, i, ch, dst, copyPos);
        copyPos := copyPos + 1;
      }
    }

    static method CopySample(d: Decoded, channels: nat, ghost stale: seq<Cell>, i: nat, ch: nat, dst: array<Cell>,
      copyPos: nat)
      requires d.planar && Filled(d, channels) && i < d.nbSamples && ch < channels &&
               |stale| >= At(d.nbSamples, channels)
      requires copyPos == At(i, channels) + ch < dst.Length == |stale| && dst[copyPos] == stale[copyPos]
      modifies dst
      ensures dst[..copyPos + 1] == old(dst[..copyPos]) + [Picked(d, channels, stale, i, ch)]
      ensures dst[copyPos + 1..] == old(dst[copyPos + 1..])
    {
      if d.planes[ch].Some? {
        dst[copyPos] := d.planes[ch].value[i];
      }
    }
  }
}

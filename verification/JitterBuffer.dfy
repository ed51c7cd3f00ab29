/** The receive side of an audio channel: a bounded buffer of decoded samples that drops its older half
    when it grows too long (src/apc.cpp, class AudioPorcessChnl). */
module JitterBuffer {
  import opened Pcm

  /** `threshold` is the length beyond which the buffer is cut before the next frame is appended. */
  datatype Chnl = Chnl(buf: seq<Sample>, mic: int, needClear: bool, lastSsrc: nat, threshold: nat)

  function Threshold(sampleRate: nat, codecType: int): nat {
    if codecType == 1 then sampleRate / 50 * 6 else sampleRate / 50 * 20
  }

  function NewChnl(threshold: nat): Chnl {
    Chnl([], 0, false, 0, threshold)
  }

  /** `Packet` is one received packet with what the decoder made of it, `Idle` one turn of the receive
      loop while the microphone is closed, `Read` a request for a block of samples. */
  datatype Op =
    | Packet(ssrc: nat, decoded: Option<seq<Sample>>)
    | Idle
    | SetMic(val: int)
    | Read(length: nat)

  /** The buffer before a frame is appended. */
  function Cut(c: Chnl): seq<Sample> {
    if |c.buf| <= c.threshold then c.buf else if c.needClear then [] else c.buf[|c.buf| / 2..]
  }

  predicate Accepts(lastSsrc: nat, ssrc: nat, decoded: Option<seq<Sample>>) {
    (lastSsrc == 0 || lastSsrc == ssrc) && decoded.Some?
  }

  function Step(c: Chnl, op: Op): Chnl {
    match op
    case Packet(ssrc, decoded) =>
      if !Accepts(c.lastSsrc, ssrc, decoded) then c else
        c.(buf := Cut(c) + decoded.value,
           needClear := c.needClear && |c.buf| <= c.threshold,
           lastSsrc := if c.lastSsrc == 0 then ssrc else c.lastSsrc)
    case Idle => if c.mic == 0 then c.(buf := []) else c
    case SetMic(val) => c.(mic := val, needClear := true)
    case Read(length) => if |c.buf| < length then c else c.(buf := c.buf[length..])
  }

  /** What a read returns. */
  function Block(c: Chnl, length: nat): seq<Sample> {
    if |c.buf| < length then [] else c.buf[..length]
  }

  /* ---- runs ---- */

  function Run(c: Chnl, ops: seq<Op>): Chnl
    decreases |ops|
  {
    if ops == [] then c else Step(Run(c, ops[..|ops| - 1]), ops[|ops| - 1])
  }

  /** The first nonzero source that delivered a decodable packet; 0 if there is none. */
  function FirstSource(ops: seq<Op>): nat
    decreases |ops|
  {
    if ops == [] then 0 else
      var s := FirstSource(ops[..|ops| - 1]);
      var op := ops[|ops| - 1];
      if s == 0 && op.Packet? && op.decoded.Some? then op.ssrc else s
  }

  /** The packet comes from the source that `before` has fixed, if it has fixed one, and decodes. */
  predicate Heard(before: seq<Op>, op: Op) {
    op.Packet? && op.decoded.Some? && (FirstSource(before) == 0 || op.ssrc == FirstSource(before))
  }

  /** The decoded stream: the frames of that source, and of source 0 as long as no other was seen. */
  function Stream(ops: seq<Op>): seq<Sample>
    decreases |ops|
  {
    if ops == [] then [] else
      var before := ops[..|ops| - 1];
      var op := ops[|ops| - 1];
      Stream(before) +
      (if Heard(before, op) then op.decoded.value else [])
  }

  /** The blocks handed out by the reads that found enough samples, in order. */
  function Delivered(c: Chnl, ops: seq<Op>): seq<seq<Sample>>
    decreases |ops|
  {
    if ops == [] then [] else
      var before := ops[..|ops| - 1];
      var op := ops[|ops| - 1];
      Delivered(c, before) +
      HandedOut(Run(c, before), op)
  }

  function Total(blocks: seq<seq<Sample>>): nat
    decreases |blocks|
  {
    if blocks == [] then 0 else Total(blocks[..|blocks| - 1]) + |blocks[|blocks| - 1]|
  }

  /** The samples an operation throws away: by cutting, or by clearing while the microphone is closed. */
  function Lost(c: Chnl, op: Op): nat {
    match op
    case Packet(ssrc, decoded) => if Accepts(c.lastSsrc, ssrc, decoded) then |c.buf| - |Cut(c)| else 0
    case Idle => if c.mic == 0 then |c.buf| else 0
    case _ => 0
  }

  function Dropped(c: Chnl, ops: seq<Op>): nat
    decreases |ops|
  {
    if ops == [] then 0 else
      var before := ops[..|ops| - 1];
      Dropped(c, before) + Lost(Run(c, before), ops[|ops| - 1])
  }

  /** The blocks lie in the stream at the given places, in order, without overlap, before `end`. */
  ghost predicate LieIn(blocks: seq<seq<Sample>>, starts: seq<nat>, stream: seq<Sample>, end: int) {
    && |starts| == |blocks|
    && (forall i :: 0 <= i < |blocks| ==>
          starts[i] + |blocks[i]| <= |stream| && stream[starts[i]..starts[i] + |blocks[i]|] == blocks[i])
    && (forall i, j :: 0 <= i < j < |blocks| ==> starts[i] + |blocks[i]| <= starts[j])
    && (forall i :: 0 <= i < |blocks| ==> starts[i] + |blocks[i]| <= end)
  }

  lemma {:induction false} SourceIsLocked(threshold: nat, ops: seq<Op>)
    ensures Run(NewChnl(threshold), ops).lastSsrc == FirstSource(ops)
    decreases |ops|
  {
    if ops == [] {
    } else {
      SourceIsLocked(threshold, ops[..|ops| - 1]);
    }
  }

  ghost predicate Suffix(buf: seq<Sample>, stream: seq<Sample>) {
    |buf| <= |stream| && buf == stream[|stream| - |buf|..]
  }

  /** The frame an operation appends to the stream. */
  function Appended(c: Chnl, op: Op): seq<Sample> {
    if op.Packet? && Accepts(c.lastSsrc, op.ssrc, op.decoded) then op.decoded.value else []
  }

  lemma StepKeepsSuffix(c: Chnl, op: Op, s: seq<Sample>)
    requires Suffix(c.buf, s)
    ensures Suffix(Step(c, op).buf, s + Appended(c, op))
    ensures |s| - |c.buf| <= |s + Appended(c, op)| - |Step(c, op).buf|
    ensures op.Read? && op.length <= |c.buf| ==>
              |Step(c, op).buf| == |c.buf| - op.length
              && s[|s| - |c.buf|..|s| - |c.buf| + op.length] == Block(c, op.length)
  {
    match op
    case Packet(ssrc, decoded) =>
      if Accepts(c.lastSsrc, ssrc, decoded) {
        var cut := Cut(c);
        assert cut == s[|s| - |cut|..];
        var s' := s + decoded.value;
        assert s'[|s| - |cut|..] == cut + decoded.value;
      } else {
        assert s + [] == s;
      }
    case _ => assert s + [] == s;
  }

  lemma LieInLonger(blocks: seq<seq<Sample>>, starts: seq<nat>, s: seq<Sample>, end: int, x: seq<Sample>, end': int)
    requires LieIn(blocks, starts, s, end) && end <= end'
    ensures LieIn(blocks, starts, s + x, end')
  {
    forall i | 0 <= i < |blocks| ensures (s + x)[starts[i]..starts[i] + |blocks[i]|] == blocks[i] {
      assert (s + x)[starts[i]..starts[i] + |blocks[i]|] == s[starts[i]..starts[i] + |blocks[i]|];
    }
  }

  lemma LieInOneMore(blocks: seq<seq<Sample>>, starts: seq<nat>, s: seq<Sample>, end: nat, block: seq<Sample>)
    requires LieIn(blocks, starts, s, end) && end + |block| <= |s| && s[end..end + |block|] == block
    ensures LieIn(blocks + [block], starts + [end], s, end + |block|)
  {
  }

  /** The block an operation hands out. */
  function HandedOut(c: Chnl, op: Op): seq<seq<Sample>> {
    if op.Read? && op.length <= |c.buf| then [Block(c, op.length)] else []
  }

  lemma StepFollows(c: Chnl, op: Op, s: seq<Sample>, blocks: seq<seq<Sample>>, starts: seq<nat>)
      returns (starts': seq<nat>)
    requires Suffix(c.buf, s) && LieIn(blocks, starts, s, |s| - |c.buf|)
    ensures var s' := s + Appended(c, op);
            var buf' := Step(c, op).buf;
            Suffix(buf', s') && LieIn(blocks + HandedOut(c, op), starts', s', |s'| - |buf'|)
  {
    StepKeepsSuffix(c, op, s);
    if op.Read? && op.length <= |c.buf| {
      assert s + [] == s;
      LieInOneMore(blocks, starts, s, |s| - |c.buf|, Block(c, op.length));
      starts' := starts + [|s| - |c.buf|];
    } else {
      assert blocks + [] == blocks;
      LieInLonger(blocks, starts, s, |s| - |c.buf|, Appended(c, op), |s + Appended(c, op)| - |Step(c, op).buf|);
      starts' := starts;
    }
  }

  /** What one more operation does to every account kept of a run. */
  lemma OneMore(c: Chnl, ops: seq<Op>, op: Op)
    requires Run(c, ops).lastSsrc == FirstSource(ops)
    ensures var d := Run(c, ops);
            && Run(c, ops + [op]) == Step(d, op)
            && Stream(ops + [op]) == Stream(ops) + Appended(d, op)
            && Delivered(c, ops + [op]) == Delivered(c, ops) + HandedOut(d, op)
            && Dropped(c, ops + [op]) == Dropped(c, ops) + Lost(d, op)
  {
    assert (ops + [op])[..|ops|] == ops;
  }

  /** Refinement: the buffer is always a suffix of the decoded stream, and the delivered blocks are
      contiguous pieces of it, in stream order and without overlap. */
  lemma {:induction false} BlocksFollowStream(threshold: nat, ops: seq<Op>) returns (starts: seq<nat>)
    ensures var c := Run(NewChnl(threshold), ops);
            var stream := Stream(ops);
            && Suffix(c.buf, stream)
            && LieIn(Delivered(NewChnl(threshold), ops), starts, stream, |stream| - |c.buf|)
    decreases |ops|
  {
    if ops == [] {
      starts := [];
    } else {
      var before, last := ops[..|ops| - 1], ops[|ops| - 1];
      assert ops == before + [last];
      starts := BlocksFollowStream(threshold, before);
      SourceIsLocked(threshold, before);
      var delivered := Delivered(NewChnl(threshold), before);
      starts := StepFollows(Run(NewChnl(threshold), before), last, Stream(before), delivered, starts);
      OneMore(NewChnl(threshold), before, last);
    }
  }

  /** Conservation: every sample received was delivered, dropped or is still buffered. */
  lemma {:induction false} SamplesConserved(threshold: nat, ops: seq<Op>)
    ensures var n := NewChnl(threshold);
            |Stream(ops)| == Total(Delivered(n, ops)) + Dropped(n, ops) + |Run(n, ops).buf|
    decreases |ops|
  {
    if ops == [] {
    } else {
      var n := NewChnl(threshold);
      var before, last := ops[..|ops| - 1], ops[|ops| - 1];
      assert ops == before + [last];
      SamplesConserved(threshold, before);
      SourceIsLocked(threshold, before);
      OneMore(n, before, last);
      StepConserves(Run(n, before), last, Delivered(n, before));
    }
  }

  lemma StepConserves(c: Chnl, op: Op, delivered: seq<seq<Sample>>)
    ensures |Appended(c, op)| + |c.buf| + Total(delivered) ==
            Total(delivered + HandedOut(c, op)) + Lost(c, op) + |Step(c, op).buf|
  {
    if op.Read? && op.length <= |c.buf| {
      assert (delivered + [Block(c, op.length)])[..|delivered|] == delivered;
    } else {
      assert delivered + [] == delivered;
    }
  }

  /* ---- what decides about a packet, a clear and a read ---- */

  /** The operations without the packets of foreign sources: those that come when another source is already
      fixed. */
  function WithoutForeign(ops: seq<Op>): seq<Op>
    decreases |ops|
  {
    if ops == [] then [] else
      var before, op := ops[..|ops| - 1], ops[|ops| - 1];
      if op.Packet? && FirstSource(before) != 0 && op.ssrc != FirstSource(before) then WithoutForeign(before)
      else WithoutForeign(before) + [op]
  }

  /** Noninterference: foreign packets change neither the channel nor any block that is read from it. */
  lemma {:induction false} ForeignIsIgnored(threshold: nat, ops: seq<Op>)
    ensures var n, own := NewChnl(threshold), WithoutForeign(ops);
            Run(n, own) == Run(n, ops) && Delivered(n, own) == Delivered(n, ops) && Stream(own) == Stream(ops)
    decreases |ops|
  {
    if ops == [] {
    } else {
      var n, before, op := NewChnl(threshold), ops[..|ops| - 1], ops[|ops| - 1];
      assert ops == before + [op];
      ForeignIsIgnored(threshold, before);
      SourceIsLocked(threshold, before);
      OneMore(n, before, op);
      if op.Packet? && FirstSource(before) != 0 && op.ssrc != FirstSource(before) {
        NothingMore(n, before, op);
      } else {
        SourceIsLocked(threshold, WithoutForeign(before));
        OneMore(n, WithoutForeign(before), op);
      }
    }
  }

  lemma NothingMore(c: Chnl, ops: seq<Op>, op: Op)
    requires op.Packet? && Run(c, ops).lastSsrc != 0 && op.ssrc != Run(c, ops).lastSsrc
    ensures Step(Run(c, ops), op) == Run(c, ops)
    ensures Stream(ops) + Appended(Run(c, ops), op) == Stream(ops)
    ensures Delivered(c, ops) + HandedOut(Run(c, ops), op) == Delivered(c, ops)
  {
    assert Stream(ops) + [] == Stream(ops);
    assert Delivered(c, ops) + [] == Delivered(c, ops);
  }

  /** The value the microphone was last set to; it starts closed. */
  function MicOf(ops: seq<Op>): int
    decreases |ops|
  {
    if ops == [] then 0 else
      match ops[|ops| - 1]
      case SetMic(val) => val
      case _ => MicOf(ops[..|ops| - 1])
  }

  /** The microphone was set since the buffer last overflowed. */
  function SetSinceOverflow(threshold: nat, ops: seq<Op>): bool
    decreases |ops|
  {
    if ops == [] then false else
      var before, op := ops[..|ops| - 1], ops[|ops| - 1];
      if op.SetMic? then true
      else if Heard(before, op) && |Run(NewChnl(threshold), before).buf| > threshold then false
      else SetSinceOverflow(threshold, before)
  }

  lemma {:induction false} FlagsAreHistory(threshold: nat, ops: seq<Op>)
    ensures var c := Run(NewChnl(threshold), ops);
            c.mic == MicOf(ops) && c.needClear == SetSinceOverflow(threshold, ops) && c.threshold == threshold
    decreases |ops|
  {
    if ops == [] {
    } else {
      FlagsAreHistory(threshold, ops[..|ops| - 1]);
      SourceIsLocked(threshold, ops[..|ops| - 1]);
    }
  }

  /** What the next operation does to the buffer, by the history: a frame of the fixed source goes behind
      what is there, behind nothing if the buffer overflows for the first time since the microphone was set,
      and behind the newer half at any other overflow; a closed microphone empties the buffer; a read takes
      the oldest block, or nothing if there is less. */
  lemma BufferByHistory(threshold: nat, ops: seq<Op>, op: Op)
    ensures var buf, buf' := Run(NewChnl(threshold), ops).buf, Run(NewChnl(threshold), ops + [op]).buf;
            match op
            case Packet(ssrc, decoded) =>
              if decoded.None? || (FirstSource(ops) != 0 && ssrc != FirstSource(ops)) then buf' == buf
              else if |buf| <= threshold then buf' == buf + decoded.value
              else if SetSinceOverflow(threshold, ops) then buf' == decoded.value
              else buf' == buf[|buf| / 2..] + decoded.value
            case Idle => buf' == if MicOf(ops) == 0 then [] else buf
            case SetMic(_) => buf' == buf
            case Read(length) => buf' == if length <= |buf| then buf[length..] else buf
    ensures var n, buf := NewChnl(threshold), Run(NewChnl(threshold), ops).buf;
            Delivered(n, ops + [op]) ==
            Delivered(n, ops) + (if op.Read? && op.length <= |buf| then [buf[..op.length]] else [])
  {
    FlagsAreHistory(threshold, ops);
    SourceIsLocked(threshold, ops);
    OneMore(NewChnl(threshold), ops, op);
    if op.Packet? && op.decoded.Some? {
      assert [] + op.decoded.value == op.decoded.value;
    }
  }

  /** The threshold is 120 ms of sound for codec 1 and 400 ms for any other. */
  lemma ThresholdInTime(sampleRate: nat, codecType: int)
    requires sampleRate % 50 == 0
    ensures Threshold(sampleRate, codecType) * 1000 == sampleRate * (if codecType == 1 then 120 else 400)
  {
    assert sampleRate == sampleRate / 50 * 50;
  }

  /* ---- the bound ---- */

  function Max(a: nat, b: nat): nat {
    if a >= b then a else b
  }

  function Bound(threshold: nat, frame: nat): nat {
    Max(threshold + frame, 2 * frame)
  }

  ghost predicate FramesAtMost(ops: seq<Op>, frame: nat) {
    forall i :: 0 <= i < |ops| && ops[i].Packet? && ops[i].decoded.Some? ==> |ops[i].decoded.value| <= frame
  }

  /** With frames of at most `frame` samples the buffer never exceeds the bound. */
  lemma {:induction false} BufferIsBounded(threshold: nat, ops: seq<Op>, frame: nat)
    requires FramesAtMost(ops, frame)
    ensures var c := Run(NewChnl(threshold), ops);
            c.threshold == threshold && |c.buf| <= Bound(threshold, frame)
    decreases |ops|
  {
    if ops == [] {
    } else {
      BufferIsBounded(threshold, ops[..|ops| - 1], frame);
    }
  }

  lemma RunAppend(c: Chnl, ops: seq<Op>, op: Op)
    ensures Run(c, ops + [op]) == Step(Run(c, ops), op)
  {
    assert (ops + [op])[..|ops|] == ops;
  }

  function SilentFrame(n: nat): Op {
    Packet(1, Some(Silence(n)))
  }

  /** Frames of one sample fill the buffer up to any length the threshold allows. */
  lemma {:induction false} FillTo(threshold: nat, n: nat) returns (ops: seq<Op>)
    requires n <= threshold
    ensures FramesAtMost(ops, 1)
    ensures var c := Run(NewChnl(threshold), ops);
            |c.buf| == n && c.threshold == threshold && !c.needClear && c.lastSsrc <= 1
  {
    ops := [];
    if n == 0 {
    } else {
      ops := FillTo(threshold, n - 1);
      RunAppend(NewChnl(threshold), ops, SilentFrame(1));
      ops := ops + [SilentFrame(1)];
    }
  }

  /** Beyond the threshold, full frames drive the length to twice the frame size. */
  lemma {:induction false} Converge(threshold: nat, frame: nat, ops: seq<Op>) returns (ops': seq<Op>)
    requires FramesAtMost(ops, frame)
    requires var c := Run(NewChnl(threshold), ops);
             threshold < |c.buf| <= 2 * frame && c.threshold == threshold && !c.needClear && c.lastSsrc <= 1
    ensures FramesAtMost(ops', frame) && |Run(NewChnl(threshold), ops').buf| == 2 * frame
    decreases 2 * frame - |Run(NewChnl(threshold), ops).buf|
  {
    if |Run(NewChnl(threshold), ops).buf| == 2 * frame {
      ops' := ops;
    } else {
      RunAppend(NewChnl(threshold), ops, SilentFrame(frame));
      ops' := Converge(threshold, frame, ops + [SilentFrame(frame)]);
    }
  }

  /** No smaller bound holds: unread frames can fill the buffer to exactly the bound. */
  lemma BoundIsReached(threshold: nat, frame: nat) returns (ops: seq<Op>)
    requires frame > 0
    ensures FramesAtMost(ops, frame) && |Run(NewChnl(threshold), ops).buf| == Bound(threshold, frame)
  {
    var full := FillTo(threshold, threshold);
    RunAppend(NewChnl(threshold), full, SilentFrame(frame));
    ops := full + [SilentFrame(frame)];
    if threshold < frame {
      ops := Converge(threshold, frame, ops);
    }
  }

  /* ---- the channel as the program runs it ---- */

  const SEQ_SIZE: nat := 0x1_0000
  const TS_SIZE: nat := 0x1_0000_0000

  datatype Rtp = Rtp(seqNum: nat, ts: nat, pcm: seq<Sample>)

  lemma NextTs(n: nat, step: nat)
    ensures (n * step % TS_SIZE + step) % TS_SIZE == (n + 1) * step % TS_SIZE
  {
    assert (n + 1) * step == n * step + step;
  }

  class AudioPorcessChnl {
    var srcBuffer: seq<Sample>
    var micType: int
    var micOpenNeedClear: bool
    var lastSsrc: nat
    const sampleRate: nat
    const codecType: int
    var chnlReady: bool
    var failed: bool
    var db: int
    var seqNum: nat
    var ts: nat
    /** The packets handed to the transceiver so far. */
    ghost var sent: seq<Rtp>

    ghost function State(): Chnl
      reads this
    {
      Chnl(srcBuffer, micType, micOpenNeedClear, lastSsrc, Threshold(sampleRate, codecType))
    }

    constructor (sampleRate: nat, codecType: int)
      ensures State() == NewChnl(Threshold(sampleRate, codecType)) && SentInOrder() && sent == []
      ensures srcBuffer == [] && micType == 0 && !micOpenNeedClear && lastSsrc == 0 && !chnlReady && !failed
      ensures this.sampleRate == sampleRate && this.codecType == codecType
    {
      this.sampleRate := sampleRate;
      this.codecType := codecType;
      srcBuffer, micType, micOpenNeedClear, lastSsrc := [], 0, false, 0;
      chnlReady, failed, db := false, false, 0;
      seqNum, ts, sent := 0, 0, [];
    }

    /** The i-th packet sent carries sequence number i and the end of the i-th 20 ms, both modulo their
        field width. */
    ghost predicate SentInOrder()
      reads `seqNum, `ts, `sent
    {
      && seqNum == |sent| % 0x1_0000 && ts == |sent| * (sampleRate / 50) % 0x1_0000_0000
      && forall i :: 0 <= i < |sent| ==>
        sent[i].seqNum == i % 0x1_0000 && sent[i].ts == (i + 1) * (sampleRate / 50) % 0x1_0000_0000
    }

    /** sendRtp: the encoder's output is represented by the samples it was given. */
    method SendRtp(pcm: seq<Sample>)
      requires SentInOrder()
      modifies this`seqNum, this`ts, this`sent
      ensures SentInOrder()
      ensures |sent| == |old(sent)| + 1 && sent[..|old(sent)|] == old(sent) && sent[|old(sent)|].pcm == pcm
    {
      NextTs(|sent|, sampleRate / 50);
      ts := (ts + sampleRate / 50) % TS_SIZE;
      sent := sent + [Rtp(seqNum, ts, pcm)];
      seqNum := (seqNum + 1) % SEQ_SIZE;
    }

    method GetBuffer(length: nat) returns (dst: seq<Sample>)
      modifies this`srcBuffer
      ensures dst == Block(old(State()), length) && State() == Step(old(State()), Read(length))
      ensures dst == if length <= |old(srcBuffer)| then old(srcBuffer)[..length] else []
      ensures srcBuffer == if length <= |old(srcBuffer)| then old(srcBuffer)[length..] else old(srcBuffer)
    {
      dst := [];
      if |srcBuffer| < length {
        return;
      }
      dst := srcBuffer[..length];
      srcBuffer := srcBuffer[length..];
    }

    method SetMicType(val: int)
      modifies this`micType, this`micOpenNeedClear
      ensures State() == Step(old(State()), SetMic(val))
      ensures micType == val && micOpenNeedClear
    {
      micType := val;
      micOpenNeedClear := true;
    }

    /** The turn of the receive loop that finds the microphone closed. */
    method ClearWhileClosed()
      modifies this`srcBuffer
      ensures State() == Step(old(State()), Idle)
      ensures srcBuffer == if micType == 0 then [] else old(srcBuffer)
    {
      if micType == 0 && srcBuffer != [] {
        srcBuffer := [];
      }
    }

    /** The turn that takes one packet off the receive queue; `decoded` is what the decoder returned. */
    method ReceivePacket(ssrc: nat, decoded: Option<seq<Sample>>)
      modifies this`srcBuffer, this`micOpenNeedClear, this`lastSsrc
      ensures State() == Step(old(State()), Packet(ssrc, decoded))
      ensures decoded.None? || (old(lastSsrc) != 0 && ssrc != old(lastSsrc)) ==>
                srcBuffer == old(srcBuffer) && micOpenNeedClear == old(micOpenNeedClear) && lastSsrc == old(lastSsrc)
      ensures decoded.Some? && (old(lastSsrc) == 0 || ssrc == old(lastSsrc)) ==>
                var limit := sampleRate / 50 * (if codecType == 1 then 6 else 20);
                var kept := if |old(srcBuffer)| <= limit then old(srcBuffer)
                            else if old(micOpenNeedClear) then []
                            else old(srcBuffer)[|old(srcBuffer)| / 2..];
                && lastSsrc == ssrc && srcBuffer == kept + decoded.value
                && micOpenNeedClear == (old(micOpenNeedClear) && |old(srcBuffer)| <= limit)
    {
      if lastSsrc != 0 {
        if lastSsrc != ssrc {
          return;
        }
      }
      if decoded.None? {
        return;
      }
      if lastSsrc == 0 {
        lastSsrc := ssrc;
      }
      if |srcBuffer| > (if codecType == 1 then sampleRate / 50 * 6 else sampleRate / 50 * 20) {
        if micOpenNeedClear {
          srcBuffer := [];
          micOpenNeedClear := false;
        } else {
          srcBuffer := srcBuffer[|srcBuffer| / 2..];
        }
      }
      srcBuffer := srcBuffer + decoded.value;
    }
  }
}

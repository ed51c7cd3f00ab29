/** The mixing loop of a conference as it runs on its channels and its mixer
    (src/mpu.cpp, MediaProcessUnit::workingLoop). */
module MixLoop {
  import opened JitterBuffer
  import opened Lists
  import opened Mixer
  import opened MixTick
  import opened Pcm

  function Look(c: AudioPorcessChnl): View
    reads c
  {
    View(c.chnlReady, c.failed, c.micType != 0, c.db, c.srcBuffer)
  }

  type Channels = map<string, AudioPorcessChnl>

  ghost predicate Distinct(apcs: Channels) {
    forall a, b :: a in apcs && b in apcs && a != b ==> apcs[a] != apcs[b]
  }

  ghost predicate InOrder(apcs: Channels)
    reads apcs.Values`seqNum, apcs.Values`ts, apcs.Values`sent
  {
    forall a :: a in apcs ==> apcs[a].SentInOrder()
  }

  ghost function ViewsOf(apcs: Channels): Views
    reads apcs.Values
  {
    map id | id in apcs :: Look(apcs[id])
  }

  ghost function BufferedIn(apcs: Channels): Buffers
    reads apcs.Values`srcBuffer
  {
    map id | id in apcs :: apcs[id].srcBuffer
  }

  ghost function SentBy(apcs: Channels): map<string, seq<Rtp>>
    reads apcs.Values`sent
  {
    map id | id in apcs :: apcs[id].sent
  }

  class MixingLoop {
    var APCs: Channels
    const mixer: AudioMixer
    const lengthStandard: nat
    var noNeedCount: nat

    ghost predicate Valid()
      reads this, APCs.Values
    {
      Distinct(APCs) && InOrder(APCs) && noNeedCount < IDLE_LIMIT
    }

    constructor (mixer: AudioMixer, outSampleRate: nat)
      ensures Valid() && APCs == map[] && this.mixer == mixer && lengthStandard == outSampleRate / 50
    {
      APCs, noNeedCount := map[], 0;
      lengthStandard := outSampleRate / 50;
      this.mixer := mixer;
    }

    /** One pass over the channel map: who gets a frame, who has sound, who has failed. */
    method Collect(order: seq<string>) returns (dests: seq<string>, candidates: seq<string>, removals: seq<string>)
      requires forall id :: id in order ==> id in APCs
      ensures dests == Dests(ViewsOf(APCs), order)
      ensures candidates == Candidates(ViewsOf(APCs), order, lengthStandard)
      ensures ReportsFailed(ViewsOf(APCs), order, removals)
      ensures forall id :: id in dests <==> id in order && APCs[id].chnlReady && !APCs[id].failed
      ensures forall id :: id in candidates <==> (id in order && APCs[id].chnlReady && !APCs[id].failed &&
                                                  APCs[id].micType != 0 && |APCs[id].srcBuffer| >= lengthStandard)
      ensures forall id :: id in removals <==> id in order && APCs[id].chnlReady && APCs[id].failed
    {
      dests, candidates, removals := [], [], [];
      for i := 0 to |order|
        invariant dests == Dests(ViewsOf(APCs), order[..i])
        invariant candidates == Candidates(ViewsOf(APCs), order[..i], lengthStandard)
        invariant ReportsFailed(ViewsOf(APCs), order[..i], removals)
      {
        CollectOneMore(ViewsOf(APCs), order, i, lengthStandard);
        var val := APCs[order[i]];
        if !val.chnlReady {
          continue;
        }
        if val.failed {
          removals := removals + [order[i]];
          continue;
        }
        dests := dests + [order[i]];
        if val.micType == 0 {
          continue;
        }
        if |val.srcBuffer| < lengthStandard {
          continue;
        }
        candidates := candidates + [order[i]];
      }
      assert order[..|order|] == order;
    }

    /** The read of the i-th channel in the ranking. */
    method ReadOne(src: Buffers, i: nat, id: string) returns (src': Buffers)
      requires Distinct(APCs)
      modifies APCs.Values`srcBuffer
      ensures src' == Offer(src, i, id, BlockOf(old(BufferedIn(APCs)), id, lengthStandard))
      ensures BufferedIn(APCs) == WithoutBlock(old(BufferedIn(APCs)), id, lengthStandard)
    {
      src' := src;
      if id !in APCs {
        return;
      }
      var data := APCs[id].GetBuffer(lengthStandard);
      if data == [] {
        return;
      }
      if i < MAX_MIXED {
        src' := Insert(src, id, data);
      }
    }

    /** The reads of the ranked channels. Another thread may have changed the buffers since `Collect`. */
    method PickSources(sorted: seq<string>) returns (src: Buffers)
      requires Distinct(APCs) && NoDup(sorted)
      modifies APCs.Values`srcBuffer
      ensures src == Pushed(old(BufferedIn(APCs)), sorted, lengthStandard)
      ensures BufferedIn(APCs) == Consumed(old(BufferedIn(APCs)), sorted, lengthStandard)
    {
      src := map[];
      ghost var before := BufferedIn(APCs);
      for i := 0 to |sorted|
        invariant src == Pushed(before, sorted[..i], lengthStandard)
        invariant BufferedIn(APCs) == Consumed(before, sorted[..i], lengthStandard)
      {
        PushOneMore(before, sorted, i, lengthStandard);
        ConsumeOneMore(before, sorted, i, lengthStandard);
        src := ReadOne(src, i, sorted[i]);
      }
      assert sorted[..|sorted|] == sorted;
    }

    /** The frame for one destination: the mix of the others, or silence if that is empty. */
    method FrameFor(dests: seq<string>, id: string) returns (vec: seq<Sample>)
      ensures vec == Frame(mixer.audioMap, dests, lengthStandard, id)
    {
      var idForm := Others(dests, id);
      vec := mixer.GetData(idForm);
      if vec == [] {
        vec := Silence(lengthStandard);
      }
    }

    /** Fills the mixer, asks it for the mix of every destination, and empties it again. */
    method MixAll(src: Buffers, dests: seq<string>) returns (dst: Buffers)
      modifies mixer
      ensures mixer.audioMap == Emptied(old(mixer.audioMap))
      ensures dst == Frames(Filled(old(mixer.audioMap), src), dests, lengthStandard)
    {
      PushAll(src);
      dst := map[];
      for i := 0 to |dests|
        invariant mixer.audioMap == Filled(old(mixer.audioMap), src)
        invariant forall id :: id in dst <==> id in dests[..i]
        invariant forall id :: id in dst ==> dst[id] == Frame(mixer.audioMap, dests, lengthStandard, id)
      {
        assert dests[..i + 1] == dests[..i] + [dests[i]];
        var vec := FrameFor(dests, dests[i]);
        dst := dst[dests[i] := vec];
      }
      assert dests[..|dests|] == dests;
      mixer.ClearData();
    }

    method PushAll(src: Buffers)
      modifies mixer
      ensures mixer.audioMap == Filled(old(mixer.audioMap), src)
    {
      var keys := src.Keys;
      NothingFilled(mixer.audioMap, src - keys);
      while keys != {}
        invariant keys <= src.Keys
        invariant mixer.audioMap == Filled(old(mixer.audioMap), src - keys)
      {
        var key :| key in keys;
        var _ := mixer.PushData(key, src[key]);
        keys := keys - {key};
      }
      assert src - {} == src;
    }

    static method Others(dests: seq<string>, id: string) returns (others: seq<string>)
      ensures others == RemoveAll(dests, id)
    {
      others := [];
      for i := 0 to |dests|
        invariant others == RemoveAll(dests[..i], id)
      {
        assert dests[..i + 1] == dests[..i] + [dests[i]];
        RemoveAllSnoc(dests[..i], dests[i], id);
        if dests[i] != id {
          others := others + [dests[i]];
        }
      }
      assert dests[..|dests|] == dests;
    }

    /** Sends each destination that is still there its frame. */
    method SendAll(dst: Buffers)
      requires Distinct(APCs) && InOrder(APCs)
      modifies APCs.Values`seqNum, APCs.Values`ts, APCs.Values`sent
      ensures InOrder(APCs)
      ensures AllSent(old(SentBy(APCs)), SentBy(APCs), dst) && BufferedIn(APCs) == old(BufferedIn(APCs))
    {
      var keys := dst.Keys;
      while keys != {}
        invariant InOrder(APCs) && keys <= dst.Keys
        invariant AllSent(old(SentBy(APCs)), SentBy(APCs), dst - keys)
      {
        var key :| key in keys;
        ghost var sent, done := SentBy(APCs), dst - keys;
        keys := keys - {key};
        SendTo(key, dst[key]);
        OneMoreSent(old(SentBy(APCs)), sent, SentBy(APCs), done, key, dst[key]);
        assert dst - keys == done[key := dst[key]];
      }
      assert dst - {} == dst;
    }

    method SendTo(key: string, frame: seq<Sample>)
      requires Distinct(APCs) && InOrder(APCs)
      modifies APCs.Values`seqNum, APCs.Values`ts, APCs.Values`sent
      ensures InOrder(APCs) && AllSent(old(SentBy(APCs)), SentBy(APCs), map[key := frame])
    {
      if key !in APCs || frame == [] {
        return;
      }
      APCs[key].SendRtp(frame);
    }

    /** The frames of a turn that mixes. `sorted` is what std::sort made of the candidates. */
    method MixTurn(dests: seq<string>, sorted: seq<string>) returns (dst: Buffers)
      requires Distinct(APCs) && NoDup(sorted)
      modifies mixer, APCs.Values`srcBuffer
      ensures BufferedIn(APCs) == Consumed(old(BufferedIn(APCs)), sorted, lengthStandard)
      ensures mixer.audioMap == Emptied(old(mixer.audioMap))
      ensures dst == Frames(Filled(old(mixer.audioMap), Pushed(old(BufferedIn(APCs)), sorted, lengthStandard)),
              dests, lengthStandard)
    {
      hide Pushed, Consumed, Filled, Frames, Emptied, NoDup;
      var src := PickSources(sorted);
      ghost var left := BufferedIn(APCs);
      dst := MixAll(src, dests);
      assert BufferedIn(APCs) == left;
    }

    /** The pass over the channels, before a ranking of the candidates. */
    method Survey(order: seq<string>, ghost sorted: seq<string>) returns (dests: seq<string>, removals: seq<string>)
      requires NoDup(order) && Elements(order) == APCs.Keys
      requires Ranked(ViewsOf(APCs), Candidates(ViewsOf(APCs), order, lengthStandard), sorted)
      ensures dests == Dests(ViewsOf(APCs), order) && NoDup(dests) && NoDup(sorted)
      ensures forall id :: id in dests <==> id in APCs && APCs[id].chnlReady && !APCs[id].failed
      ensures forall id :: id in removals <==> id in APCs && APCs[id].chnlReady && APCs[id].failed
      ensures forall id :: id in sorted <==> (id in APCs && APCs[id].chnlReady && !APCs[id].failed &&
                                              APCs[id].micType != 0 && |APCs[id].srcBuffer| >= lengthStandard)
      ensures forall id :: id in sorted <==> id in APCs && HasSound(APCs[id], lengthStandard)
    {
      var candidates;
      dests, candidates, removals := Collect(order);
      RankedIds(ViewsOf(APCs), order, sorted, lengthStandard);
      FiltersKeepNoDup(ViewsOf(APCs), order, lengthStandard);
      SameElements(candidates, sorted);
      forall id ensures id in order <==> id in APCs {
        assert id in order <==> id in Elements(order);
      }
    }

    /** A tick without sound: it counts, and every so often has silence to send. */
    method IdleTick(dests: seq<string>) returns (dst: Buffers)
      modifies this`noNeedCount
      ensures noNeedCount == IdleTurn(old(noNeedCount)).0
      ensures dst == if IdleTurn(old(noNeedCount)).1 then Silent(dests, lengthStandard) else map[]
    {
      noNeedCount := noNeedCount + 1;
      dst := map[];
      if noNeedCount >= IDLE_LIMIT {
        noNeedCount := 0;
        dst := Silent(dests, lengthStandard);
      }
    }

    /** The frames of a turn, and its effect on buffers and counters. */
    method Turn(dests: seq<string>, sorted: seq<string>) returns (dst: Buffers)
      requires Distinct(APCs) && InOrder(APCs) && NoDup(sorted)
      modifies this`noNeedCount, mixer, APCs.Values`srcBuffer
      ensures InOrder(APCs)
      ensures BufferedIn(APCs) == Consumed(old(BufferedIn(APCs)), sorted, lengthStandard)
      ensures noNeedCount == if sorted == [] then IdleTurn(old(noNeedCount)).0 else 0
      ensures mixer.audioMap == if sorted == [] then old(mixer.audioMap) else Emptied(old(mixer.audioMap))
      ensures dst == TurnFrames(old(BufferedIn(APCs)), old(mixer.audioMap), old(noNeedCount), dests, sorted,
              lengthStandard)
    {
      if sorted == [] {
        NothingConsumed(BufferedIn(APCs), sorted, lengthStandard);
        dst := IdleTick(dests);
      } else {
        noNeedCount := 0;
        dst := MixTurn(dests, sorted);
      }
    }

    /** A turn followed by the sends. */
    method Round(dests: seq<string>, sorted: seq<string>)
      requires Distinct(APCs) && InOrder(APCs) && NoDup(sorted)
      modifies this`noNeedCount, mixer
      modifies APCs.Values`srcBuffer, APCs.Values`seqNum, APCs.Values`ts, APCs.Values`sent
      ensures InOrder(APCs)
      ensures BufferedIn(APCs) == Consumed(old(BufferedIn(APCs)), sorted, lengthStandard)
      ensures noNeedCount == if sorted == [] then IdleTurn(old(noNeedCount)).0 else 0
      ensures mixer.audioMap == if sorted == [] then old(mixer.audioMap) else Emptied(old(mixer.audioMap))
      ensures AllSent(old(SentBy(APCs)), SentBy(APCs),
                      TurnFrames(old(BufferedIn(APCs)), old(mixer.audioMap), old(noNeedCount), dests, sorted,
                        lengthStandard))
    {
      var dst := Turn(dests, sorted);
      SendAll(dst);
    }

    /** A turn and its sends, channel by channel: the ranked ones lose a block, those with a frame are sent
        it. */
    method ChannelRound(dests: seq<string>, sorted: seq<string>, ghost frames: Buffers)
      requires Valid() && NoDup(sorted)
      requires frames == TurnFrames(BufferedIn(APCs), mixer.audioMap, noNeedCount, dests, sorted, lengthStandard)
      requires forall id :: id in sorted ==> id in APCs && |APCs[id].srcBuffer| >= lengthStandard
      modifies this`noNeedCount, mixer
      modifies APCs.Values`srcBuffer, APCs.Values`seqNum, APCs.Values`ts, APCs.Values`sent
      ensures Valid()
      ensures noNeedCount == if sorted != [] || old(noNeedCount) + 1 >= 5 then 0 else old(noNeedCount) + 1
      ensures mixer.audioMap == if sorted == [] then old(mixer.audioMap) else Emptied(old(mixer.audioMap))
      ensures AllSent(old(SentBy(APCs)), SentBy(APCs), frames)
      ensures forall id :: id in APCs ==>
                APCs[id].srcBuffer == if id in sorted then old(APCs[id].srcBuffer)[lengthStandard..]
                                      else old(APCs[id].srcBuffer)
      ensures forall id :: id in APCs ==>
                |APCs[id].sent| == |old(APCs[id].sent)| + (if id in frames && frames[id] != [] then 1 else 0)
    {
      ghost var bufs, sent := BufferedIn(APCs), SentBy(APCs);
      Round(dests, sorted);
      ghost var bufs', sent' := BufferedIn(APCs), SentBy(APCs);
      forall id | id in APCs
        ensures APCs[id].srcBuffer == if id in sorted then bufs[id][lengthStandard..] else bufs[id]
      {
        assert bufs'[id] == APCs[id].srcBuffer;
      }
      forall id | id in APCs
        ensures |APCs[id].sent| == |sent[id]| + (if id in frames && frames[id] != [] then 1 else 0)
      {
        assert sent'[id] == APCs[id].sent;
      }
    }

    /** The same with what the frames are: in a turn that sends, those that are ready and have not failed are
        sent one packet, with the mix of the others. */
    method RoundOfChannels(dests: seq<string>, sorted: seq<string>) returns (ghost frames: Buffers)
      requires Valid() && NoDup(dests) && NoDup(sorted)
      requires forall id :: id in dests <==> id in APCs && APCs[id].chnlReady && !APCs[id].failed
      requires forall id :: id in sorted <==> id in APCs && HasSound(APCs[id], lengthStandard)
      modifies this`noNeedCount, mixer
      modifies APCs.Values`srcBuffer, APCs.Values`seqNum, APCs.Values`ts, APCs.Values`sent
      ensures Valid()
      ensures noNeedCount == if sorted != [] || old(noNeedCount) + 1 >= 5 then 0 else old(noNeedCount) + 1
      ensures mixer.audioMap == if sorted == [] then old(mixer.audioMap) else Emptied(old(mixer.audioMap))
      ensures forall id :: id in APCs ==>
                APCs[id].srcBuffer == old(if HasSound(APCs[id], lengthStandard)
                                          then APCs[id].srcBuffer[lengthStandard..] else APCs[id].srcBuffer)
      ensures forall id :: id in frames <==>
                (sorted != [] || old(noNeedCount) + 1 >= 5) && id in APCs && APCs[id].chnlReady && !APCs[id].failed
      ensures AllSent(old(SentBy(APCs)), SentBy(APCs), frames)
      ensures lengthStandard > 0 ==> forall id :: id in APCs ==>
                |APCs[id].sent| == |old(APCs[id].sent)| + (if id in frames then 1 else 0)
      ensures frames == TurnFrames(old(BufferedIn(APCs)), old(mixer.audioMap), old(noNeedCount), dests, sorted,
                                   lengthStandard)
      ensures Cleared(old(mixer.audioMap)) ==> forall id :: id in frames ==>
                MixMinus(frames[id], old(BufferedIn(APCs)), old(mixer.audioMap), dests, sorted, lengthStandard, id)
    {
      hide *;
      ghost var bufs := BufferedIn(APCs);
      SoundIsBuffered(APCs, sorted, dests, lengthStandard);
      frames := TurnFrames(bufs, mixer.audioMap, noNeedCount, dests, sorted, lengthStandard);
      TurnIsMixMinus(bufs, mixer.audioMap, noNeedCount, dests, sorted, lengthStandard);
      ChannelRound(dests, sorted, frames);
    }

    /** One round of the loop. `order` is the iteration order of the channel map, `sorted` what std::sort
        made of the candidates, `frames` what is sent.  A channel has sound if it is ready, has not failed,
        its microphone is open and it holds a block.  In a turn with sound, and in every fifth without, each
        channel that is ready and has not failed, and no other, is sent one packet: the mix of the others. */
    method Tick(order: seq<string>, sorted: seq<string>)
      returns (removals: seq<string>, ghost frames: Buffers, ghost dests: seq<string>)
      requires Valid() && NoDup(order) && Elements(order) == APCs.Keys
      requires Ranked(ViewsOf(APCs), Candidates(ViewsOf(APCs), order, lengthStandard), sorted)
      modifies this`noNeedCount, mixer
      modifies APCs.Values`srcBuffer, APCs.Values`seqNum, APCs.Values`ts, APCs.Values`sent
      ensures Valid()
      ensures forall id :: id in removals <==> id in APCs && APCs[id].chnlReady && APCs[id].failed
      ensures noNeedCount == if sorted != [] || old(noNeedCount) + 1 >= 5 then 0 else old(noNeedCount) + 1
      ensures mixer.audioMap == if sorted == [] then old(mixer.audioMap) else Emptied(old(mixer.audioMap))
      ensures forall id :: id in dests <==> id in APCs && APCs[id].chnlReady && !APCs[id].failed
      ensures forall id :: id in sorted <==> id in APCs && old(HasSound(APCs[id], lengthStandard))
      ensures forall id :: id in APCs ==>
                APCs[id].srcBuffer == old(if HasSound(APCs[id], lengthStandard)
                                          then APCs[id].srcBuffer[lengthStandard..] else APCs[id].srcBuffer)
      ensures forall id :: id in frames <==>
                (sorted != [] || old(noNeedCount) + 1 >= 5) && id in APCs && APCs[id].chnlReady && !APCs[id].failed
      ensures AllSent(old(SentBy(APCs)), SentBy(APCs), frames)
      ensures lengthStandard > 0 ==> forall id :: id in APCs ==>
                |APCs[id].sent| == |old(APCs[id].sent)| + (if id in frames then 1 else 0)
      ensures frames == TurnFrames(old(BufferedIn(APCs)), old(mixer.audioMap), old(noNeedCount),
                                   Dests(old(ViewsOf(APCs)), order), sorted, lengthStandard)
      ensures Cleared(old(mixer.audioMap)) ==> forall id :: id in frames ==>
                MixMinus(frames[id], old(BufferedIn(APCs)), old(mixer.audioMap), dests, sorted, lengthStandard, id)
    {
      hide *;
      var receivers;
      receivers, removals := Survey(order, sorted);
      dests := receivers;
      frames := RoundOfChannels(receivers, sorted);
    }
  }

  /** The channel is ready, has not failed, its microphone is open and it holds a block. */
  ghost predicate HasSound(c: AudioPorcessChnl, length: nat)
    reads c
  {
    c.chnlReady && !c.failed && c.micType != 0 && |c.srcBuffer| >= length
  }

  lemma SoundIsBuffered(apcs: Channels, sorted: seq<string>, dests: seq<string>, length: nat)
    requires forall id :: id in sorted <==> id in apcs && HasSound(apcs[id], length)
    requires forall id :: id in dests <==> id in apcs && apcs[id].chnlReady && !apcs[id].failed
    ensures forall id :: id in sorted ==> id in apcs && |apcs[id].srcBuffer| >= length
    ensures var bufs := BufferedIn(apcs);
            forall id :: id in sorted ==> id in dests && id in bufs && |bufs[id]| >= length
  {
  }

  /** What a turn sends, sample by sample: silence if nobody has sound, and else the mix of the others. */
  lemma TurnIsMixMinus(bufs: Buffers, base: Buffers, idle: nat, dests: seq<string>, sorted: seq<string>, length: nat)
    requires NoDup(dests) && NoDup(sorted)
    requires forall id :: id in sorted ==> id in dests && id in bufs && |bufs[id]| >= length
    ensures var frames := TurnFrames(bufs, base, idle, dests, sorted, length);
            && (forall id :: id in frames <==> (sorted != [] || idle + 1 >= 5) && id in dests)
            && (length > 0 ==> forall id :: id in frames ==> frames[id] != [])
            && (Cleared(base) ==>
                  forall id :: id in frames ==> MixMinus(frames[id], bufs, base, dests, sorted, length, id))
  {
    if Cleared(base) && sorted != [] {
      forall id | id in dests
        ensures MixMinus(Frame(Filled(base, Pushed(bufs, sorted, length)), dests, length, id),
                         bufs, base, dests, sorted, length, id)
      {
        FrameCarriesMix(bufs, base, sorted, length, dests, id);
      }
    }
  }

  /** The channels the loop asks to be removed: those that are ready and failed. */
  ghost predicate ReportsFailed(chs: Views, order: seq<string>, removals: seq<string>) {
    forall id :: id in removals <==> id in order && id in chs && chs[id].ready && chs[id].failed
  }

  function Emptied(m: Buffers): Buffers {
    map id | id in m :: []
  }

  function Silent(dests: seq<string>, length: nat): Buffers {
    map id | id in dests :: Silence(length)
  }

  /** The frames of a turn, by destination. */
  function TurnFrames(bufs: Buffers, base: Buffers, idle: nat, dests: seq<string>, sorted: seq<string>,
                      length: nat): Buffers {
    if sorted != [] then Frames(Filled(base, Pushed(bufs, sorted, length)), dests, length)
    else if IdleTurn(idle).1 then Silent(dests, length)
    else map[]
  }

  /** In a turn that sends, every destination has exactly one frame, of the standard length; in any other
      turn there is none. */
  lemma EveryDestinationOneFrame(bufs: Buffers, base: Buffers, idle: nat, dests: seq<string>, sorted: seq<string>,
                                 length: nat)
    requires Cleared(base) && length > 0
    ensures var frames := TurnFrames(bufs, base, idle, dests, sorted, length);
            if sorted != [] || IdleTurn(idle).1
            then (forall id :: id in frames <==> id in dests) && forall id :: id in dests ==> |frames[id]| == length
            else frames == map[]
  {
    if sorted != [] {
      forall id | id in dests ensures |Frame(Filled(base, Pushed(bufs, sorted, length)), dests, length, id)| == length {
        FrameOfOthers(base, Pushed(bufs, sorted, length), dests, length, id, 0);
      }
    }
  }

  /** Every channel with a frame got exactly one packet more, with that frame; the others got none. */
  ghost predicate AllSent(before: map<string, seq<Rtp>>, after: map<string, seq<Rtp>>, frames: Buffers) {
    && after.Keys == before.Keys
    && forall id :: id in before ==>
         if id in frames && frames[id] != [] then SentOne(before[id], after[id], frames[id])
         else after[id] == before[id]
  }

  lemma OneMoreSent(before: map<string, seq<Rtp>>, mid: map<string, seq<Rtp>>, after: map<string, seq<Rtp>>,
                    done: Buffers, key: string, frame: seq<Sample>)
    requires AllSent(before, mid, done) && key !in done && AllSent(mid, after, map[key := frame])
    ensures AllSent(before, after, done[key := frame])
  {
  }

  /** One channel more in the pass. */
  lemma CollectOneMore(chs: Views, order: seq<string>, i: nat, length: nat)
    requires i < |order| && order[i] in chs
    ensures var id := order[i];
            && order[..i + 1] == order[..i] + [id]
            && Dests(chs, order[..i + 1]) == Dests(chs, order[..i]) + (if IsDest(chs[id]) then [id] else [])
            && Candidates(chs, order[..i + 1], length) ==
               Candidates(chs, order[..i], length) + (if IsCandidate(chs[id], length) then [id] else [])
  {
    assert order[..i + 1][..i] == order[..i];
  }

  lemma RankedIds(chs: Views, order: seq<string>, sorted: seq<string>, length: nat)
    requires NoDup(order) && Ranked(chs, Candidates(chs, order, length), sorted)
    ensures NoDup(sorted) && forall id :: id in sorted ==> id in chs
  {
    FiltersKeepNoDup(chs, order, length);
    SameElements(Candidates(chs, order, length), sorted);
  }

  lemma NothingConsumed(bufs: Buffers, sorted: seq<string>, length: nat)
    requires sorted == []
    ensures Consumed(bufs, sorted, length) == bufs
  {
  }

  function BlockOf(bufs: Buffers, id: string, length: nat): seq<Sample> {
    if id in bufs && |bufs[id]| >= length then bufs[id][..length] else []
  }

  function WithoutBlock(bufs: Buffers, id: string, length: nat): Buffers {
    if id in bufs && |bufs[id]| >= length then bufs[id := bufs[id][length..]] else bufs
  }

  /** std::unordered_map::insert, which leaves an existing entry alone. */
  function Insert(m: Buffers, id: string, data: seq<Sample>): Buffers {
    if id in m then m else m[id := data]
  }

  /** A block that was read goes into the mix if its channel is among the first five. */
  function Offer(src: Buffers, i: nat, id: string, data: seq<Sample>): Buffers {
    if data != [] && i < MAX_MIXED then Insert(src, id, data) else src
  }

  /** What one more channel in the ranking takes off the buffers ... */
  lemma ConsumeOneMore(bufs: Buffers, sorted: seq<string>, i: nat, length: nat)
    requires i < |sorted| && NoDup(sorted)
    ensures var rest := Consumed(bufs, sorted[..i], length);
            && BlockOf(rest, sorted[i], length) == BlockOf(bufs, sorted[i], length)
            && Consumed(bufs, sorted[..i + 1], length) == WithoutBlock(rest, sorted[i], length)
  {
    assert sorted[..i + 1] == sorted[..i] + [sorted[i]];
    assert sorted[i] !in sorted[..i];
  }

  /** ... and adds to the blocks read. */
  lemma PushOneMore(bufs: Buffers, sorted: seq<string>, i: nat, length: nat)
    requires i < |sorted|
    ensures Pushed(bufs, sorted[..i + 1], length) ==
            Offer(Pushed(bufs, sorted[..i], length), i, sorted[i], BlockOf(bufs, sorted[i], length))
  {
    assert sorted[..i + 1][..i] == sorted[..i];
  }

  lemma NothingFilled(base: Buffers, pushed: Buffers)
    requires pushed.Keys == {}
    ensures Filled(base, pushed) == base
  {
    assert forall id :: id in base ==> base[id] + [] == base[id];
  }

  function Frames(mixer: Buffers, dests: seq<string>, length: nat): Buffers {
    map id | id in dests :: Frame(mixer, dests, length, id)
  }

  /** Exactly one packet more, with this content. */
  ghost predicate SentOne(before: seq<Rtp>, after: seq<Rtp>, pcm: seq<Sample>) {
    |after| == |before| + 1 && after[..|before|] == before && after[|before|].pcm == pcm
  }
}

/** One turn of the mixing loop, 20 ms of every channel (src/mpu.cpp, MediaProcessUnit::workingLoop). */
module MixTick {
  import opened Lists
  import opened Mixer
  import opened Pcm
  import MpuState
  import PortAllocator

  const MAX_MIXED: nat := 5
  const IDLE_LIMIT: nat := 5

  /** What the loop sees of a channel. */
  datatype View = View(ready: bool, failed: bool, micOpen: bool, volume: int, buf: seq<Sample>)

  type Views = map<string, View>

  predicate IsDest(v: View) {
    v.ready && !v.failed
  }

  predicate IsCandidate(v: View, length: nat) {
    IsDest(v) && v.micOpen && |v.buf| >= length
  }

  /** The channels that get a frame, in the iteration order of the channel map. */
  function Dests(chs: Views, order: seq<string>): (r: seq<string>)
    ensures forall id :: id in r <==> id in order && id in chs && chs[id].ready && !chs[id].failed
    decreases |order|
  {
    if order == [] then [] else
      var n := |order| - 1;
      assert order == order[..n] + [order[n]];
      Dests(chs, order[..n]) + (if order[n] in chs && IsDest(chs[order[n]]) then [order[n]] else [])
  }

  /** The channels with sound to mix. */
  function Candidates(chs: Views, order: seq<string>, length: nat): (r: seq<string>)
    ensures forall id :: id in r <==> (id in order && id in chs && chs[id].ready && !chs[id].failed &&
                                       chs[id].micOpen && |chs[id].buf| >= length)
    decreases |order|
  {
    if order == [] then [] else
      var n := |order| - 1;
      assert order == order[..n] + [order[n]];
      Candidates(chs, order[..n], length) +
      (if order[n] in chs && IsCandidate(chs[order[n]], length) then [order[n]] else [])
  }

  lemma {:induction false} FiltersKeepNoDup(chs: Views, order: seq<string>, length: nat)
    requires NoDup(order)
    ensures NoDup(Dests(chs, order)) && NoDup(Candidates(chs, order, length))
    decreases |order|
  {
    if order == [] {
    } else {
      var n := |order| - 1;
      assert order == order[..n] + [order[n]];
      FiltersKeepNoDup(chs, order[..n], length);
      assert order[n] !in order[..n];
    }
  }

  /** Whatever microphones, volumes and buffers are, the receivers are the same ones. */
  lemma {:induction false} ReceiversIgnoreSound(chs: Views, chs': Views, order: seq<string>)
    requires chs.Keys == chs'.Keys
    requires forall id :: id in chs ==> chs'[id].ready == chs[id].ready && chs'[id].failed == chs[id].failed
    ensures Dests(chs', order) == Dests(chs, order)
    decreases |order|
  {
    if order == [] {
    } else {
      var n := |order| - 1;
      ReceiversIgnoreSound(chs, chs', order[..n]);
      assert order[n] in chs <==> order[n] in chs.Keys;
    }
  }

  /** std::sort by descending volume: some descending arrangement of the candidates. */
  ghost predicate Ranked(chs: Views, candidates: seq<string>, sorted: seq<string>) {
    && multiset(sorted) == multiset(candidates)
    && (forall id :: id in sorted ==> id in chs)
    && (forall i, j :: 0 <= i < j < |sorted| ==> chs[sorted[i]].volume >= chs[sorted[j]].volume)
  }

  /** The blocks read for mixing: from the first five channels, as far as their buffers, which other
      threads may have cut since they were ranked, still hold enough. */
  function Pushed(bufs: Buffers, sorted: seq<string>, length: nat): (r: Buffers)
    ensures forall id :: id in r ==>
            id in sorted && id in bufs && |bufs[id]| >= length > 0 && r[id] == bufs[id][..length]
    decreases |sorted|
  {
    if sorted == [] then map[] else
      var n := |sorted| - 1;
      assert sorted == sorted[..n] + [sorted[n]];
      PushStep(Pushed(bufs, sorted[..n], length), bufs, n, sorted[n], length)
  }

  function PushStep(src: Buffers, bufs: Buffers, n: nat, id: string, length: nat): Buffers {
    if n < MAX_MIXED && id in bufs && |bufs[id]| >= length > 0 && id !in src
    then src[id := bufs[id][..length]] else src
  }

  /** The buffers after the reads: every ranked channel gives up a block. */
  function Consumed(bufs: Buffers, sorted: seq<string>, length: nat): Buffers {
    map id | id in bufs :: if id in sorted && |bufs[id]| >= length then bufs[id][length..] else bufs[id]
  }

  function Buf(chs: Views): Buffers {
    map id | id in chs :: chs[id].buf
  }

  /** The mixer after the blocks were pushed into it. */
  function Filled(base: Buffers, pushed: Buffers): Buffers {
    map id | id in base :: base[id] + (if id in pushed then pushed[id] else [])
  }

  /** The frame sent back to a destination: the mix of all other destinations. */
  function Frame(mixer: Buffers, dests: seq<string>, length: nat, id: string): seq<Sample> {
    var mixed := Mix(mixer, RemoveAll(dests, id));
    if mixed == [] then Silence(length) else mixed
  }

  /* ---- selection ---- */

  ghost predicate TopCounted(src: Buffers, sorted: seq<string>) {
    && |src| == (if |sorted| < MAX_MIXED then |sorted| else MAX_MIXED)
    && (forall id :: id in src ==> id in sorted)
    && (forall i :: 0 <= i < |sorted| && i < MAX_MIXED ==> sorted[i] in src)
  }

  lemma {:induction false} PushedCount(bufs: Buffers, sorted: seq<string>, length: nat)
    requires NoDup(sorted) && length > 0
    requires forall id :: id in sorted ==> id in bufs && |bufs[id]| >= length
    ensures TopCounted(Pushed(bufs, sorted, length), sorted)
    decreases |sorted|
  {
    if sorted == [] {
    } else {
      var n := |sorted| - 1;
      assert sorted == sorted[..n] + [sorted[n]];
      PushedCount(bufs, sorted[..n], length);
      StepCounted(Pushed(bufs, sorted[..n], length), bufs, sorted, n, length);
    }
  }

  lemma StepCounted(src: Buffers, bufs: Buffers, sorted: seq<string>, n: nat, length: nat)
    requires NoDup(sorted) && length > 0 && n + 1 == |sorted| && TopCounted(src, sorted[..n])
    requires sorted[n] in bufs && |bufs[sorted[n]]| >= length
    ensures TopCounted(PushStep(src, bufs, n, sorted[n], length), sorted)
  {
    var after := PushStep(src, bufs, n, sorted[n], length);
    assert sorted[n] !in sorted[..n];
    if n < MAX_MIXED {
      assert after.Keys == src.Keys + {sorted[n]};
    }
    forall i | 0 <= i < |sorted| && i < MAX_MIXED ensures sorted[i] in after {
      assert i < n ==> sorted[..n][i] == sorted[i];
    }
  }

  ghost predicate FromTop(src: Buffers, sorted: seq<string>) {
    && |src| <= MAX_MIXED && |src| <= |sorted|
    && forall id :: id in src ==> exists i :: 0 <= i < |sorted| && i < MAX_MIXED && sorted[i] == id
  }

  lemma {:induction false} PushedFromTop(bufs: Buffers, sorted: seq<string>, length: nat)
    ensures FromTop(Pushed(bufs, sorted, length), sorted)
    decreases |sorted|
  {
    if sorted == [] {
    } else {
      var n := |sorted| - 1;
      PushedFromTop(bufs, sorted[..n], length);
      StepFromTop(Pushed(bufs, sorted[..n], length), bufs, sorted, n, length);
    }
  }

  lemma StepFromTop(src: Buffers, bufs: Buffers, sorted: seq<string>, n: nat, length: nat)
    requires n + 1 == |sorted| && FromTop(src, sorted[..n])
    ensures FromTop(PushStep(src, bufs, n, sorted[n], length), sorted)
  {
    var after := PushStep(src, bufs, n, sorted[n], length);
    if after != src {
      assert after.Keys == src.Keys + {sorted[n]};
    }
    forall id | id in after ensures exists i :: 0 <= i < |sorted| && i < MAX_MIXED && sorted[i] == id {
      if id in src {
        var i :| 0 <= i < n && i < MAX_MIXED && sorted[..n][i] == id;
        assert sorted[i] == id;
      }
    }
  }

  /** Selection: of the channels with sound, the loudest are pushed, five at most and fewer only when
      there are fewer; each block is the oldest `length` samples of its channel. */
  lemma LoudestArePushed(chs: Views, order: seq<string>, sorted: seq<string>, length: nat)
    requires NoDup(order) && length > 0 && Ranked(chs, Candidates(chs, order, length), sorted)
    ensures var candidates := Candidates(chs, order, length);
            var pushed := Pushed(Buf(chs), sorted, length);
            && |pushed| == (if |candidates| < 5 then |candidates| else 5)
            && (forall id :: id in pushed ==> id in candidates && pushed[id] == chs[id].buf[..length])
            && (forall p, q :: p in pushed && q in candidates && q !in pushed ==> chs[p].volume >= chs[q].volume)
  {
    var candidates := Candidates(chs, order, length);
    var pushed := Pushed(Buf(chs), sorted, length);
    FiltersKeepNoDup(chs, order, length);
    SameElements(candidates, sorted);
    PushedCount(Buf(chs), sorted, length);
    PushedFromTop(Buf(chs), sorted, length);
    forall p, q | p in pushed && q in candidates && q !in pushed ensures chs[p].volume >= chs[q].volume {
      var i :| 0 <= i < |sorted| && i < MAX_MIXED && sorted[i] == p;
      assert q in sorted;
      var j :| 0 <= j < |sorted| && sorted[j] == q;
      assert j >= MAX_MIXED;
    }
  }

  lemma SameElements(a: seq<string>, b: seq<string>)
    requires multiset(a) == multiset(b)
    ensures |a| == |b| && (forall x :: x in a <==> x in b) && (NoDup(a) ==> NoDup(b))
  {
    assert |a| == |multiset(a)| == |multiset(b)| == |b|;
    assert forall x :: x in a <==> x in multiset(a);
    assert forall x :: x in b <==> x in multiset(b);
    if NoDup(a) {
      forall i, j | 0 <= i < j < |b| ensures b[i] != b[j] {
        NoDupCounts(a, b[i]);
        if b[i] == b[j] { TwiceCounts(b, i, j); }
      }
    }
  }

  lemma {:induction false} NoDupCounts(s: seq<string>, x: string)
    requires NoDup(s)
    ensures multiset(s)[x] <= 1
    decreases |s|
  {
    if s == [] {
    } else {
      var n := |s| - 1;
      assert s == s[..n] + [s[n]];
      NoDupCounts(s[..n], x);
      assert s[n] !in s[..n];
    }
  }

  lemma TwiceCounts(s: seq<string>, i: nat, j: nat)
    requires i < j < |s| && s[i] == s[j]
    ensures multiset(s)[s[i]] >= 2
  {
    assert s == s[..j] + [s[j]] + s[j + 1..];
    assert s[i] in s[..j];
  }

  /** Every channel with sound gives up exactly `length` samples, pushed or not; the others keep all. */
  lemma EveryCandidateIsConsumed(chs: Views, order: seq<string>, sorted: seq<string>, length: nat, id: string)
    requires Ranked(chs, Candidates(chs, order, length), sorted) && id in chs && id in order
    ensures Consumed(Buf(chs), sorted, length)[id] ==
            if IsCandidate(chs[id], length) then chs[id].buf[length..] else chs[id].buf
  {
    SameElements(Candidates(chs, order, length), sorted);
  }

  /* ---- mix-minus ---- */

  /** The mixer between ticks: its buffers are empty. */
  ghost predicate Cleared(base: Buffers) {
    forall id :: id in base ==> base[id] == []
  }

  /** The full mix of all destinations, before wrap-around. */
  function FullMix(pushed: Buffers, dests: seq<string>, k: nat): int {
    SumAt(pushed, dests, k)
  }

  lemma {:induction false} FilledSum(base: Buffers, pushed: Buffers, ids: seq<string>, k: nat)
    requires Cleared(base) && (forall id :: id in ids ==> id in base)
    ensures SumAt(Filled(base, pushed), ids, k) == SumAt(pushed, ids, k)
    decreases |ids|
  {
    if ids == [] {
    } else {
      var n := |ids| - 1;
      assert ids == ids[..n] + [ids[n]];
      FilledSum(base, pushed, ids[..n], k);
      assert base[ids[n]] == [];
    }
  }

  /** A mix of blocks of one length has that length, or is empty where nobody has a block. */
  lemma MixOfBlocks(base: Buffers, pushed: Buffers, ids: seq<string>, length: nat)
    requires Cleared(base) && (forall d :: d in ids ==> d in base)
    requires forall p :: p in pushed ==> |pushed[p]| == length
    ensures var mixed := Mix(Filled(base, pushed), ids);
            if exists d :: d in ids && d in pushed then |mixed| == length else mixed == []
  {
    var mixer := Filled(base, pushed);
    assert forall d :: d in ids ==> d in mixer && mixer[d] == if d in pushed then pushed[d] else [];
    LongestOf(mixer, ids, length);
  }

  lemma MixAt(base: Buffers, pushed: Buffers, ids: seq<string>, k: nat)
    requires Cleared(base) && (forall d :: d in ids ==> d in base)
    ensures var mixed := Mix(Filled(base, pushed), ids);
            k < |mixed| ==> mixed[k] == Wrap16(SumAt(pushed, ids, k))
  {
    FilledSum(base, pushed, ids, k);
  }

  /** The mixer has a stream for each of the channels. */
  predicate Known(base: Buffers, ids: seq<string>) {
    forall d :: d in ids ==> d in base
  }

  /** The frame a list of senders makes, always of the standard length: their sum in 16-bit arithmetic if
      the mixer knows them all, silence otherwise. */
  lemma FrameOfOthers(base: Buffers, pushed: Buffers, dests: seq<string>, length: nat, id: string, k: nat)
    requires Cleared(base) && k < length && forall p :: p in pushed ==> |pushed[p]| == length
    ensures var frame, others := Frame(Filled(base, pushed), dests, length, id), RemoveAll(dests, id);
            |frame| == length && frame[k] == if Known(base, others) then Wrap16(SumAt(pushed, others, k)) else 0
  {
    var others := RemoveAll(dests, id);
    if Known(base, others) {
      MixOfBlocks(base, pushed, others, length);
      MixAt(base, pushed, others, k);
      if !exists d :: d in others && d in pushed {
        SilentSum(pushed, others, k);
      }
    } else {
      var d :| d in others && d !in base;
      assert d !in Filled(base, pushed);
    }
  }

  /** The mixer has a stream for every destination but this one, which may have one. */
  predicate OthersKnown(base: Buffers, dests: seq<string>, id: string) {
    forall d :: d in dests && d != id ==> d in base
  }

  lemma OthersKnownIff(base: Buffers, dests: seq<string>, id: string)
    ensures Known(base, RemoveAll(dests, id)) <==> OthersKnown(base, dests, id)
  {
    RemoveAllElements(dests, id);
    if OthersKnown(base, dests, id) {
      forall d | d in RemoveAll(dests, id) ensures d in base {
        assert d in dests && d != id;
      }
    }
    if Known(base, RemoveAll(dests, id)) {
      forall d | d in dests && d != id ensures d in base {
        assert d in RemoveAll(dests, id);
      }
    }
  }

  /** Mix-minus: the frame sent back to a destination is the full mix less its own block, sample by
      sample in 16-bit arithmetic, if the mixer has a stream for every other destination, and silence if
      it lacks one of them. */
  lemma FrameIsMixMinus(base: Buffers, pushed: Buffers, dests: seq<string>, length: nat, id: string, k: nat)
    requires Cleared(base) && NoDup(dests) && id in dests && k < length
    requires forall p :: p in pushed ==> |pushed[p]| == length
    ensures var frame := Frame(Filled(base, pushed), dests, length, id);
            |frame| == length &&
            frame[k] == if OthersKnown(base, dests, id)
                        then Wrap16(FullMix(pushed, dests, k) - SampleAt(pushed, id, k)) else 0
  {
    FrameOfOthers(base, pushed, dests, length, id, k);
    SumWithout(pushed, dests, id, k);
    OthersKnownIff(base, dests, id);
  }

  /** One destination without a stream in the mixer silences all the others. */
  lemma UnknownSilencesOthers(base: Buffers, pushed: Buffers, dests: seq<string>, length: nat, unknown: string,
                              id: string)
    requires unknown in dests && unknown !in base && id != unknown
    ensures Frame(Filled(base, pushed), dests, length, id) == Silence(length)
  {
    RemoveAllElements(dests, id);
    assert unknown in RemoveAll(dests, id) && unknown !in Filled(base, pushed);
  }

  /** The streams of the mixer are those of a unit's members, so that while nobody joins or leaves every
      destination hears the mix of the others ... */
  lemma MembersAreKnown(m: MpuState.Mpu, chs: Views, base: Buffers, order: seq<string>)
    requires MpuState.Agreement(m) && chs.Keys == m.apcs.Keys && base.Keys == m.mixer
    ensures Known(base, Dests(chs, order))
  {
  }

  /** ... but a member that leaves after the channels were looked at, and before they are mixed, silences
      the tick for all the others. */
  lemma LeaverSilencesTick(g: PortAllocator.Range, m: MpuState.Mpu, ports: set<nat>, gone: string,
                           chs: Views, base: Buffers, order: seq<string>, sorted: seq<string>, length: nat, id: string)
    requires chs.Keys == m.apcs.Keys && gone in Dests(chs, order) && id != gone
    requires base.Keys == MpuState.RemoveChannel(g, m, ports, gone).0.mixer
    ensures TickFrame(chs, base, order, sorted, length, id) == Silence(length)
  {
    UnknownSilencesOthers(base, Pushed(Buf(chs), sorted, length), Dests(chs, order), length, gone, id);
  }

  /** So does a member that is joining: it is a channel before it has a stream. */
  lemma JoinerSilencesTick(m: MpuState.Mpu, e: MpuState.Event, reached: nat, chs: Views, base: Buffers,
                           order: seq<string>, sorted: seq<string>, length: nat, id: string)
    requires MpuState.Agreement(m) && e.Add? && e.id !in m.apcs && 1 <= reached <= 2
    requires var m' := MpuState.PartlyAdded(m, e, reached); chs.Keys == m'.apcs.Keys && base.Keys == m'.mixer
    requires e.id in Dests(chs, order) && id != e.id
    ensures TickFrame(chs, base, order, sorted, length, id) == Silence(length)
  {
    UnknownSilencesOthers(base, Pushed(Buf(chs), sorted, length), Dests(chs, order), length, e.id, id);
  }

  /* ---- the mix in terms of the channels' buffers ---- */

  /** The sample of a channel's buffer at a position; zero if there is none. */
  function BufAt(bufs: Buffers, id: string, k: nat): int {
    if id in bufs && k < |bufs[id]| then bufs[id][k] else 0
  }

  /** The sum of some buffers at a position. */
  function TopSum(bufs: Buffers, top: seq<string>, k: nat): int
    decreases |top|
  {
    if top == [] then 0 else TopSum(bufs, top[..|top| - 1], k) + BufAt(bufs, top[|top| - 1], k)
  }

  /** The five loudest, or all if there are fewer. */
  function Loudest(sorted: seq<string>): (r: seq<string>)
    ensures forall id :: id in r ==> id in sorted
  {
    if |sorted| <= 5 then sorted else sorted[..5]
  }

  lemma {:induction false} SumGrown(m: Buffers, id: string, block: seq<Sample>, ids: seq<string>, k: nat)
    requires NoDup(ids) && id !in m && k < |block|
    ensures SumAt(m[id := block], ids, k) == SumAt(m, ids, k) + (if id in ids then block[k] else 0)
    decreases |ids|
  {
    if ids == [] {
    } else {
      var n := |ids| - 1;
      assert ids == ids[..n] + [ids[n]];
      SumGrown(m, id, block, ids[..n], k);
      assert ids[n] !in ids[..n];
    }
  }

  /** What was pushed adds up to the oldest samples of the loudest channels. */
  lemma {:induction false} PushedSum(bufs: Buffers, sorted: seq<string>, length: nat, dests: seq<string>, k: nat)
    requires NoDup(dests) && NoDup(sorted) && k < length
    requires forall id :: id in sorted ==> id in dests && id in bufs && |bufs[id]| >= length
    ensures SumAt(Pushed(bufs, sorted, length), dests, k) == TopSum(bufs, Loudest(sorted), k)
    decreases |sorted|
  {
    if sorted == [] {
      SilentSum(Pushed(bufs, sorted, length), dests, k);
    } else {
      var n := |sorted| - 1;
      var id := sorted[n];
      assert sorted == sorted[..n] + [id];
      assert id !in sorted[..n];
      PushedSum(bufs, sorted[..n], length, dests, k);
      if n < 5 {
        SumGrown(Pushed(bufs, sorted[..n], length), id, bufs[id][..length], dests, k);
        assert Loudest(sorted) == sorted && Loudest(sorted[..n]) == sorted[..n];
      } else {
        assert Loudest(sorted) == Loudest(sorted[..n]);
      }
    }
  }

  lemma PushedAreLoudest(src: Buffers, sorted: seq<string>, id: string)
    requires TopCounted(src, sorted) && FromTop(src, sorted)
    ensures id in src <==> id in Loudest(sorted)
  {
    if id in Loudest(sorted) {
      var i :| 0 <= i < |Loudest(sorted)| && Loudest(sorted)[i] == id;
      assert sorted[i] == id;
    }
    if id in src {
      var i :| 0 <= i < |sorted| && i < MAX_MIXED && sorted[i] == id;
      assert Loudest(sorted)[i] == id;
    }
  }

  lemma PushedSample(bufs: Buffers, sorted: seq<string>, length: nat, id: string, k: nat)
    requires NoDup(sorted) && k < length
    requires forall d :: d in sorted ==> d in bufs && |bufs[d]| >= length
    ensures SampleAt(Pushed(bufs, sorted, length), id, k) == if id in Loudest(sorted) then BufAt(bufs, id, k) else 0
  {
    PushedCount(bufs, sorted, length);
    PushedFromTop(bufs, sorted, length);
    PushedAreLoudest(Pushed(bufs, sorted, length), sorted, id);
  }

  /** The sample a destination is sent: nothing if no channel has sound, or if the mixer lacks a stream of
      another destination; else the sum of the oldest samples of the five loudest channels less its own, if it
      is one of them, in 16-bit arithmetic. */
  function MixMinusAt(bufs: Buffers, base: Buffers, dests: seq<string>, sorted: seq<string>, id: string,
                      k: nat): Sample
  {
    if sorted == [] || exists d :: d in dests && d != id && d !in base then 0
    else Wrap16(TopSum(bufs, Loudest(sorted), k) - if id in Loudest(sorted) then BufAt(bufs, id, k) else 0)
  }

  lemma MixMinusCases(bufs: Buffers, base: Buffers, dests: seq<string>, sorted: seq<string>, id: string, k: nat)
    requires sorted != []
    ensures MixMinusAt(bufs, base, dests, sorted, id, k) ==
            if OthersKnown(base, dests, id)
            then Wrap16(TopSum(bufs, Loudest(sorted), k) - if id in Loudest(sorted) then BufAt(bufs, id, k) else 0)
            else 0
  {
  }

  /** Mix-minus on the buffers themselves. */
  lemma FrameOfLoudest(bufs: Buffers, base: Buffers, sorted: seq<string>, length: nat, dests: seq<string>, id: string,
                       k: nat)
    requires Cleared(base) && NoDup(dests) && NoDup(sorted) && id in dests && k < length && sorted != []
    requires forall d :: d in sorted ==> d in dests && d in bufs && |bufs[d]| >= length
    ensures var frame := Frame(Filled(base, Pushed(bufs, sorted, length)), dests, length, id);
            |frame| == length && frame[k] == MixMinusAt(bufs, base, dests, sorted, id, k)
  {
    var pushed := Pushed(bufs, sorted, length);
    MixMinusCases(bufs, base, dests, sorted, id, k);
    PushedSum(bufs, sorted, length, dests, k);
    PushedSample(bufs, sorted, length, id, k);
    hide Pushed, TopSum, Loudest, Frame, Filled, Wrap16, SampleAt, SumAt, BufAt, OthersKnown, MixMinusAt;
    FrameIsMixMinus(base, pushed, dests, length, id, k);
  }

  ghost predicate MixMinus(frame: seq<Sample>, bufs: Buffers, base: Buffers, dests: seq<string>, sorted: seq<string>,
                           length: nat, id: string)
  {
    |frame| == length && forall k :: 0 <= k < length ==> frame[k] == MixMinusAt(bufs, base, dests, sorted, id, k)
  }

  lemma FrameCarriesMix(bufs: Buffers, base: Buffers, sorted: seq<string>, length: nat, dests: seq<string>, id: string)
    requires Cleared(base) && NoDup(dests) && NoDup(sorted) && id in dests && sorted != []
    requires forall d :: d in sorted ==> d in dests && d in bufs && |bufs[d]| >= length
    ensures MixMinus(Frame(Filled(base, Pushed(bufs, sorted, length)), dests, length, id),
                     bufs, base, dests, sorted, length, id)
  {
    var frame := Frame(Filled(base, Pushed(bufs, sorted, length)), dests, length, id);
    FrameLength(bufs, base, sorted, length, dests, id);
    forall k: nat | k < length ensures frame[k] == MixMinusAt(bufs, base, dests, sorted, id, k) {
      FrameOfLoudest(bufs, base, sorted, length, dests, id, k);
    }
  }

  lemma FrameLength(bufs: Buffers, base: Buffers, sorted: seq<string>, length: nat, dests: seq<string>, id: string)
    requires Cleared(base)
    ensures |Frame(Filled(base, Pushed(bufs, sorted, length)), dests, length, id)| == length
  {
    var others := RemoveAll(dests, id);
    if Known(base, others) {
      MixOfBlocks(base, Pushed(bufs, sorted, length), others, length);
    } else {
      var d :| d in others && d !in base;
      assert d !in Filled(base, Pushed(bufs, sorted, length));
    }
  }

  /** The frame of a destination, for whole ticks. */
  function TickFrame(chs: Views, base: Buffers, order: seq<string>, sorted: seq<string>, length: nat,
                     id: string): seq<Sample>
  {
    Frame(Filled(base, Pushed(Buf(chs), sorted, length)), Dests(chs, order), length, id)
  }

  /** The same channel with other samples in its buffer. */
  ghost predicate SameButSamples(chs: Views, chs': Views, id: string) {
    && chs.Keys == chs'.Keys
    && (forall d :: d in chs && d != id ==> chs[d] == chs'[d])
    && (id in chs ==> |chs[id].buf| == |chs'[id].buf| && chs[id] == chs'[id].(buf := chs[id].buf))
  }

  lemma {:induction false} FiltersIgnoreSamples(chs: Views, chs': Views, order: seq<string>, length: nat, id: string)
    requires SameButSamples(chs, chs', id)
    ensures Dests(chs, order) == Dests(chs', order) && Candidates(chs, order, length) == Candidates(chs', order, length)
    decreases |order|
  {
    if order == [] {
    } else {
      FiltersIgnoreSamples(chs, chs', order[..|order| - 1], length, id);
      assert order[|order| - 1] in chs <==> order[|order| - 1] in chs';
    }
  }

  /** The same keys, and the same values except under one of them. */
  ghost predicate SameBut(m: Buffers, m': Buffers, id: string) {
    m.Keys == m'.Keys && forall d :: d in m && d != id ==> m[d] == m'[d]
  }

  lemma StepIgnoresSamples(src: Buffers, src': Buffers, bufs: Buffers, bufs': Buffers, n: nat, last: string,
                           length: nat, id: string)
    requires SameBut(src, src', id) && SameBut(bufs, bufs', id) && (id in bufs ==> |bufs[id]| == |bufs'[id]|)
    ensures SameBut(PushStep(src, bufs, n, last, length), PushStep(src', bufs', n, last, length), id)
  {
  }

  lemma {:induction false} PushedIgnoresSamples(bufs: Buffers, bufs': Buffers, sorted: seq<string>, length: nat,
                                                id: string)
    requires SameBut(bufs, bufs', id) && (id in bufs ==> |bufs[id]| == |bufs'[id]|)
    ensures SameBut(Pushed(bufs, sorted, length), Pushed(bufs', sorted, length), id)
    decreases |sorted|
  {
    if sorted == [] {
    } else {
      var n := |sorted| - 1;
      PushedIgnoresSamples(bufs, bufs', sorted[..n], length, id);
      StepIgnoresSamples(Pushed(bufs, sorted[..n], length), Pushed(bufs', sorted[..n], length), bufs, bufs', n,
        sorted[n], length, id);
    }
  }

  /** Noninterference: a channel's own samples, with volumes and lengths unchanged, cannot change the
      ranking ... */
  lemma OwnSamplesDoNotRank(chs: Views, chs': Views, order: seq<string>, sorted: seq<string>, length: nat, id: string)
    requires SameButSamples(chs, chs', id)
    ensures Ranked(chs, Candidates(chs, order, length), sorted) <==>
            Ranked(chs', Candidates(chs', order, length), sorted)
  {
    FiltersIgnoreSamples(chs, chs', order, length, id);
    if Ranked(chs, Candidates(chs, order, length), sorted) {
      RankedByVolume(chs, chs', Candidates(chs, order, length), sorted);
    }
    if Ranked(chs', Candidates(chs', order, length), sorted) {
      RankedByVolume(chs', chs, Candidates(chs', order, length), sorted);
    }
  }

  lemma RankedByVolume(chs: Views, chs': Views, candidates: seq<string>, sorted: seq<string>)
    requires Ranked(chs, candidates, sorted) && chs.Keys == chs'.Keys
    requires forall d :: d in chs ==> chs[d].volume == chs'[d].volume
    ensures Ranked(chs', candidates, sorted)
  {
  }

  /** ... nor the frame that is sent back to it. */
  lemma OwnSamplesNotHeard(chs: Views, chs': Views, base: Buffers, order: seq<string>, sorted: seq<string>,
                           length: nat, id: string)
    requires SameButSamples(chs, chs', id)
    ensures TickFrame(chs, base, order, sorted, length, id) == TickFrame(chs', base, order, sorted, length, id)
  {
    var p, p' := Pushed(Buf(chs), sorted, length), Pushed(Buf(chs'), sorted, length);
    var dests := Dests(chs, order);
    FiltersIgnoreSamples(chs, chs', order, length, id);
    PushedIgnoresSamples(Buf(chs), Buf(chs'), sorted, length, id);
    OwnBlockNotHeard(base, p, p', dests, length, id);
  }

  lemma OwnBlockNotHeard(base: Buffers, p: Buffers, p': Buffers, dests: seq<string>, length: nat, id: string)
    requires SameBut(p, p', id)
    ensures Frame(Filled(base, p), dests, length, id) == Frame(Filled(base, p'), dests, length, id)
  {
    RemoveAllElements(dests, id);
    MixCongruent(Filled(base, p), Filled(base, p'), RemoveAll(dests, id));
  }

  /** The iteration order of the channel map cannot be heard: any order of the destinations gives the same
      frame. */
  lemma OrderNotHeard(base: Buffers, pushed: Buffers, dests: seq<string>, dests': seq<string>, length: nat, id: string)
    requires Cleared(base) && NoDup(dests) && multiset(dests) == multiset(dests') && id in dests && length > 0
    requires forall p :: p in pushed ==> |pushed[p]| == length
    ensures Frame(Filled(base, pushed), dests, length, id) == Frame(Filled(base, pushed), dests', length, id)
  {
    SameElements(dests, dests');
    var mixer := Filled(base, pushed);
    var frame, frame' := Frame(mixer, dests, length, id), Frame(mixer, dests', length, id);
    SameSamples(base, pushed, dests, dests', length, id, 0, frame, frame');
    forall k: nat | k < length ensures frame[k] == frame'[k] {
      SameSamples(base, pushed, dests, dests', length, id, k, frame, frame');
    }
  }

  lemma SameSamples(base: Buffers, pushed: Buffers, dests: seq<string>, dests': seq<string>, length: nat, id: string,
                    k: nat, frame: seq<Sample>, frame': seq<Sample>)
    requires Cleared(base) && NoDup(dests) && NoDup(dests') && id in dests && id in dests' && k < length
    requires multiset(dests) == multiset(dests') && forall d :: d in dests <==> d in dests'
    requires forall p :: p in pushed ==> |pushed[p]| == length
    requires frame == Frame(Filled(base, pushed), dests, length, id)
    requires frame' == Frame(Filled(base, pushed), dests', length, id)
    ensures |frame| == |frame'| == length && frame[k] == frame'[k]
  {
    SumPermuted(pushed, dests, dests', k);
    FrameIsMixMinus(base, pushed, dests, length, id, k);
    FrameIsMixMinus(base, pushed, dests', length, id, k);
    assert OthersKnown(base, dests, id) <==> OthersKnown(base, dests', id);
  }

  /* ---- the silence cadence ---- */

  /** An idle turn: the new idle count, and whether a silent frame goes out. */
  function IdleTurn(count: nat): (nat, bool) {
    if count + 1 >= IDLE_LIMIT then (0, true) else (count + 1, false)
  }

  /** n idle turns in a row: the count they leave and the silent frames they send. */
  function IdleTurns(count: nat, n: nat): (nat, nat)
    decreases n
  {
    if n == 0 then (count, 0) else
      var r := IdleTurns(count, n - 1);
      var t := IdleTurn(r.0);
      (t.0, r.1 + if t.1 then 1 else 0)
  }

  /** While nobody speaks, exactly every fifth turn sends silence. */
  lemma {:induction false} EveryFifthIsSilence(count: nat, n: nat)
    requires count < 5
    ensures IdleTurns(count, n) == ((count + n) % 5, (count + n) / 5)
  {
    if n == 0 {
    } else {
      EveryFifthIsSilence(count, n - 1);
      NextFifth(count + n - 1);
    }
  }

  lemma NextFifth(c: nat)
    ensures (c + 1) % IDLE_LIMIT == IdleTurn(c % IDLE_LIMIT).0
    ensures (c + 1) / IDLE_LIMIT == c / IDLE_LIMIT + if IdleTurn(c % IDLE_LIMIT).1 then 1 else 0
  {
  }
}

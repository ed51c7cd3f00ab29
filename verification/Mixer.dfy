/** The audio mixer (inc/remix/remix.cpp): the sum, in 16-bit wrap-around arithmetic, of the buffers of
    the queued streams. */
module Mixer {
  import opened Lists
  import opened Pcm

  type Buffers = map<string, seq<Sample>>

  /** A stream's sample at a position, zero beyond its end. */
  function SampleAt(m: Buffers, id: string, k: nat): int {
    if id in m && k < |m[id]| then m[id][k] else 0
  }

  function SumAt(m: Buffers, ids: seq<string>, k: nat): int
    decreases |ids|
  {
    if ids == [] then 0 else SumAt(m, ids[..|ids| - 1], k) + SampleAt(m, ids[|ids| - 1], k)
  }

  function Longest(m: Buffers, ids: seq<string>): nat
    decreases |ids|
  {
    if ids == [] then 0 else
      var n := Longest(m, ids[..|ids| - 1]);
      var id := ids[|ids| - 1];
      if id in m && |m[id]| > n then |m[id]| else n
  }

  /** mixAudio: nothing at all if a queued stream is unknown. */
  function Mix(m: Buffers, ids: seq<string>): seq<Sample> {
    if exists id :: id in ids && id !in m then [] else
      seq(Longest(m, ids), k requires 0 <= k => Wrap16(SumAt(m, ids, k)))
  }

  /** Dropping one stream from the queue subtracts its samples from the sum. */
  lemma {:induction false} SumWithout(m: Buffers, ids: seq<string>, j: string, k: nat)
    requires NoDup(ids)
    ensures SumAt(m, RemoveAll(ids, j), k) == SumAt(m, ids, k) - (if j in ids then SampleAt(m, j, k) else 0)
    decreases |ids|
  {
    if ids == [] {
    } else {
      var before, last := ids[..|ids| - 1], ids[|ids| - 1];
      assert ids == before + [last];
      RemoveAllSnoc(before, last, j);
      SumWithout(m, before, j, k);
      if last == j {
        assert j !in before;
        assert RemoveAll(ids, j) == RemoveAll(before, j);
      } else {
        var r := RemoveAll(before, j);
        assert (r + [last])[..|r|] == r;
      }
    }
  }

  /** The queue order does not matter. */
  lemma {:induction false} SumPermuted(m: Buffers, a: seq<string>, b: seq<string>, k: nat)
    requires multiset(a) == multiset(b)
    ensures SumAt(m, a, k) == SumAt(m, b, k)
    decreases |a|
  {
    if a == [] {
      assert |multiset(b)| == 0;
    } else {
      var front, last := a[..|a| - 1], a[|a| - 1];
      assert a == front + [last];
      assert last in multiset(b);
      var i :| 0 <= i < |b| && b[i] == last;
      var before, after := b[..i], b[i + 1..];
      assert b == before + [last] + after;
      SameRest(front, last, before, after);
      SumPermuted(m, front, before + after, k);
      SumMoved(m, before, last, after, k);
    }
  }

  lemma SameRest(front: seq<string>, last: string, before: seq<string>, after: seq<string>)
    requires multiset(front + [last]) == multiset(before + [last] + after)
    ensures multiset(front) == multiset(before + after)
  {
    assert multiset(front) == multiset(front + [last]) - multiset{last};
    assert multiset(before + after) == multiset(before + [last] + after) - multiset{last};
  }

  lemma {:induction false} SumMoved(m: Buffers, a: seq<string>, x: string, b: seq<string>, k: nat)
    ensures SumAt(m, a + [x] + b, k) == SumAt(m, a + b, k) + SampleAt(m, x, k)
    decreases |b|
  {
    if b == [] {
      assert a + [x] + b == a + [x] && (a + [x])[..|a|] == a && a + b == a;
    } else {
      var n := |b| - 1;
      assert (a + [x] + b)[..|a| + 1 + n] == a + [x] + b[..n];
      assert (a + b)[..|a| + n] == a + b[..n];
      SumMoved(m, a, x, b[..n], k);
    }
  }

  /** The sum, and so the mix, depends on the queued streams only. */
  lemma {:induction false} SumCongruent(m: Buffers, m': Buffers, ids: seq<string>, k: nat)
    requires forall id :: id in ids ==> (id in m <==> id in m') && (id in m ==> m[id] == m'[id])
    ensures SumAt(m, ids, k) == SumAt(m', ids, k) && Longest(m, ids) == Longest(m', ids)
    decreases |ids|
  {
    if ids == [] {
    } else {
      SumCongruent(m, m', ids[..|ids| - 1], k);
    }
  }

  lemma MixCongruent(m: Buffers, m': Buffers, ids: seq<string>)
    requires forall id :: id in ids ==> (id in m <==> id in m') && (id in m ==> m[id] == m'[id])
    ensures Mix(m, ids) == Mix(m', ids)
  {
    forall k: nat ensures SumAt(m, ids, k) == SumAt(m', ids, k) && Longest(m, ids) == Longest(m', ids) {
      SumCongruent(m, m', ids, k);
    }
    assert Longest(m, ids) == Longest(m', ids) by { SumCongruent(m, m', ids, 0); }
  }

  lemma {:induction false} LongestOf(m: Buffers, ids: seq<string>, n: nat)
    requires forall id :: id in ids ==> id in m && (|m[id]| == 0 || |m[id]| == n)
    ensures Longest(m, ids) == if exists id :: id in ids && |m[id]| == n then n else 0
    decreases |ids|
  {
    if ids == [] {
    } else {
      var before := ids[..|ids| - 1];
      assert ids == before + [ids[|ids| - 1]];
      LongestOf(m, before, n);
    }
  }

  lemma {:induction false} SilentSum(m: Buffers, ids: seq<string>, k: nat)
    requires forall id :: id in ids ==> SampleAt(m, id, k) == 0
    ensures SumAt(m, ids, k) == 0
    decreases |ids|
  {
    if ids == [] {
    } else {
      SilentSum(m, ids[..|ids| - 1], k);
    }
  }

  /** The value of a stream at a position that may lie behind its end. */
  function Padded(s: seq<Sample>, k: nat): int {
    if k < |s| then s[k] else 0
  }

  /** One stream more in the queue is added sample by sample, in 16-bit wrap-around arithmetic, the shorter
      of mix and stream counting as zero behind its end; the mix of no streams is empty. */
  lemma MixOneMore(m: Buffers, ids: seq<string>, id: string, k: nat)
    requires id in m && forall d :: d in ids ==> d in m
    ensures Mix(m, []) == []
    ensures var mix, more := Mix(m, ids), Mix(m, ids + [id]);
            && |more| == (if |mix| >= |m[id]| then |mix| else |m[id]|)
            && (k < |more| ==> (more[k] - Padded(mix, k) - Padded(m[id], k)) % 0x1_0000 == 0)
  {
    assert (ids + [id])[..|ids|] == ids;
    LongestBounds(m, ids, k);
    WrapApart(SumAt(m, ids, k), Padded(m[id], k));
    assert SumAt(m, ids + [id], k) == SumAt(m, ids, k) + Padded(m[id], k);
    assert forall d :: d in ids + [id] ==> d in m;
  }

  lemma WrapApart(a: int, b: int)
    ensures (Wrap16(a + b) - Wrap16(a) - b) % 0x1_0000 == 0
  {
    assert Wrap16(0) == 0;
  }

  /** Behind the longest stream there is nothing to add. */
  lemma {:induction false} LongestBounds(m: Buffers, ids: seq<string>, k: nat)
    ensures k >= Longest(m, ids) ==> SumAt(m, ids, k) == 0
    decreases |ids|
  {
    if ids == [] {
    } else {
      LongestBounds(m, ids[..|ids| - 1], k);
    }
  }

  class AudioMixer {
    var audioMap: Buffers

    constructor ()
      ensures audioMap == map[]
    {
      audioMap := map[];
    }

    method AddStreamId(id: string) returns (ok: bool)
      modifies this
      ensures ok == (id !in old(audioMap))
      ensures audioMap == if ok then old(audioMap)[id := []] else old(audioMap)
    {
      ok := id !in audioMap;
      if ok {
        audioMap := audioMap[id := []];
      }
    }

    method RemoveId(id: string) returns (ok: bool)
      modifies this
      ensures ok == (id in old(audioMap)) && audioMap == old(audioMap) - {id}
    {
      ok := id in audioMap;
      audioMap := audioMap - {id};
    }

    method PushData(id: string, audio: seq<Sample>) returns (ok: bool)
      modifies this
      ensures ok == (id in old(audioMap))
      ensures audioMap == if ok then old(audioMap)[id := old(audioMap)[id] + audio] else old(audioMap)
    {
      ok := id in audioMap;
      if ok {
        assert audioMap[id] + audio[..0] == audioMap[id];
        for k := 0 to |audio|
          invariant id in old(audioMap) && audioMap == old(audioMap)[id := old(audioMap)[id] + audio[..k]]
        {
          assert old(audioMap)[id] + audio[..k] + [audio[k]] == old(audioMap)[id] + audio[..k + 1];
          audioMap := audioMap[id := audioMap[id] + [audio[k]]];
        }
        assert audio[..|audio|] == audio;
      }
    }

    method ClearData()
      modifies this
      ensures audioMap == map id | id in old(audioMap) :: []
    {
      audioMap := map id | id in audioMap :: [];
    }

    /** getData on a queue of stream ids. */
    method GetData(ids: seq<string>) returns (mixData: seq<Sample>)
      ensures mixData == Mix(audioMap, ids)
    {
      var maxLength := 0;
      var audioData: seq<seq<Sample>> := [];
      mixData := [];
      for i := 0 to |ids|
        invariant forall id :: id in ids[..i] ==> id in audioMap
        invariant |audioData| == i && forall n :: 0 <= n < i ==> audioData[n] == audioMap[ids[n]]
        invariant maxLength == Longest(audioMap, ids[..i])
      {
        assert ids[..i + 1][..i] == ids[..i];
        if ids[i] !in audioMap {
          return;
        }
        audioData := audioData + [audioMap[ids[i]]];
        if |audioMap[ids[i]]| > maxLength {
          maxLength := |audioMap[ids[i]]|;
        }
      }
      assert ids[..|ids|] == ids;
      for m := 0 to maxLength
        invariant |mixData| == m
        invariant forall k :: 0 <= k < m ==> mixData[k] == Wrap16(SumAt(audioMap, ids, k))
      {
        var mixed := MixSample(ids, audioData, m);
        mixData := mixData + [mixed];
      }
    }

    /** The inner loop: one sample of every stream, added up in 16 bits. */
    method MixSample(ids: seq<string>, audioData: seq<seq<Sample>>, m: nat) returns (mixed: Sample)
      requires |audioData| == |ids| && forall n :: 0 <= n < |ids| ==>
               ids[n] in audioMap && audioData[n] == audioMap[ids[n]]
      ensures mixed == Wrap16(SumAt(audioMap, ids, m))
    {
      mixed := 0;
      for n := 0 to |audioData|
        invariant mixed == Wrap16(SumAt(audioMap, ids[..n], m))
      {
        var sample := if m + 1 > |audioData[n]| then 0 else audioData[n][m];
        assert ids[..n + 1][..n] == ids[..n];
        WrapSum(SumAt(audioMap, ids[..n], m), sample);
        mixed := Wrap16(mixed + sample);
      }
      assert ids[..|ids|] == ids;
    }
  }
}

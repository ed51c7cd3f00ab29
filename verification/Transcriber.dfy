/** The pool of speech transcribers and the way one of them cuts its audio (inc/aesir.hpp). */
module Transcriber {
  import opened Lists
  import opened Pcm
  import opened Text

  datatype Status = Null | Idle | Busy

  type Pool = map<string, Status>

  /* ---- the pool ---- */

  /** The first idle unit in the order of the map. */
  function FirstIdle(pool: Pool, order: seq<string>): (r: Option<string>)
    ensures r.Some? ==> r.value in order && r.value in pool && pool[r.value] == Idle
    ensures r.None? ==> forall id :: id in order && id in pool ==> pool[id] != Idle
    ensures r.Some? ==> exists k :: 0 <= k < |order| && order[k] == r.value && NoneIdle(pool, order, k)
  {
    if order == [] then None
    else if order[0] in pool && pool[order[0]] == Idle then
      assert NoneIdle(pool, order, 0);
      Some(order[0])
    else
      var r := FirstIdle(pool, order[1..]);
      assert r.Some? ==> exists k :: 0 <= k < |order| && order[k] == r.value && NoneIdle(pool, order, k) by {
        if r.Some? { IdleBehind(pool, order, r.value); }
      }
      r
  }

  /** None of the first k units is idle. */
  ghost predicate NoneIdle(pool: Pool, order: seq<string>, k: nat) {
    forall i :: 0 <= i < k && i < |order| && order[i] in pool ==> pool[order[i]] != Idle
  }

  lemma IdleBehind(pool: Pool, order: seq<string>, id: string)
    requires order != [] && (order[0] in pool ==> pool[order[0]] != Idle)
    requires exists k :: 0 <= k < |order[1..]| && order[1..][k] == id && NoneIdle(pool, order[1..], k)
    ensures exists k :: 0 <= k < |order| && order[k] == id && NoneIdle(pool, order, k)
  {
    var k :| 0 <= k < |order[1..]| && order[1..][k] == id && NoneIdle(pool, order[1..], k);
    assert order[k + 1] == id;
    forall i | 0 <= i < k + 1 && order[i] in pool ensures pool[order[i]] != Idle {
      if i > 0 { assert order[i] == order[1..][i - 1]; }
    }
    assert NoneIdle(pool, order, k + 1);
  }

  /** init starts the thread of a unit that has none, which is then idle. */
  function Initialised(s: Status): Status {
    if s == Null then Idle else s
  }

  /** One unit after try_emplace and init: a new one is idle. */
  function WithUnit(pool: Pool, id: string): Pool {
    pool[id := if id in pool then Initialised(pool[id]) else Idle]
  }

  function StartedUp(pool: Pool, preInit: nat): Pool {
    if preInit == 0 then pool else WithUnit(StartedUp(pool, preInit - 1), NatText(preInit - 1))
  }

  /** The decimal text of a number from 0 to n - 1. */
  ghost predicate IsNumberBelow(id: string, n: int) {
    exists i: nat :: i < n && NatText(i) == id
  }

  /** Startup adds the numbers that are missing, wakes those that are stopped, and leaves the rest. */
  lemma {:induction false} StartedUpExactly(pool: Pool, n: nat)
    ensures var r := StartedUp(pool, n);
            && (forall id :: id in r <==> id in pool || IsNumberBelow(id, n))
            && (forall id :: id in r ==>
                  r[id] == if IsNumberBelow(id, n) && !(id in pool && pool[id] == Busy) then Idle else pool[id])
  {
    if n == 0 {
    } else {
      StartedUpExactly(pool, n - 1);
      forall id ensures IsNumberBelow(id, n) <==> IsNumberBelow(id, n - 1) || id == NatText(n - 1) {
        if IsNumberBelow(id, n) {
          var i: nat :| i < n && NatText(i) == id;
          assert i < n - 1 || i == n - 1;
        }
      }
    }
  }

  /** The id that is leased out next: an idle unit if there is one, else the next number. */
  function NextId(pool: Pool, order: seq<string>): string {
    match FirstIdle(pool, order)
    case Some(id) => id
    case None => NatText(|pool|)
  }

  lemma NextIdIs(pool: Pool, order: seq<string>)
    requires Elements(order) == pool.Keys
    ensures var next := NextId(pool, order);
            if exists id :: id in pool && pool[id] == Idle
            then next in pool && pool[next] == Idle &&
                 exists k :: 0 <= k < |order| && order[k] == next && NoneIdle(pool, order, k)
            else next == NatText(|pool|)
  {
    forall id | id in pool ensures id in order {
      assert id in Elements(order);
    }
  }

  function Leased(pool: Pool, order: seq<string>): Pool {
    pool[NextId(pool, order) := Busy]
  }

  function Returned(pool: Pool, id: string): Pool {
    if id in pool then pool[id := Idle] else pool
  }

  class TranscriberManager {
    var transerMap: Pool

    constructor ()
      ensures transerMap == map[]
    {
      transerMap := map[];
    }

    method Startup(preInit: int)
      modifies this
      ensures transerMap == StartedUp(old(transerMap), if preInit > 0 then preInit else 0)
      ensures forall id :: id in transerMap <==> id in old(transerMap) || IsNumberBelow(id, preInit)
      ensures forall id :: id in transerMap ==>
                var busy := id in old(transerMap) && old(transerMap)[id] == Busy;
                transerMap[id] == if IsNumberBelow(id, preInit) && !busy then Idle else old(transerMap)[id]
    {
      StartedUpExactly(transerMap, if preInit > 0 then preInit else 0);
      var i := 0;
      while i < preInit
        invariant 0 <= i && (i <= preInit || i == 0)
        invariant transerMap == StartedUp(old(transerMap), i)
      {
        var transerId := NatText(i);
        if transerId !in transerMap {
          transerMap := transerMap[transerId := Idle];
        }
        transerMap := transerMap[transerId := Initialised(transerMap[transerId])];
        i := i + 1;
      }
    }

    /** `order` is the iteration order of the map. */
    method GetTranserId(order: seq<string>) returns (transerId: string)
      requires NoDup(order) && Elements(order) == transerMap.Keys
      modifies this
      ensures transerId == NextId(old(transerMap), order) && transerMap == Leased(old(transerMap), order)
      ensures transerMap == old(transerMap)[transerId := Busy]
      ensures if exists id :: id in old(transerMap) && old(transerMap)[id] == Idle
              then transerId in old(transerMap) && old(transerMap)[transerId] == Idle &&
                   exists k :: 0 <= k < |order| && order[k] == transerId && NoneIdle(old(transerMap), order, k)
              else transerId == NatText(|old(transerMap)|)
    {
      hide NoneIdle, NatText, NoDup;
      NextIdIs(transerMap, order);
      var i := 0;
      while i < |order|
        invariant i <= |order|
        invariant FirstIdle(transerMap, order) == FirstIdle(transerMap, order[i..])
        invariant transerMap == old(transerMap)
      {
        if transerMap[order[i]] == Idle {
          transerMap := transerMap[order[i] := Busy];
          return order[i];
        }
        i := i + 1;
      }
      CountKeys(transerMap, order);
      transerId := NatText(i);
      transerMap := WithUnit(transerMap, transerId);
      transerMap := transerMap[transerId := Busy];
    }

    method ReleaseTranser(transerId: string) returns (ok: bool)
      modifies this
      ensures ok == (transerId in old(transerMap)) && transerMap == Returned(old(transerMap), transerId)
      ensures transerMap == if ok then old(transerMap)[transerId := Idle] else old(transerMap)
    {
      ok := transerId in transerMap;
      if ok {
        transerMap := transerMap[transerId := Idle];
      }
    }
  }

  lemma {:induction false} CountElements(s: seq<string>)
    requires NoDup(s)
    ensures |Elements(s)| == |s|
    decreases |s|
  {
    if s == [] {
    } else {
      var n := |s| - 1;
      CountElements(s[..n]);
      assert s == s[..n] + [s[n]];
      assert Elements(s) == Elements(s[..n]) + {s[n]};
      assert s[n] !in s[..n];
    }
  }

  lemma CountKeys(pool: Pool, order: seq<string>)
    requires NoDup(order) && Elements(order) == pool.Keys
    ensures |order| == |pool|
  {
    CountElements(order);
  }

  /* ---- runs ---- */

  datatype Op = Get(order: seq<string>) | Release(id: string)

  /** `leases` are the ids handed out and not given back, `peak` their largest number so far. */
  datatype State = State(pool: Pool, leases: set<string>, peak: nat)

  function Max(a: nat, b: nat): nat {
    if a >= b then a else b
  }

  ghost predicate Possible(s: State, op: Op) {
    match op
    case Get(order) => NoDup(order) && Elements(order) == s.pool.Keys
    case Release(id) => id in s.leases
  }

  function Next(s: State, op: Op): State {
    match op
    case Get(order) =>
      var leases := s.leases + {NextId(s.pool, order)};
      State(Leased(s.pool, order), leases, Max(s.peak, |leases|))
    case Release(id) => State(Returned(s.pool, id), s.leases - {id}, s.peak)
  }

  function Run(s: State, ops: seq<Op>): State
    decreases |ops|
  {
    if ops == [] then s else Next(Run(s, ops[..|ops| - 1]), ops[|ops| - 1])
  }

  ghost predicate PossibleRun(s: State, ops: seq<Op>)
    decreases |ops|
  {
    ops == [] || (PossibleRun(s, ops[..|ops| - 1]) && Possible(Run(s, ops[..|ops| - 1]), ops[|ops| - 1]))
  }

  function Fresh(preInit: nat): State {
    State(StartedUp(map[], preInit), {}, 0)
  }

  /** The decimal numbers below n. */
  function Numbers(n: nat): (r: set<string>)
    decreases n
  {
    if n == 0 then {} else Numbers(n - 1) + {NatText(n - 1)}
  }

  lemma TextsDiffer(m: nat, n: nat)
    ensures NatText(m) == NatText(n) ==> m == n
  {
    NatReadBack(m, "");
    NatReadBack(n, "");
  }

  lemma {:induction false} NumbersBelow(n: nat, m: nat)
    ensures NatText(m) in Numbers(n) <==> m < n
    ensures |Numbers(n)| == n
    decreases n
  {
    if n == 0 {
    } else {
      NumbersBelow(n - 1, m);
      NumbersBelow(n - 1, n - 1);
      TextsDiffer(m, n - 1);
    }
  }

  lemma {:induction false} StartupMakesNumbers(n: nat)
    ensures var pool := StartedUp(map[], n);
            pool.Keys == Numbers(n) && forall id :: id in pool ==> pool[id] == Idle
  {
    if n == 0 {
    } else {
      StartupMakesNumbers(n - 1);
    }
  }

  /** What every reachable state keeps: the keys are exactly the numbers below the size, a unit is busy
      exactly while it is leased, and the size is what was needed so far. */
  ghost predicate Sound(s: State, preInit: nat) {
    && s.pool.Keys == Numbers(|s.pool|)
    && s.leases <= s.pool.Keys
    && (forall id :: id in s.pool ==> s.pool[id] == if id in s.leases then Busy else Idle)
    && |s.pool| == Max(preInit, s.peak)
    && |s.leases| <= s.peak
  }

  lemma GetIdleKeepsSound(s: State, order: seq<string>, preInit: nat)
    requires Sound(s, preInit) && FirstIdle(s.pool, order).Some?
    ensures Sound(Next(s, Get(order)), preInit) && NextId(s.pool, order) !in s.leases
  {
    var id := NextId(s.pool, order);
    assert Leased(s.pool, order).Keys == s.pool.Keys;
    SubsetSize(s.leases + {id}, s.pool.Keys);
  }

  lemma GetNewKeepsSound(s: State, order: seq<string>, preInit: nat)
    requires Sound(s, preInit) && FirstIdle(s.pool, order).None? && Elements(order) == s.pool.Keys
    ensures Sound(Next(s, Get(order)), preInit) && NextId(s.pool, order) !in s.leases
  {
    var n := |s.pool|;
    NumbersBelow(n, n);
    forall k | k in s.pool ensures k in s.leases {
      assert k in Elements(order);
    }
    assert s.leases == s.pool.Keys;
    assert Leased(s.pool, order).Keys == s.pool.Keys + {NatText(n)} == Numbers(n + 1);
  }

  lemma GetKeepsSound(s: State, order: seq<string>, preInit: nat)
    requires Sound(s, preInit) && NoDup(order) && Elements(order) == s.pool.Keys
    ensures Sound(Next(s, Get(order)), preInit) && NextId(s.pool, order) !in s.leases
  {
    if FirstIdle(s.pool, order).Some? {
      GetIdleKeepsSound(s, order, preInit);
    } else {
      GetNewKeepsSound(s, order, preInit);
    }
  }

  lemma {:induction false} SubsetSize<T>(a: set<T>, b: set<T>)
    requires a <= b
    ensures |a| <= |b|
  {
    if a == {} {
    } else {
      var x :| x in a;
      SubsetSize(a - {x}, b - {x});
    }
  }

  lemma ReleaseKeepsSound(s: State, id: string, preInit: nat)
    requires Sound(s, preInit) && id in s.leases
    ensures Sound(Next(s, Release(id)), preInit)
  {
    assert Returned(s.pool, id).Keys == s.pool.Keys;
  }

  /** Over every run in which only holders release: the invariant holds. */
  lemma {:induction false} PoolIsSound(preInit: nat, ops: seq<Op>)
    requires PossibleRun(Fresh(preInit), ops)
    ensures Sound(Run(Fresh(preInit), ops), preInit)
    decreases |ops|
  {
    if ops == [] {
      StartupMakesNumbers(preInit);
      NumbersBelow(preInit, 0);
      assert StartedUp(map[], preInit).Keys == Numbers(preInit);
    } else {
      var before := ops[..|ops| - 1];
      PoolIsSound(preInit, before);
      var s := Run(Fresh(preInit), before);
      match ops[|ops| - 1]
      case Get(order) => GetKeepsSound(s, order, preInit);
      case Release(id) => ReleaseKeepsSound(s, id, preInit);
    }
  }

  /** No id is leased twice at once. */
  lemma LeasesAreExclusive(preInit: nat, ops: seq<Op>, order: seq<string>)
    requires PossibleRun(Fresh(preInit), ops)
    requires var s := Run(Fresh(preInit), ops);
             NoDup(order) && Elements(order) == s.pool.Keys
    ensures var s := Run(Fresh(preInit), ops);
            NextId(s.pool, order) !in s.leases
  {
    PoolIsSound(preInit, ops);
    GetKeepsSound(Run(Fresh(preInit), ops), order, preInit);
  }

  /** A release by someone who holds no lease keeps the pool sound exactly if nobody else holds that id. */
  lemma ForeignReleaseIff(s: State, id: string, preInit: nat)
    requires Sound(s, preInit)
    ensures Sound(s.(pool := Returned(s.pool, id)), preInit) <==> id !in s.leases
  {
    var s' := s.(pool := Returned(s.pool, id));
    assert s'.pool.Keys == s.pool.Keys;
    if id in s.leases {
      assert s'.pool[id] == Idle;
    }
  }

  /** A release by someone who is not the holder can lease one id to two holders at once. */
  lemma ForeignReleaseShares()
    ensures var s := Next(Fresh(1), Get(["0"]));
            var foreign := Returned(s.pool, "0");
            "0" in s.leases && NextId(foreign, ["0"]) == "0"
  {
    StartupMakesNumbers(1);
    NumbersBelow(1, 0);
    assert NatText(0) == "0";
    assert Fresh(1).pool == map["0" := Idle];
  }

  /* ---- cutting the audio ---- */

  const CHUNK_SIZE: nat := 100000
  const SLIDE_GAP: nat := 50000

  /** The size of the chunk that starts with this many samples left. */
  function ChunkSamples(remaining: nat): nat {
    if remaining < 2 * CHUNK_SIZE then remaining else CHUNK_SIZE
  }

  /** The chunks of a buffer. */
  function Chunks<S>(audio: seq<S>): seq<seq<S>>
    decreases |audio|
  {
    if audio == [] then [] else
      var n := ChunkSamples(|audio|);
      [audio[..n]] + Chunks(audio[n..])
  }

  function Flatten<S>(parts: seq<seq<S>>): seq<S> {
    if parts == [] then [] else parts[0] + Flatten(parts[1..])
  }

  /** The chunks are the buffer, cut: as many as whole chunk sizes fit, all of exactly that size except
      the last, which takes the rest along. */
  lemma {:induction false} ChunksTile<S>(audio: seq<S>)
    requires |audio| >= 100000
    ensures var chunks := Chunks(audio);
            && Flatten(chunks) == audio
            && |chunks| == |audio| / 100000
            && (forall k :: 0 <= k < |chunks| - 1 ==> |chunks[k]| == 100000)
            && |chunks[|chunks| - 1]| == 100000 + |audio| % 100000
    decreases |audio|
  {
    var n := ChunkSamples(|audio|);
    var rest := Chunks(audio[n..]);
    assert ([audio[..n]] + rest)[1..] == rest;
    if |audio| < 2 * CHUNK_SIZE {
      assert audio[n..] == [] && rest == [];
      assert audio[..n] + Flatten(rest) == audio;
    } else {
      ChunksTile(audio[n..]);
      assert audio[..n] + audio[n..] == audio;
    }
  }

  /** One chunk more of a buffer that is processed up to here. */
  lemma NextChunk<S>(audio: seq<S>, processed: nat, given: seq<seq<S>>)
    requires processed < |audio|
    ensures var end := processed + ChunkSamples(|audio| - processed);
            end <= |audio| &&
              given + Chunks(audio[processed..]) == given + [audio[processed..end]] + Chunks(audio[end..])
  {
    var n := ChunkSamples(|audio| - processed);
    var tail := audio[processed..];
    assert tail[..n] == audio[processed..processed + n] && tail[n..] == audio[processed + n..];
  }

  /** How many of the recogniser's answers accept. */
  function Accepts(answers: seq<bool>): (r: nat)
    ensures r == multiset(answers)[true]
    decreases |answers|
  {
    if answers == [] then 0 else
      assert answers == answers[..|answers| - 1] + [answers[|answers| - 1]];
      Accepts(answers[..|answers| - 1]) + (if answers[|answers| - 1] then 1 else 0)
  }

  /** The calls of a pass: each gives the recogniser the first chunk it has not accepted yet. */
  ghost predicate InTurn<S>(calls: seq<seq<S>>, chunks: seq<seq<S>>, answers: seq<bool>)
    requires |calls| <= |answers|
  {
    forall i :: 0 <= i < |calls| ==> Accepts(answers[..i]) < |chunks| && calls[i] == chunks[Accepts(answers[..i])]
  }

  lemma OneMoreCall<S>(calls: seq<seq<S>>, chunks: seq<seq<S>>, answers: seq<bool>, given: seq<seq<S>>,
                       chunk: seq<S>, rest: seq<seq<S>>)
    requires |calls| < |answers| && InTurn(calls, chunks, answers)
    requires |given| == Accepts(answers[..|calls|]) && chunks == given + [chunk] + rest
    ensures InTurn(calls + [chunk], chunks, answers)
    ensures Accepts(answers[..|calls| + 1]) == |given| + (if answers[|calls|] then 1 else 0)
  {
    var n := |calls|;
    assert answers[..n + 1][..n] == answers[..n];
    assert chunks[|given|] == chunk;
  }

  /** One pass over the buffer as far as the recogniser's `answers` reach: the chunks it is called with, a
      refused one again and again, those it accepted, and the buffer left.  A pass that is not done is
      still waiting for its chunk to be accepted. */
  method ProcessFull<S>(audioData: seq<S>, ready: bool, answers: seq<bool>)
    returns (calls: seq<seq<S>>, given: seq<seq<S>>, left: seq<S>, done: bool)
    ensures |audioData| < 100000 || !ready ==> calls == [] && given == [] && left == audioData && done
    ensures |audioData| >= 100000 && ready ==>
              && |calls| <= |answers| && InTurn(calls, Chunks(audioData), answers)
              && |given| == Accepts(answers[..|calls|]) && given <= Chunks(audioData)
              && (if done then given == Chunks(audioData) && left == audioData[50000..]
                  else |calls| == |answers| && given != Chunks(audioData) && left == audioData)
  {
    calls, given, left, done := [], [], audioData, true;
    if |audioData| < CHUNK_SIZE {
      return;
    }
    if !ready {
      return;
    }
    assert InTurn(calls, Chunks(audioData), answers) && answers[..0] == [];
    hide InTurn, Accepts;
    var processed := 0;
    while processed < |audioData| && |calls| < |answers|
      invariant 0 <= processed <= |audioData| && |calls| <= |answers|
      invariant Chunks(audioData) == given + Chunks(audioData[processed..])
      invariant |given| == Accepts(answers[..|calls|]) && InTurn(calls, Chunks(audioData), answers)
      decreases |answers| - |calls|
    {
      var remaining := |audioData| - processed;
      var chunkSamples := if remaining < CHUNK_SIZE * 2 then remaining else CHUNK_SIZE;
      var chunk := audioData[processed..processed + chunkSamples];
      NextChunk(audioData, processed, given);
      OneMoreCall(calls, Chunks(audioData), answers, given, chunk, Chunks(audioData[processed + chunkSamples..]));
      var ret := answers[|calls|];
      calls := calls + [chunk];
      if !ret {
        continue;
      }
      given := given + [chunk];
      processed := processed + chunkSamples;
    }
    done := processed == |audioData|;
    if done {
      left := if SLIDE_GAP >= |audioData| then [] else audioData[SLIDE_GAP..];
    }
  }

  /** A pass is done exactly if the recogniser accepts often enough: once for every whole chunk size. */
  lemma DoneIffAccepted<S>(audio: seq<S>, answers: seq<bool>, n: nat, given: seq<seq<S>>)
    requires |audio| >= 100000 && n <= |answers| && given <= Chunks(audio) && |given| == Accepts(answers[..n])
    requires given != Chunks(audio) ==> n == |answers|
    ensures given == Chunks(audio) <==> Accepts(answers) >= |audio| / 100000
    ensures given == Chunks(audio) ==> Flatten(given) == audio
  {
    ChunksTile(audio);
    AcceptsGrow(answers, n);
    if given != Chunks(audio) {
      assert answers[..n] == answers;
    }
  }

  lemma {:induction false} AcceptsGrow(answers: seq<bool>, n: nat)
    requires n <= |answers|
    ensures Accepts(answers[..n]) <= Accepts(answers)
    decreases |answers|
  {
    if n == |answers| {
      assert answers[..n] == answers;
    } else {
      var before := answers[..|answers| - 1];
      AcceptsGrow(before, n);
      assert before[..n] == answers[..n];
    }
  }
}

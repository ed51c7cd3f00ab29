/** PortTool::applyPort run by k threads at once (core/MediaControlUnit.h).

  The wrap-around test, the reset, the fetch_add and the locked test-and-insert are four separate
  atomic actions, so several threads can pass the test before any of them moves the cursor.
 */
module PortRace {
  import opened PortAllocator

  /** Where a thread stands inside applyPort, with its failure count. */
  datatype Pc =
    | Idle
    | Load(failNum: nat)
    | Reset(failNum: nat)
    | Fetch(failNum: nat)
    | Test(failNum: nat, offset: nat)

  /** `held[t]` are the ports thread t obtained and has not released. */
  datatype Race = Race(cursor: nat, ports: set<nat>, pc: seq<Pc>, held: seq<set<nat>>)

  datatype Move = Begin(t: nat) | Act(t: nat) | Free(t: nat, port: nat)

  function Init(k: nat): Race {
    Race(0, {}, seq(k, i => Idle), seq(k, i => {}))
  }

  /** One atomic action; a move that is not enabled changes nothing. */
  function Next(g: Range, s: Race, m: Move): Race {
    if m.t >= |s.pc| || m.t >= |s.held| then s else
      match m
      case Begin(t) => if s.pc[t].Idle? then s.(pc := s.pc[t := Load(0)]) else s
      case Free(t, port) =>
        if port in s.held[t] then
          s.(ports := s.ports - {port}, held := s.held[t := s.held[t] - {port}])
        else s
      case Act(t) =>
        match s.pc[t]
        case Idle => s
        case Load(f) => s.(pc := s.pc[t := if s.cursor >= g.size then Reset(f) else Fetch(f)])
        case Reset(f) => s.(cursor := 0, pc := s.pc[t := Fetch(f)])
        case Fetch(f) => s.(cursor := s.cursor + 2, pc := s.pc[t := Test(f, s.cursor)])
        case Test(f, offset) =>
          var port := g.point + offset;
          if port !in s.ports then
            Race(s.cursor, s.ports + {port}, s.pc[t := Idle], s.held[t := s.held[t] + {port}])
          else
            s.(pc := s.pc[t := if f + 2 > g.size then Idle else Load(f + 2)])
  }

  function Run(g: Range, s: Race, moves: seq<Move>): Race
    decreases |moves|
  {
    if moves == [] then s else Next(g, Run(g, s, moves[..|moves| - 1]), moves[|moves| - 1])
  }

  /** The number of threads between the wrap-around test and their fetch_add. */
  function Fetching(pc: seq<Pc>): nat {
    if pc == [] then 0 else (if pc[0].Fetch? then 1 else 0) + Fetching(pc[1..])
  }

  lemma {:induction false} FetchingUpdate(pc: seq<Pc>, t: nat, x: Pc)
    requires t < |pc|
    ensures Fetching(pc[t := x]) + (if pc[t].Fetch? then 1 else 0) == Fetching(pc) + (if x.Fetch? then 1 else 0)
    ensures Fetching(pc) <= |pc|
  {
    if t == 0 {
      assert pc[0 := x][1..] == pc[1..];
      if |pc| > 1 { FetchingUpdate(pc[1..], 0, pc[1]); }
    } else {
      assert pc[t := x][1..] == pc[1..][t - 1 := x];
      FetchingUpdate(pc[1..], t - 1, x);
    }
  }

  /** The largest offset k threads can obtain. */
  function MaxOffset(g: Range, k: nat): int {
    2 * (g.Slots() + k - 2)
  }

  ghost predicate Exclusive(ports: set<nat>, held: seq<set<nat>>) {
    && (forall i, j :: 0 <= i < j < |held| ==> held[i] !! held[j])
    && (forall i :: 0 <= i < |held| ==> held[i] <= ports)
    && (forall p :: p in ports ==> HasHolder(held, p))
  }

  ghost predicate HasHolder(held: seq<set<nat>>, p: nat) {
    exists i :: 0 <= i < |held| && p in held[i]
  }

  ghost predicate Bounded(g: Range, s: Race, k: nat) {
    && |s.pc| == |s.held| == k
    && s.cursor % 2 == 0
    && s.cursor + 2 * Fetching(s.pc) <= MaxOffset(g, k) + 2
    && (forall i :: 0 <= i < k && s.pc[i].Test? ==> s.pc[i].offset <= MaxOffset(g, k) && s.pc[i].offset % 2 == 0)
    && (forall p :: p in s.ports ==> g.point <= p <= g.point + MaxOffset(g, k))
  }

  lemma NextKeepsBounded(g: Range, s: Race, m: Move, k: nat)
    requires Bounded(g, s, k)
    ensures Bounded(g, Next(g, s, m), k)
  {
    if m.t < k && !m.Free? {
      var t, x := m.t, Next(g, s, m).pc[m.t];
      assert Next(g, s, m).pc == s.pc[t := x];
      FetchingUpdate(s.pc, t, x);
      FetchingUpdate(s.pc[t := x], t, x);
    }
  }

  lemma InsertKeepsExclusive(ports: set<nat>, held: seq<set<nat>>, t: nat, port: nat)
    requires Exclusive(ports, held) && t < |held| && port !in ports
    ensures Exclusive(ports + {port}, held[t := held[t] + {port}])
  {
    var held' := held[t := held[t] + {port}];
    forall p | p in ports + {port} ensures HasHolder(held', p) {
      if p == port {
        assert p in held'[t];
      } else {
        var i :| 0 <= i < |held| && p in held[i];
        assert p in held'[i];
      }
    }
  }

  lemma FreeKeepsExclusive(ports: set<nat>, held: seq<set<nat>>, t: nat, port: nat)
    requires Exclusive(ports, held) && t < |held| && port in held[t]
    ensures Exclusive(ports - {port}, held[t := held[t] - {port}])
  {
    var held' := held[t := held[t] - {port}];
    forall i | 0 <= i < |held| && i != t ensures port !in held[i] {
      assert i < t ==> held[i] !! held[t];
      assert t < i ==> held[t] !! held[i];
    }
    forall p | p in ports - {port} ensures HasHolder(held', p) {
      var i :| 0 <= i < |held| && p in held[i];
      assert p in held'[i];
    }
  }

  lemma NextKeepsExclusive(g: Range, s: Race, m: Move)
    requires |s.pc| == |s.held| && Exclusive(s.ports, s.held)
    ensures Exclusive(Next(g, s, m).ports, Next(g, s, m).held)
  {
    if m.t < |s.pc| {
      if m.Free? && m.port in s.held[m.t] {
        FreeKeepsExclusive(s.ports, s.held, m.t, m.port);
      } else if m.Act? && s.pc[m.t].Test? && g.point + s.pc[m.t].offset !in s.ports {
        InsertKeepsExclusive(s.ports, s.held, m.t, g.point + s.pc[m.t].offset);
      }
    }
  }

  /** However the threads interleave, a port never has two holders, every occupied port has a holder,
      and every port lies within MaxOffset of the start of the range. */
  lemma {:induction false} RunIsSafe(g: Range, k: nat, moves: seq<Move>)
    ensures var s := Run(g, Init(k), moves); Exclusive(s.ports, s.held) && Bounded(g, s, k)
    decreases |moves|
  {
    if moves == [] {
      NoneFetching(k);
      assert k == 0 || MaxOffset(g, k) >= 0;
    } else {
      RunIsSafe(g, k, moves[..|moves| - 1]);
      NextKeepsBounded(g, Run(g, Init(k), moves[..|moves| - 1]), moves[|moves| - 1], k);
      NextKeepsExclusive(g, Run(g, Init(k), moves[..|moves| - 1]), moves[|moves| - 1]);
    }
  }

  lemma {:induction false} NoneFetching(k: nat)
    ensures Fetching(seq(k, i => Idle)) == 0
  {
    if k == 0 {
    } else {
      NoneFetching(k - 1);
      assert seq(k, i => Idle)[1..] == seq(k - 1, i => Idle);
    }
  }

  /* ---- one thread at a time ---- */

  /** The first move of a run, and the rest. */
  lemma {:induction false} RunFrom(g: Range, s: Race, first: Move, rest: seq<Move>)
    ensures Run(g, s, [first] + rest) == Run(g, Next(g, s, first), rest)
    decreases |rest|
  {
    var all := [first] + rest;
    if rest == [] {
      assert all[..0] == [] && Run(g, s, all[..0]) == s;
    } else {
      assert all[..|all| - 1] == [first] + rest[..|rest| - 1];
      RunFrom(g, s, first, rest[..|rest| - 1]);
    }
  }

  lemma {:induction false} RunMore(g: Range, s: Race, moves: seq<Move>, more: seq<Move>)
    ensures Run(g, s, moves + more) == Run(g, Run(g, s, moves), more)
    decreases |more|
  {
    if more == [] {
      assert moves + more == moves;
    } else {
      assert (moves + more)[..|moves + more| - 1] == moves + more[..|more| - 1];
      RunMore(g, s, moves, more[..|more| - 1]);
    }
  }

  /** Thread t at work on an application: the pool is `p`, all else is as in `s`. */
  function Working(s: Race, t: nat, p: Pool, pc: Pc): Race
    requires t < |s.pc|
  {
    s.(cursor := p.cursor, ports := p.ports, pc := s.pc[t := pc])
  }

  /** What an application by thread t leaves. */
  function Ended(s: Race, t: nat, pool: Pool, port: nat): Race
    requires t < |s.pc| && t < |s.held|
  {
    Working(s, t, pool, Idle).(held := if port == NO_PORT then s.held else s.held[t := s.held[t] + {port}])
  }

  /** The actions one by one: test, reset, increment ... */
  lemma Actions(g: Range, s: Race, t: nat, p: Pool, f: nat)
    requires t < |s.pc| && t < |s.held|
    ensures Next(g, Working(s, t, p, Load(f)), Act(t)) ==
            Working(s, t, p, if p.cursor >= g.size then Reset(f) else Fetch(f))
    ensures Next(g, Working(s, t, p, Reset(f)), Act(t)) == Working(s, t, p.(cursor := 0), Fetch(f))
    ensures Next(g, Working(s, t, p, Fetch(f)), Act(t)) == Working(s, t, p.(cursor := p.cursor + 2), Test(f, p.cursor))
  {
  }

  /** ... and the insertion. */
  lemma Insertion(g: Range, s: Race, t: nat, p: Pool, f: nat, offset: nat)
    requires t < |s.pc| && t < |s.held| && g.point + offset != NO_PORT
    ensures Next(g, Working(s, t, p, Test(f, offset)), Act(t)) ==
            var port := g.point + offset;
            if port !in p.ports then Ended(s, t, p.(ports := p.ports + {port}), port)
            else Working(s, t, p, if f + 2 > g.size then Idle else Load(f + 2))
  {
  }

  /** What an attempt at a port leaves: the port taken, the end, or the next turn. */
  function Attempted(g: Range, s: Race, t: nat, p: Pool, f: nat, port: nat): Race
    requires t < |s.pc| && t < |s.held|
  {
    if port !in p.ports then Ended(s, t, p.(ports := p.ports + {port}), port)
    else Working(s, t, p, if f + 2 > g.size then Idle else Load(f + 2))
  }

  /** The last two actions of a turn, in front of others. */
  lemma FromFetch(g: Range, s: Race, t: nat, p: Pool, f: nat, rest: seq<Move>)
    requires t < |s.pc| && t < |s.held| && g.point + p.cursor != NO_PORT
    ensures Run(g, Working(s, t, p, Fetch(f)), [Act(t)] + ([Act(t)] + rest)) ==
            Run(g, Attempted(g, s, t, p.(cursor := p.cursor + 2), f, g.point + p.cursor), rest)
  {
    Actions(g, s, t, p, f);
    Insertion(g, s, t, p.(cursor := p.cursor + 2), f, p.cursor);
    hide Next, Working, Ended, Run;
    RunFrom(g, Working(s, t, p.(cursor := p.cursor + 2), Test(f, p.cursor)), Act(t), rest);
    RunFrom(g, Working(s, t, p, Fetch(f)), Act(t), [Act(t)] + rest);
  }

  /** All moves are actions of thread t. */
  ghost predicate ActsOf(t: nat, moves: seq<Move>) {
    forall i :: 0 <= i < |moves| ==> moves[i] == Act(t)
  }

  lemma OneActMore(t: nat, moves: seq<Move>)
    requires ActsOf(t, moves)
    ensures ActsOf(t, [Act(t)] + moves)
  {
  }

  /** The test, and the reset if need be, in front of others. */
  lemma UpToFetch(g: Range, s: Race, t: nat, p: Pool, f: nat, rest: seq<Move>) returns (more: seq<Move>)
    requires t < |s.pc| && t < |s.held| && ActsOf(t, rest)
    ensures ActsOf(t, more)
    ensures Run(g, Working(s, t, p, Load(f)), more) ==
            Run(g, Working(s, t, p.(cursor := g.Wrap(p.cursor)), Fetch(f)), rest)
  {
    Actions(g, s, t, p, f);
    OneActMore(t, rest);
    more := [Act(t)] + rest;
    hide Next, Working, Run, ActsOf;
    if p.cursor >= g.size {
      RunFrom(g, Working(s, t, p, Reset(f)), Act(t), rest);
      RunFrom(g, Working(s, t, p, Load(f)), Act(t), more);
      OneActMore(t, more);
      more := [Act(t)] + more;
    } else {
      RunFrom(g, Working(s, t, p, Load(f)), Act(t), rest);
    }
  }

  /** The actions of one turn of the loop, in front of others. */
  lemma OneTurn(g: Range, s: Race, t: nat, p: Pool, f: nat, rest: seq<Move>) returns (more: seq<Move>)
    requires g.Valid() && t < |s.pc| && t < |s.held| && ActsOf(t, rest)
    ensures ActsOf(t, more)
    ensures Run(g, Working(s, t, p, Load(f)), more) ==
            Run(g, Attempted(g, s, t, p.(cursor := g.Wrap(p.cursor) + 2), f, g.point + g.Wrap(p.cursor)), rest)
  {
    FromFetch(g, s, t, p.(cursor := g.Wrap(p.cursor)), f, rest);
    hide *;
    OneActMore(t, rest);
    OneActMore(t, [Act(t)] + rest);
    more := UpToFetch(g, s, t, p, f, [Act(t)] + ([Act(t)] + rest));
  }

  /** A thread's own actions, one after the other, perform the application of the sequential program. */
  lemma {:induction false} ActionsAreApplication(g: Range, s: Race, t: nat, p: Pool, f: nat) returns (more: seq<Move>)
    requires g.Valid() && p.cursor % 2 == 0 && f % 2 == 0 && f <= g.size && t < |s.pc| && t < |s.held|
    ensures var r := ApplyFrom(g, p, f);
            Run(g, Working(s, t, p, Load(f)), more) == Ended(s, t, r.pool, r.port)
    ensures ActsOf(t, more)
    decreases g.size - f
  {
    var port, p' := g.point + g.Wrap(p.cursor), p.(cursor := g.Wrap(p.cursor) + 2);
    NextProbe(g, p, f);
    assert Working(s, t, p', Idle) == Ended(s, t, p', NO_PORT);
    hide Next, Working, Ended, ApplyFrom, Run;
    if port in p.ports && f + 2 <= g.size {
      var rest := ActionsAreApplication(g, s, t, p', f + 2);
      more := OneTurn(g, s, t, p, f, rest);
    } else {
      more := OneTurn(g, s, t, p, f, []);
    }
  }

  /** Refinement: from any state that any interleaving has reached, a thread that then runs alone performs
      exactly one application of the sequential allocator, and holds the port that it returns. */
  lemma AloneIsSequential(g: Range, k: nat, moves: seq<Move>, t: nat) returns (more: seq<Move>)
    requires g.Valid() && t < k == |Run(g, Init(k), moves).pc| && Run(g, Init(k), moves).pc[t] == Idle
    ensures var s, s' := Run(g, Init(k), moves), Run(g, Init(k), moves + more);
            s.cursor % 2 == 0 && t < |s.held| &&
            var r := ApplyOnce(g, Pool(s.cursor, s.ports));
            && Pool(s'.cursor, s'.ports) == r.pool && s'.pc == s.pc
            && s'.held == if r.port == NO_PORT then s.held else s.held[t := s.held[t] + {r.port}]
    ensures more != [] && more[0] == Begin(t) && ActsOf(t, more[1..])
  {
    RunIsSafe(g, k, moves);
    var s := Run(g, Init(k), moves);
    var p := Pool(s.cursor, s.ports);
    assert Next(g, s, Begin(t)) == Working(s, t, p, Load(0));
    var acts := ActionsAreApplication(g, s, t, p, 0);
    more := [Begin(t)] + acts;
    RunFrom(g, s, Begin(t), acts);
    RunMore(g, Init(k), moves, more);
    assert s.pc[t := Idle] == s.pc;
  }

  /* ---- the bound is attained ---- */

  /** The ports of the first i places of the cycle. */
  function FirstPorts(g: Range, i: nat): (s: set<nat>)
    ensures forall p :: p in s ==> p < g.point + 2 * i
  {
    if i == 0 then {} else FirstPorts(g, i - 1) + {g.point + 2 * (i - 1)}
  }

  /** Thread 0 alone has taken the first i ports. */
  function Advanced(g: Range, k: nat, i: nat): Race {
    Race(2 * i, FirstPorts(g, i), seq(k, t => Idle), seq(k, t => if t == 0 then FirstPorts(g, i) else {}))
  }

  /** All places but the last are taken, and the first j threads have passed the wrap-around test. */
  function Poised(g: Range, k: nat, j: nat): Race {
    Advanced(g, k, g.Slots() - 1).(pc := seq(k, t => if t < j then Fetch(0) else Idle))
  }

  /** As above with all threads past the test, and the first j of them past their fetch_add. */
  function Fetched(g: Range, k: nat, j: nat): Race {
    var last := 2 * (g.Slots() - 1);
    Poised(g, k, k).(cursor := last + 2 * j, pc := seq(k, t => if 0 <= t < j then Test(0, last + 2 * t) else Fetch(0)))
  }

  lemma RunAppend(g: Range, s: Race, moves: seq<Move>, m: Move)
    ensures Run(g, s, moves + [m]) == Next(g, Run(g, s, moves), m)
  {
    assert (moves + [m])[..|moves|] == moves;
  }

  /** Thread 0 obtains the next port. */
  lemma AdvanceOnce(g: Range, k: nat, i: nat)
    requires k >= 1 && g.size >= 1 && 1 <= i < g.Slots()
    ensures Next(g, Next(g, Next(g, Next(g, Advanced(g, k, i - 1), Begin(0)), Act(0)), Act(0)), Act(0)) ==
            Advanced(g, k, i)
  {
    var s := Next(g, Next(g, Next(g, Next(g, Advanced(g, k, i - 1), Begin(0)), Act(0)), Act(0)), Act(0));
    assert s.pc == Advanced(g, k, i).pc;
    assert s.held == Advanced(g, k, i).held;
  }

  lemma {:induction false} ReachAdvanced(g: Range, k: nat, i: nat) returns (moves: seq<Move>)
    requires k >= 1 && g.size >= 1 && i < g.Slots()
    ensures Run(g, Init(k), moves) == Advanced(g, k, i)
  {
    if i == 0 {
      moves := [];
      assert Init(k).held == Advanced(g, k, 0).held;
      assert Init(k).pc == Advanced(g, k, 0).pc;
    } else {
      var before := ReachAdvanced(g, k, i - 1);
      AdvanceOnce(g, k, i);
      moves := FourMoves(g, Init(k), before);
    }
  }

  /** A whole application of the first thread that finds a free port. */
  lemma FourMoves(g: Range, s: Race, before: seq<Move>) returns (moves: seq<Move>)
    ensures var s0 := Run(g, s, before);
            Run(g, s, moves) == Next(g, Next(g, Next(g, Next(g, s0, Begin(0)), Act(0)), Act(0)), Act(0))
  {
    RunAppend(g, s, before, Begin(0));
    RunAppend(g, s, before + [Begin(0)], Act(0));
    RunAppend(g, s, before + [Begin(0)] + [Act(0)], Act(0));
    RunAppend(g, s, before + [Begin(0)] + [Act(0)] + [Act(0)], Act(0));
    moves := before + [Begin(0)] + [Act(0)] + [Act(0)] + [Act(0)];
  }

  lemma {:induction false} ReachPoised(g: Range, k: nat, j: nat) returns (moves: seq<Move>)
    requires k >= 1 && g.size >= 1 && j <= k
    ensures Run(g, Init(k), moves) == Poised(g, k, j)
  {
    if j == 0 {
      moves := ReachAdvanced(g, k, g.Slots() - 1);
      assert Advanced(g, k, g.Slots() - 1).pc == Poised(g, k, 0).pc;
    } else {
      var before := ReachPoised(g, k, j - 1);
      RunAppend(g, Init(k), before, Begin(j - 1));
      RunAppend(g, Init(k), before + [Begin(j - 1)], Act(j - 1));
      moves := before + [Begin(j - 1)] + [Act(j - 1)];
      assert Run(g, Init(k), moves).pc == Poised(g, k, j).pc;
    }
  }

  lemma {:induction false} ReachFetched(g: Range, k: nat, j: nat) returns (moves: seq<Move>)
    requires k >= 1 && g.size >= 1 && j <= k
    ensures Run(g, Init(k), moves) == Fetched(g, k, j)
  {
    if j == 0 {
      moves := ReachPoised(g, k, k);
      assert Poised(g, k, k).pc == Fetched(g, k, 0).pc;
    } else {
      var before := ReachFetched(g, k, j - 1);
      RunAppend(g, Init(k), before, Act(j - 1));
      moves := before + [Act(j - 1)];
      assert Run(g, Init(k), moves).pc == Fetched(g, k, j).pc;
    }
  }

  /** Some interleaving hands out exactly the largest offset. */
  lemma MaxOffsetIsReached(g: Range, k: nat) returns (moves: seq<Move>)
    requires k >= 1 && g.size >= 1
    ensures g.point + MaxOffset(g, k) in Run(g, Init(k), moves).ports
  {
    var before := ReachFetched(g, k, k);
    RunAppend(g, Init(k), before, Act(k - 1));
    moves := before + [Act(k - 1)];
  }

  ghost predicate InRange(g: Range, s: Race) {
    forall p :: p in s.ports ==> g.point <= p < g.point + g.size
  }

  /** The configured range is respected by every interleaving exactly when at most one thread applies
      for ports: with two threads a port beyond the range is handed out. */
  lemma RangeKeptIffSingleThread(g: Range, k: nat)
    requires g.size >= 1
    ensures (forall moves :: InRange(g, Run(g, Init(k), moves))) <==> k <= 1
  {
    if k <= 1 {
      forall moves ensures InRange(g, Run(g, Init(k), moves)) {
        RunIsSafe(g, k, moves);
      }
    } else {
      var moves := MaxOffsetIsReached(g, k);
      assert !InRange(g, Run(g, Init(k), moves));
    }
  }
}

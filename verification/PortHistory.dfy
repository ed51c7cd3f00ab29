/** What the port lists hold over whole runs, in terms of what the units did (src/mpu.cpp, src/apc.cpp).

  A unit's list is what it will release at its end.  Ports below 2^15 leave the list with their channel;
  ports from 2^15 on never leave it, because getPort distorts them.
 */
module PortHistory {
  import opened Lists
  import opened ModArithmetic
  import opened PortAllocator
  import opened MpuState
  import opened McuRuns
  import opened McuState
  import opened PortOwnership

  /** Every port of the range is a 16-bit port. */
  predicate SixteenBit(g: Range) {
    g.point < 0x1_0000 && g.point + g.size <= 0x1_0000
  }

  predicate HighRange(g: Range) {
    g.point >= 0x8000
  }

  /** The ports that are never pruned from a list. */
  function Stuck(ports: set<nat>): set<nat> {
    set p | p in ports && p >= 0x8000
  }

  /** Every port a unit had a channel on while it ran. */
  function EverHad<U(==)>(g: Range, steps: seq<Step<U>>, u: U): set<nat>
    requires g.Valid()
    decreases |steps|
  {
    var s := RunSteps(g, steps);
    if steps == [] || u !in s.objs then {} else
      EverHad(g, steps[..|steps| - 1], u) + (if s.objs[u].status == Run then LivePorts(s.objs[u]) else {})
  }

  /** What a unit is due to release a second time: while it runs its live ports and the high ports of its
      past channels, and from then on what that was when it last ran. */
  function Due<U(==)>(g: Range, steps: seq<Step<U>>, u: U): set<nat>
    requires g.Valid()
    decreases |steps|
  {
    var s := RunSteps(g, steps);
    if steps == [] || u !in s.objs then {}
    else if s.objs[u].status == Run then LivePorts(s.objs[u]) + Stuck(EverHad(g, steps, u))
    else Due(g, steps[..|steps| - 1], u)
  }

  /* ---- one unit ---- */

  ghost predicate Below(ports: set<nat>, bound: nat) {
    forall p :: p in ports ==> p < bound
  }

  /** A running unit that ever had channels on the ports `ever` lists its live ports and the high ones
      of those. */
  ghost predicate ListsEver(m: Mpu, ever: set<nat>) {
    LivePorts(m) <= ever && Elements(m.portList) == LivePorts(m) + Stuck(ever)
  }

  lemma AddListsEver(m: Mpu, m': Mpu, port: nat, ever: set<nat>)
    requires ListsEver(m, ever)
    requires LivePorts(m') == LivePorts(m) + {port} && m'.portList == m.portList + [port]
    ensures ListsEver(m', ever + LivePorts(m'))
  {
    assert ever + LivePorts(m') == ever + {port};
    assert Elements(m'.portList) == Elements(m.portList) + {port};
    assert Stuck(ever + {port}) == Stuck(ever) + Stuck({port});
  }

  lemma RemoveListsEver(m: Mpu, m': Mpu, port: nat, ever: set<nat>)
    requires ListsEver(m, ever) && Below(ever, 0x1_0000) && port in LivePorts(m)
    requires LivePorts(m') == LivePorts(m) - {port} && m'.portList == RemoveAll(m.portList, NarrowedPort(port))
    ensures ListsEver(m', ever + LivePorts(m'))
  {
    assert ever + LivePorts(m') == ever;
    RemoveAllElements(m.portList, NarrowedPort(port));
    assert Elements(m'.portList) == Elements(m.portList) - {NarrowedPort(port)};
    if port < 0x8000 {
      assert NarrowedPort(port) == port && port !in Stuck(ever);
    } else {
      assert NarrowedPort(port) >= 0x1_0000 && port in Stuck(ever);
      assert NarrowedPort(port) !in Elements(m.portList);
    }
  }

  lemma EffectListsEver(g: Range, m: Mpu, ports: set<nat>, e: Event, opens: bool, ever: set<nat>)
    requires DistinctLive(m) && ListsEver(m, ever) && Below(ever, 0x1_0000)
    ensures var m' := Effect(g, m, ports, e, opens).0;
            ListsEver(m', ever + LivePorts(m'))
  {
    var m' := Effect(g, m, ports, e, opens).0;
    if e.Add? && e.id !in m.apcs && opens {
      LiveAfterAdd(m, e.id, Channel(e.port, m'.codec));
      assert LivePorts(m') == LivePorts(m) + {e.port};
      AddListsEver(m, m', e.port, ever);
    } else if e.Remove? && e.id in m.apcs {
      var port := m.apcs[e.id].port;
      assert port in LivePorts(m);
      LiveAfterRemove(m, e.id);
      assert LivePorts(m') == LivePorts(m) - {port};
      RemoveListsEver(m, m', port, ever);
    } else {
      assert LivePorts(m') == LivePorts(m);
      assert ever + LivePorts(m') == ever;
    }
  }

  /** How a step of its own, or of others, changes what a unit lists. */
  ghost predicate Follows(m: Mpu, m': Mpu, ever: set<nat>) {
    if m'.status == Run then m.status == Run && (ListsEver(m, ever) ==> ListsEver(m', ever + LivePorts(m')))
    else m'.portList == m.portList
  }

  lemma SameFollows(m: Mpu, m': Mpu, ever: set<nat>)
    requires m'.portList == m.portList && m'.apcs == m.apcs && (m'.status == Run ==> m.status == Run)
    ensures Follows(m, m', ever)
  {
    assert LivePorts(m') == LivePorts(m);
    if ListsEver(m, ever) {
      assert ever + LivePorts(m') == ever;
    }
  }

  lemma HandleFollows(g: Range, m: Mpu, ports: set<nat>, opens: bool, ever: set<nat>)
    requires OwnsOnce(m) && Below(ever, 0x1_0000)
    ensures Follows(m, HandleNext(g, m, ports, opens).0, ever)
  {
    if m.status == Run && m.batch != [] {
      var m1 := m.(batch := m.batch[1..], handled := m.handled + [m.batch[0]]);
      assert LivePorts(m1) == LivePorts(m);
      EffectFrame(g, m1, ports, m.batch[0], opens);
      if ListsEver(m, ever) {
        EffectListsEver(g, m1, ports, m.batch[0], opens, ever);
      }
    } else {
      SameFollows(m, m, ever);
    }
  }

  lemma LocalFollows<U>(g: Range, m: Mpu, pool: Pool, step: Step<U>, ever: set<nat>)
    requires g.Valid() && pool.cursor % 2 == 0 && OwnsOnce(m) && Below(ever, 0x1_0000)
    ensures Follows(m, Local(g, m, pool, step).0, ever)
  {
    match step
    case HandleEvent(_, opens) => HandleFollows(g, m, pool.ports, opens, ever);
    case StopEnds(_) =>
      if !m.stopBegun || m.status == End { SameFollows(m, m, ever); }
    case _ => SameFollows(m, Local(g, m, pool, step).0, ever);
  }

  lemma EndFollows<U>(s: Mcu<U>, jobId: string, u: U, ever: set<nat>)
    requires u in s.objs
    ensures u in EndMpu(s, jobId).objs && Follows(s.objs[u], EndMpu(s, jobId).objs[u], ever)
  {
    SameFollows(s.objs[u], EndMpu(s, jobId).objs[u], ever);
  }

  lemma FaultFollows<U>(g: Range, s: Mcu<U>, v: U, reached: nat, u: U, ever: set<nat>)
    requires g.Valid() && s.pool.cursor % 2 == 0 && u in s.objs
    ensures var s' := Apply(g, s, HandlerFault(v, reached));
            u in s'.objs && Follows(s.objs[u], s'.objs[u], ever)
  {
    if v in s.objs && s.objs[v].status == Run && s.objs[v].batch != [] {
      var m := FailNext(s.objs[v], reached);
      EndFollows(s.(objs := s.objs[v := m]), s.objs[v].jobId, u, ever);
      if u != v { SameFollows(s.objs[u], Apply(g, s, HandlerFault(v, reached)).objs[u], ever); }
    } else {
      SameFollows(s.objs[u], s.objs[u], ever);
    }
  }

  lemma StepFollows<U>(g: Range, s: Mcu<U>, step: Step<U>, u: U, ever: set<nat>)
    requires g.Valid() && s.pool.cursor % 2 == 0 && EachOwnsOnce(s.objs) && Below(ever, 0x1_0000)
    requires u in Apply(g, s, step).objs
    ensures if u in s.objs then Follows(s.objs[u], Apply(g, s, step).objs[u], ever)
            else exists jobId :: Apply(g, s, step).objs[u] == NewMpu(jobId)
  {
    match step
    case Create(jobId, newUnit) =>
      if u in s.objs { SameFollows(s.objs[u], s.objs[u], ever); }
    case EndJob(jobId) => EndFollows(s, jobId, u, ever);
    case HandlerFault(v, reached) => FaultFollows(g, s, v, reached, u, ever);
    case Reap => SameFollows(s.objs[u], s.objs[u], ever);
    case _ => ApplyLocalFollows(g, s, step, u, ever);
  }

  lemma ApplyLocalFollows<U>(g: Range, s: Mcu<U>, step: Step<U>, u: U, ever: set<nat>)
    requires g.Valid() && s.pool.cursor % 2 == 0 && EachOwnsOnce(s.objs) && Below(ever, 0x1_0000)
    requires u in s.objs
    ensures u in ApplyLocal(g, s, step).objs && Follows(s.objs[u], ApplyLocal(g, s, step).objs[u], ever)
  {
    if Target(s, step) == Some(u) {
      LocalFollows(g, s.objs[u], s.pool, step, ever);
    } else {
      SameFollows(s.objs[u], s.objs[u], ever);
    }
  }

  /* ---- whole runs ---- */

  lemma {:induction false} EverHadInRange<U>(g: Range, steps: seq<Step<U>>, u: U)
    requires g.Valid() && ConservedThroughout(g, steps)
    ensures PortsHeld(g, EverHad(g, steps, u))
    decreases |steps|
  {
    var s := RunSteps(g, steps);
    if steps == [] || u !in s.objs {
    } else {
      EverHadInRange(g, steps[..|steps| - 1], u);
      assert Owners(s.objs)[u] <= s.pool.ports;
    }
  }

  /** The port list of every unit is exactly what its history makes due, as long as ports have been
      conserved: its live ports while it runs, with every high port it ever had, and afterwards what it
      last was. */
  lemma {:induction false} ListIsDue<U>(g: Range, steps: seq<Step<U>>, u: U)
    requires g.Valid() && SixteenBit(g) && ConservedThroughout(g, steps) && u in RunSteps(g, steps).objs
    ensures var m := RunSteps(g, steps).objs[u];
            Elements(m.portList) == Due(g, steps, u) && (m.status == Run ==> ListsEver(m, EverHad(g, steps, u)))
    decreases |steps|
  {
    if steps == [] {
    } else {
      var before, last := steps[..|steps| - 1], steps[|steps| - 1];
      var s := RunSteps(g, before);
      var ever := EverHad(g, before, u);
      EverHadInRange(g, before, u);
      StepFollows(g, s, last, u, ever);
      if u in s.objs {
        ListIsDue(g, before, u);
      } else {
        assert LivePorts(RunSteps(g, steps).objs[u]) == {};
        EverHadOfNew(g, before, u);
      }
    }
  }

  lemma EverHadOfNew<U>(g: Range, steps: seq<Step<U>>, u: U)
    requires g.Valid() && u !in RunSteps(g, steps).objs
    ensures EverHad(g, steps, u) == {}
  {
  }

  /* ---- conservation in terms of history ---- */

  /** No port that a finished unit is due to release belongs to a unit that stays. */
  ghost predicate DueApart<U>(g: Range, before: seq<Step<U>>)
    requires g.Valid()
  {
    var s := RunSteps(g, before);
    forall u, v :: u in Finished(s) && v in s.objs && v !in Finished(s) ==> Due(g, before, u) !! Owned(s.objs[v])
  }

  ghost predicate ReapsApart<U>(g: Range, steps: seq<Step<U>>)
    requires g.Valid()
    decreases |steps|
  {
    steps != [] ==>
      ReapsApart(g, steps[..|steps| - 1]) && (steps[|steps| - 1].Reap? ==> DueApart(g, steps[..|steps| - 1]))
  }

  lemma CleanIffApart<U>(g: Range, before: seq<Step<U>>)
    requires g.Valid() && SixteenBit(g) && ConservedThroughout(g, before)
    ensures CleanReap(RunSteps(g, before)) <==> DueApart(g, before)
  {
    var s := RunSteps(g, before);
    forall u | u in Finished(s) ensures Elements(s.objs[u].portList) == Due(g, before, u) {
      ListIsDue(g, before, u);
    }
  }

  /** For any range of 16-bit ports, on whichever side of 2^15: ports are conserved at every point of a run
      exactly if no reaper round finds a port due for release in the hands of a unit that stays. */
  lemma {:induction false} ConservedIffApart<U>(g: Range, steps: seq<Step<U>>)
    requires g.Valid() && SixteenBit(g)
    ensures ConservedThroughout(g, steps) <==> ReapsApart(g, steps)
    decreases |steps|
  {
    ConservedIffClean(g, steps);
    if steps == [] {
    } else {
      var before := steps[..|steps| - 1];
      ConservedIffApart(g, before);
      ConservedIffClean(g, before);
      if ConservedThroughout(g, before) {
        CleanIffApart(g, before);
      }
    }
  }

  /** A join is not given a port that is due for release by another unit. */
  ghost predicate NotGivenDue<U>(g: Range, before: seq<Step<U>>, step: Step<U>)
    requires g.Valid()
  {
    var s := RunSteps(g, before);
    step.Join? && Target(s, step).Some? ==>
      forall u :: u in s.objs && u != Target(s, step).value ==> ApplyOnce(g, s.pool).port !in Due(g, before, u)
  }

  ghost predicate NeverGivenDue<U>(g: Range, steps: seq<Step<U>>)
    requires g.Valid()
    decreases |steps|
  {
    steps != [] ==>
      NeverGivenDue(g, steps[..|steps| - 1]) && NotGivenDue(g, steps[..|steps| - 1], steps[|steps| - 1])
  }

  /** Port conservation for every range of 16-bit ports: a run in which no join is given a port that another
      unit is due to release conserves ports at every point, and every unit lists exactly what it is due
      to release. */
  lemma {:induction false} ConservationByHistory<U>(g: Range, steps: seq<Step<U>>)
    requires g.Valid() && SixteenBit(g) && NeverGivenDue(g, steps)
    ensures NeverDue(g, steps) && ConservedThroughout(g, steps)
    decreases |steps|
  {
    if steps == [] {
      NeverDueIsClean(g, steps);
    } else {
      var before, last := steps[..|steps| - 1], steps[|steps| - 1];
      ConservationByHistory(g, before);
      var s := RunSteps(g, before);
      forall u | u in s.objs ensures Elements(s.objs[u].portList) == Due(g, before, u) {
        ListIsDue(g, before, u);
      }
      assert NotDue(g, s, last);
      NeverDueIsClean(g, steps);
    }
    ConservedIffClean(g, steps);
  }

  /* ---- ports from 32768 on ---- */

  /** In a high range what a unit is due to release is every port it ever had. */
  lemma {:induction false} HighDue<U>(g: Range, steps: seq<Step<U>>, u: U)
    requires g.Valid() && HighRange(g) && ConservedThroughout(g, steps) && u in RunSteps(g, steps).objs
    ensures Due(g, steps, u) == EverHad(g, steps, u)
    decreases |steps|
  {
    var s := RunSteps(g, steps);
    if steps == [] {
    } else {
      EverHadInRange(g, steps, u);
      assert Stuck(EverHad(g, steps, u)) == EverHad(g, steps, u);
      if s.objs[u].status != Run {
        var before, last := steps[..|steps| - 1], steps[|steps| - 1];
        NotNew(g, RunSteps(g, before), last, u);
        HighDue(g, before, u);
      }
    }
  }

  /** A unit that does not run is not new. */
  lemma NotNew<U>(g: Range, s: Mcu<U>, step: Step<U>, u: U)
    requires g.Valid() && s.pool.cursor % 2 == 0
    requires u in Apply(g, s, step).objs && Apply(g, s, step).objs[u].status != Run
    ensures u in s.objs
  {
    match step
    case Create(_, _) =>
    case EndJob(_) =>
    case HandlerFault(_, _) =>
    case Reap =>
    case _ =>
  }

  /** A join is not given a port that another unit, not yet reaped, has ever had. */
  ghost predicate NotGivenPast<U>(g: Range, before: seq<Step<U>>, step: Step<U>)
    requires g.Valid()
  {
    var s := RunSteps(g, before);
    step.Join? && Target(s, step).Some? ==>
      forall u :: u in s.objs && u != Target(s, step).value ==> ApplyOnce(g, s.pool).port !in EverHad(g, before, u)
  }

  ghost predicate NeverGivenPast<U>(g: Range, steps: seq<Step<U>>)
    requires g.Valid()
    decreases |steps|
  {
    steps != [] ==>
      NeverGivenPast(g, steps[..|steps| - 1]) && NotGivenPast(g, steps[..|steps| - 1], steps[|steps| - 1])
  }

  /** Port conservation for ports from 32768 to 65535: it holds over every run in which no join is given a
      port that another unit, not yet reaped, has ever had; each unit lists every port it ever had. */
  lemma {:induction false} HighPortConservation<U>(g: Range, steps: seq<Step<U>>)
    requires g.Valid() && SixteenBit(g) && HighRange(g) && NeverGivenPast(g, steps)
    ensures NeverGivenDue(g, steps) && ConservedThroughout(g, steps)
    ensures var s := RunSteps(g, steps);
            forall u :: u in s.objs ==> Elements(s.objs[u].portList) == EverHad(g, steps, u)
    decreases |steps|
  {
    if steps == [] {
    } else {
      var before := steps[..|steps| - 1];
      HighPortConservation(g, before);
      var s := RunSteps(g, before);
      forall u | u in s.objs ensures Due(g, before, u) == EverHad(g, before, u) {
        HighDue(g, before, u);
      }
      assert NotGivenDue(g, before, steps[|steps| - 1]);
    }
    ConservationByHistory(g, steps);
    forall u | u in RunSteps(g, steps).objs
      ensures Elements(RunSteps(g, steps).objs[u].portList) == EverHad(g, steps, u)
    {
      ListIsDue(g, steps, u);
      HighDue(g, steps, u);
    }
  }

  /* ---- a leave is enough ---- */

  /** The start of the range the server is configured with, and one port of it. */
  const HIGH_PORT: Range := Range(62600, 1)

  /** Steps that are no joins cannot issue a port between its releases. */
  lemma {:induction false} QuietAppend<U>(g: Range, steps: seq<Step<U>>, more: seq<Step<U>>)
    requires g.Valid() && NeverBetweenReleases(g, steps) && forall i :: 0 <= i < |more| ==> !more[i].Join?
    ensures NeverBetweenReleases(g, steps + more)
    decreases |more|
  {
    if more == [] {
      assert steps + more == steps;
    } else {
      var n := |more| - 1;
      QuietAppend(g, steps, more[..n]);
      assert (steps + more)[..|steps| + n] == steps + more[..n];
      assert !more[n].Join?;
    }
  }

  lemma JoinQuietly(steps: seq<Step<nat>>, job: string, u: nat, chnl: string) returns (steps': seq<Step<nat>>)
    requires HIGH_PORT.Valid() && NeverBetweenReleases(HIGH_PORT, steps)
    requires var s := RunSteps(HIGH_PORT, steps);
             job in s.mpus && s.mpus[job] == u && u in s.objs && s.objs[u] == NewMpu(job)
             && s.pool.cursor < 4 && s.pool.ports == {} && forall v :: v in s.objs ==> s.objs[v].status != End
    ensures var s := RunSteps(HIGH_PORT, steps);
            RunSteps(HIGH_PORT, steps') ==
              s.(pool := Pool(2, {62600}), objs := s.objs[u := OneChannel(job, chnl, 62600)])
    ensures NeverBetweenReleases(HIGH_PORT, steps')
  {
    steps' := FirstJoin(HIGH_PORT, steps, job, u, chnl);
    var joining := steps + [JoinA(job, chnl)];
    assert joining[..|steps|] == steps;
    assert NeverBetweenReleases(HIGH_PORT, joining);
    QuietAppend(HIGH_PORT, joining, [SwapQueue(u), HandleEvent(u, true)]);
    assert steps' == joining + [SwapQueue(u), HandleEvent(u, true)];
  }

  /** The unit after its one channel left: the port is still listed. */
  function Left(job: string, chnl: string): Mpu {
    var m, e := OneChannel(job, chnl, 62600), Remove(chnl);
    m.(apcs := map[], users := [], userNum := 0, mixer := {}, accepted := m.accepted + [e], handled := m.handled + [e])
  }

  lemma RemoveTheOne(job: string, chnl: string, ports: set<nat>)
    ensures var m, e := OneChannel(job, chnl, 62600), Remove(chnl);
            HandleNext(HIGH_PORT, m.(batch := [e], accepted := m.accepted + [e]), ports, true)
            == (Left(job, chnl), ports - {62600})
  {
    var e := Remove(chnl);
    assert [e][1..] == [];
    assert RemoveFirst([chnl], chnl) == [];
    assert NarrowedPort(62600) != 62600;
    assert RemoveAll([62600], NarrowedPort(62600)) == [62600];
    var m := OneChannel(job, chnl, 62600);
    var m1 := m.(batch := [], accepted := m.accepted + [e], handled := m.handled + [e]);
    assert m1.apcs - {chnl} == map[] && m1.mixer - {chnl} == {};
    assert RemoveChannel(HIGH_PORT, m1, ports, chnl) == (Left(job, chnl), ports - {62600});
  }

  /** The channel leaves, and its port is free. */
  lemma LeaveJob(steps: seq<Step<nat>>, job: string, u: nat, chnl: string) returns (steps': seq<Step<nat>>)
    requires HIGH_PORT.Valid()
    requires var s := RunSteps(HIGH_PORT, steps);
             job in s.mpus && s.mpus[job] == u && u in s.objs && s.objs[u] == OneChannel(job, chnl, 62600)
    ensures var s := RunSteps(HIGH_PORT, steps);
            RunSteps(HIGH_PORT, steps') ==
            s.(pool := s.pool.(ports := s.pool.ports - {62600}), objs := s.objs[u := Left(job, chnl)])
    ensures steps' == steps + [Notify(job, Remove(chnl))] + [SwapQueue(u)] + [HandleEvent(u, true)]
  {
    var s, m, e := RunSteps(HIGH_PORT, steps), OneChannel(job, chnl, 62600), Remove(chnl);
    var told := steps + [Notify(job, e)];
    RunAppend(HIGH_PORT, steps, Notify(job, e));
    assert RunSteps(HIGH_PORT, told).objs[u] == m.(queue := [e], accepted := m.accepted + [e]);
    var swapped := told + [SwapQueue(u)];
    RunAppend(HIGH_PORT, told, SwapQueue(u));
    assert RunSteps(HIGH_PORT, swapped).objs[u] == m.(batch := [e], accepted := m.accepted + [e]);
    steps' := swapped + [HandleEvent(u, true)];
    RunAppend(HIGH_PORT, swapped, HandleEvent(u, true));
    RemoveTheOne(job, chnl, s.pool.ports);
    assert RunSteps(HIGH_PORT, steps').objs == s.objs[u := Left(job, chnl)];
  }

  /** Job A has been created and its channel has joined. */
  lemma CreateThenJoin() returns (steps: seq<Step<nat>>)
    requires HIGH_PORT.Valid()
    ensures var s := RunSteps(HIGH_PORT, steps);
            && NeverBetweenReleases(HIGH_PORT, steps) && s.closing == {} && s.tmp == {} && s.pool == Pool(2, {62600})
            && s.mpus == map["A" := 0] && s.objs == map[0 := OneChannel("A", "a", 62600)]
  {
    var created := CreateStep(HIGH_PORT, [], "A", 0);
    QuietAppend(HIGH_PORT, [], [Create("A", 0)]);
    assert created == [] + [Create("A", 0)];
    steps := JoinQuietly(created, "A", 0, "a");
  }

  /** That channel has left, and job B has been created. */
  lemma LeaveThenCreate() returns (steps: seq<Step<nat>>)
    requires HIGH_PORT.Valid()
    ensures var s := RunSteps(HIGH_PORT, steps);
            && NeverBetweenReleases(HIGH_PORT, steps) && s.closing == {} && s.tmp == {} && s.pool == Pool(2, {})
            && s.mpus == map["A" := 0, "B" := 1] && s.objs == map[0 := Left("A", "a"), 1 := NewMpu("B")]
  {
    var joined := CreateThenJoin();
    var left := LeaveJob(joined, "A", 0, "a");
    steps := CreateStep(HIGH_PORT, left, "B", 1);
    var more := [Notify("A", Remove("a")), SwapQueue(0), HandleEvent(0, true), Create("B", 1)];
    assert steps == joined + more;
    QuietAppend(HIGH_PORT, joined, more);
  }

  /** Its port has gone to job B. */
  lemma LeaveThenJoin() returns (steps: seq<Step<nat>>)
    requires HIGH_PORT.Valid()
    ensures var s := RunSteps(HIGH_PORT, steps);
            && NeverBetweenReleases(HIGH_PORT, steps) && s.closing == {} && s.tmp == {} && s.pool.ports == {62600}
            && "A" in s.mpus && s.mpus["A"] == 0
            && s.objs == map[0 := Left("A", "a"), 1 := OneChannel("B", "b", 62600)]
  {
    var createdB := LeaveThenCreate();
    steps := JoinQuietly(createdB, "B", 1, "b");
  }

  /** Then job A is ended and stopped. */
  lemma LeaveThenStop() returns (steps: seq<Step<nat>>)
    requires HIGH_PORT.Valid()
    ensures var s := RunSteps(HIGH_PORT, steps);
            && NeverBetweenReleases(HIGH_PORT, steps) && s.objs.Keys == {0, 1} && s.closing == {0}
            && s.objs[0].status == End && s.objs[0].portList == [62600] && s.objs[1] == OneChannel("B", "b", 62600)
            && s.pool.ports == {62600}
  {
    var joinedB := LeaveThenJoin();
    var ended := joinedB + [EndJob("A")];
    RunAppend(HIGH_PORT, joinedB, EndJob("A"));
    var m := Report(Left("A", "a"), Stop);
    assert RunSteps(HIGH_PORT, ended).objs == map[0 := m, 1 := OneChannel("B", "b", 62600)];
    steps := StopUnit(HIGH_PORT, ended, m);
    assert LivePorts(m) == {};
    var more := [EndJob("A"), SwapQueue(0), HandleEvent(0, true), StopBegins(0), StopEnds(0)];
    assert steps == joinedB + more;
    QuietAppend(HIGH_PORT, joinedB, more);
  }

  /** With a port from 32768 on a mere leave breaks conservation, though no port is issued between a stop
      and its reaper round: the port job A's channel gave back is still listed, goes to job B, and is taken
      away from it when job A is reaped. */
  lemma LeaveBreaksConservation() returns (steps: seq<Step<nat>>)
    requires HIGH_PORT.Valid()
    ensures var s := RunSteps(HIGH_PORT, steps);
            && NeverBetweenReleases(HIGH_PORT, steps)
            && !NeverGivenPast(HIGH_PORT, steps) && !NeverGivenDue(HIGH_PORT, steps)
            && 1 in s.objs && "b" in s.objs[1].apcs && s.objs[1].apcs["b"].port == 62600
            && s.pool.ports == {} && !Conserved(HIGH_PORT, s)
  {
    var stopped := LeaveThenStop();
    var s := RunSteps(HIGH_PORT, stopped);
    assert Finished(s) == {0};
    assert 62600 in Releases(s.objs[0]);
    assert 62600 in ReleasesOf(s.objs, {0});
    steps := stopped + [Reap];
    RunAppend(HIGH_PORT, stopped, Reap);
    QuietAppend(HIGH_PORT, stopped, [Reap]);
    var t := RunSteps(HIGH_PORT, steps);
    assert t.pool.ports == {};
    if Conserved(HIGH_PORT, t) { LiveIsOwned(t, 1, "b"); }
    if NeverGivenDue(HIGH_PORT, steps) { ConservationByHistory(HIGH_PORT, steps); }
    if NeverGivenPast(HIGH_PORT, steps) { HighPortConservation(HIGH_PORT, steps); }
  }

  /* ---- how long a port is safe ---- */

  /** The step is a join to a job that exists: the port allocator runs. */
  predicate Applies<U>(s: Mcu<U>, step: Step<U>) {
    step.Join? && Target(s, step).Some? && Target(s, step).value in s.objs
  }

  /** Every port the server has probed. */
  function Probes<U(==)>(g: Range, steps: seq<Step<U>>): seq<nat>
    requires g.Valid()
    decreases |steps|
  {
    if steps == [] then [] else
      var s, last := RunSteps(g, steps[..|steps| - 1]), steps[|steps| - 1];
      Probes(g, steps[..|steps| - 1]) + (if Applies(s, last) then ApplyOnce(g, s.pool).probed else [])
  }

  lemma StepCursor<U>(g: Range, s: Mcu<U>, step: Step<U>)
    requires g.Valid() && s.pool.cursor % 2 == 0
    ensures Apply(g, s, step).pool.cursor ==
            if Applies(s, step) then ApplyOnce(g, s.pool).pool.cursor else s.pool.cursor
  {
  }

  /** Whatever the server does, its probes follow the cyclic order of the ports. */
  lemma {:induction false} ServerProbesAreCyclic<U>(g: Range, steps: seq<Step<U>>)
    requires g.Valid()
    ensures Cyclic(g, 0, Probes(g, steps), RunSteps(g, steps).pool.cursor)
    decreases |steps|
  {
    if steps == [] {
    } else {
      var before, last := steps[..|steps| - 1], steps[|steps| - 1];
      var s := RunSteps(g, before);
      ServerProbesAreCyclic(g, before);
      StepCursor(g, s, last);
      if Applies(s, last) {
        ApplyExtendsLog(g, Pool(0, {}), Probes(g, before), s.pool);
      } else {
        assert Probes(g, before) + [] == Probes(g, before);
      }
    }
  }

  /** The port was probed, so that it could be issued, fewer than a full turn of probes before the log's
      last one. */
  ghost predicate Recent(g: Range, log: seq<nat>, now: int, port: nat) {
    exists i :: 0 <= i < |log| && log[i] == port && now - i < g.Slots()
  }

  /** At a join every port listed by another unit that has ended was probed less than a full turn ago. */
  ghost predicate ListedRecently<U>(g: Range, before: seq<Step<U>>, step: Step<U>)
    requires g.Valid()
  {
    var s := RunSteps(g, before);
    step.Join? && Target(s, step).Some? ==>
      forall u, p :: u in s.objs && u != Target(s, step).value && s.objs[u].status == End && p in s.objs[u].portList ==>
        Recent(g, Probes(g, before), |Probes(g, before + [step])| - 1, p)
  }

  ghost predicate EndedRecently<U>(g: Range, steps: seq<Step<U>>)
    requires g.Valid()
    decreases |steps|
  {
    steps != [] ==>
      EndedRecently(g, steps[..|steps| - 1]) && ListedRecently(g, steps[..|steps| - 1], steps[|steps| - 1])
  }

  /** A port probed less than a full turn ago is not the one a join is given now. */
  lemma RecentIsNotIssued<U>(g: Range, before: seq<Step<U>>, step: Step<U>, port: nat)
    requires g.Valid() && Applies(RunSteps(g, before), step)
    requires Recent(g, Probes(g, before), |Probes(g, before + [step])| - 1, port)
    ensures ApplyOnce(g, RunSteps(g, before).pool).port != port
  {
    var steps, log, s := before + [step], Probes(g, before), RunSteps(g, before);
    assert steps[..|before|] == before;
    ProbesOfJoin(g, before, step);
    ServerProbesAreCyclic(g, before);
    var i :| 0 <= i < |log| && log[i] == port && |Probes(g, steps)| - 1 - i < g.Slots();
    IssueDiffers(g, log, s.pool, i);
  }

  lemma ProbesOfJoin<U>(g: Range, before: seq<Step<U>>, step: Step<U>)
    requires g.Valid() && Applies(RunSteps(g, before), step)
    ensures Probes(g, before + [step]) == Probes(g, before) + ApplyOnce(g, RunSteps(g, before).pool).probed
  {
    assert (before + [step])[..|before|] == before;
  }

  lemma IssueDiffers(g: Range, log: seq<nat>, pool: Pool, i: nat)
    requires g.Valid() && pool.cursor % 2 == 0 && Cyclic(g, 0, log, pool.cursor)
    requires i < |log| && |log| + |ApplyOnce(g, pool).probed| - 1 - i < g.Slots()
    ensures ApplyOnce(g, pool).port != log[i]
  {
    var r := ApplyOnce(g, pool);
    ApplyExtendsLog(g, Pool(0, {}), log, pool);
    RecentDiffers(g, log, r.probed, i);
  }

  lemma RecentDiffers(g: Range, log: seq<nat>, probed: seq<nat>, i: nat)
    requires g.Valid() && probed != [] && forall k: nat :: k < |log + probed| ==> (log + probed)[k] == g.PortAt(0, k)
    requires i < |log| && |log + probed| - 1 - i < g.Slots()
    ensures log[i] != probed[|probed| - 1] && log[i] != NO_PORT
  {
    var now := |log + probed| - 1;
    assert (log + probed)[i] == log[i] && (log + probed)[now] == probed[|probed| - 1];
    SamePort(g, 0, i, now);
    SmallMod(now - i, g.Slots());
    OffsetIsCyclic(g, 0, i);
    SlotsInRange(g, (g.Wrap(0) / 2 + i) % g.Slots());
  }

  lemma SlotsInRange(g: Range, k: nat)
    requires g.Valid() && k < g.Slots()
    ensures g.point + 2 * k < NO_PORT
  {
  }

  /** If every unit that has ended is reaped before a full turn of probes has passed since its ports were
      last probed, no port is issued between its two releases. */
  lemma {:induction false} EndedRecentlyIsSafe<U>(g: Range, steps: seq<Step<U>>)
    requires g.Valid() && EndedRecently(g, steps)
    ensures NeverBetweenReleases(g, steps)
    decreases |steps|
  {
    if steps == [] {
    } else {
      var before, last := steps[..|steps| - 1], steps[|steps| - 1];
      assert steps == before + [last];
      EndedRecentlyIsSafe(g, before);
      var s := RunSteps(g, before);
      if last.Join? && Target(s, last).Some? {
        JobsAlwaysConserved(g, before);
        forall u | u in s.objs && u != Target(s, last).value && s.objs[u].status == End
          ensures ApplyOnce(g, s.pool).port !in s.objs[u].portList
        {
          forall p | p in s.objs[u].portList ensures p != ApplyOnce(g, s.pool).port {
            RecentIsNotIssued(g, before, last, p);
          }
        }
      }
    }
  }

  /** At a join every port that another unit is due to release, and that none of its channels holds any
      more, was probed less than a full turn ago. */
  ghost predicate DueRecently<U>(g: Range, before: seq<Step<U>>, step: Step<U>)
    requires g.Valid()
  {
    var s := RunSteps(g, before);
    step.Join? && Target(s, step).Some? ==>
      forall u, p ::
        u in s.objs && u != Target(s, step).value && p in Due(g, before, u) && p !in LivePorts(s.objs[u]) ==>
          Recent(g, Probes(g, before), |Probes(g, before + [step])| - 1, p)
  }

  ghost predicate ReapedInTime<U>(g: Range, steps: seq<Step<U>>)
    requires g.Valid()
    decreases |steps|
  {
    steps != [] ==>
      ReapedInTime(g, steps[..|steps| - 1]) && DueRecently(g, steps[..|steps| - 1], steps[|steps| - 1])
  }

  /** A port in the hands of a live channel is not issued, and a recent one neither. */
  lemma RecentIsNotDue<U>(g: Range, before: seq<Step<U>>, step: Step<U>)
    requires g.Valid() && Conserved(g, RunSteps(g, before)) && DueRecently(g, before, step)
    ensures NotGivenDue(g, before, step)
  {
    var s := RunSteps(g, before);
    if step.Join? && Target(s, step).Some? {
      JobsAlwaysConserved(g, before);
      forall u | u in s.objs && u != Target(s, step).value ensures ApplyOnce(g, s.pool).port !in Due(g, before, u) {
        forall p | p in Due(g, before, u) ensures p != ApplyOnce(g, s.pool).port {
          if p in LivePorts(s.objs[u]) { LiveIsNotIssued(g, s, u, p); } else { RecentIsNotIssued(g, before, step, p); }
        }
      }
    }
  }

  lemma LiveIsNotIssued<U>(g: Range, s: Mcu<U>, u: U, port: nat)
    requires g.Valid() && s.pool.cursor % 2 == 0 && Conserved(g, s) && u in s.objs && port in LivePorts(s.objs[u])
    ensures ApplyOnce(g, s.pool).port != port
  {
    assert Owners(s.objs)[u] <= s.pool.ports;
    assert port in s.pool.ports && port != NO_PORT;
  }

  /** How soon units must be gone, for every range of 16-bit ports: if a unit is reaped before a full turn of
      probes has passed since any port it is due to release was last probed, no join is given such a port,
      and ports are conserved at every point of the run. */
  lemma {:induction false} ReapedInTimeConserves<U>(g: Range, steps: seq<Step<U>>)
    requires g.Valid() && SixteenBit(g) && ReapedInTime(g, steps)
    ensures NeverGivenDue(g, steps) && ConservedThroughout(g, steps)
    decreases |steps|
  {
    if steps == [] {
    } else {
      var before := steps[..|steps| - 1];
      ReapedInTimeConserves(g, before);
      RecentIsNotDue(g, before, steps[|steps| - 1]);
    }
    ConservationByHistory(g, steps);
  }
}

/** Short runs of the server, and the examples made of them (src/mcu.cpp, src/mpu.cpp). */
module McuRuns {
  import opened PortAllocator
  import opened MpuState
  import opened McuState

  const ONE_PORT: Range := Range(100, 1)

  function JoinA(job: string, chnl: string): Step<nat> {
    Join(Request(job, chnl, 8000, 8000, 1))
  }

  /** The one channel a unit ends up with in the runs below, handled history included. */
  function OneChannel(job: string, chnl: string, port: nat): Mpu {
    var e := Add(chnl, port, 1, 8000);
    NewMpu(job).(codec := 1, outRate := 8000, apcs := map[chnl := Channel(port, 1)], users := [chnl], userNum := 1,
                 mixer := {chnl}, portList := [port], accepted := [e], handled := [e])
  }

  lemma OnePortIssue(g: Range, cursor: nat)
    requires g.Valid() && g.size == 1 && cursor % 2 == 0 && cursor < 4
    ensures ApplyOnce(g, Pool(cursor, {})) == Applied(Pool(2, {g.point}), g.point, [g.point])
  {
  }

  /** A unit that handles the join of its first channel. */
  lemma FirstJoin(g: Range, steps: seq<Step<nat>>, job: string, u: nat, chnl: string) returns (steps': seq<Step<nat>>)
    requires g.Valid() && g.size == 1
    requires var s := RunSteps(g, steps);
             job in s.mpus && s.mpus[job] == u && u in s.objs && s.objs[u] == NewMpu(job)
             && s.pool.cursor < 4 && s.pool.ports == {}
    ensures var s := RunSteps(g, steps);
            RunSteps(g, steps') == s.(pool := Pool(2, {g.point}), objs := s.objs[u := OneChannel(job, chnl, g.point)])
    ensures steps' == steps + [JoinA(job, chnl)] + [SwapQueue(u)] + [HandleEvent(u, true)]
  {
    var s := RunSteps(g, steps);
    OnePortIssue(g, s.pool.cursor);
    RunAppend(g, steps, JoinA(job, chnl));
    var s1 := RunSteps(g, steps + [JoinA(job, chnl)]);
    var e := Add(chnl, g.point, 1, 8000);
    assert s1.objs[u] == NewMpu(job).(queue := [e], accepted := [e]);
    RunAppend(g, steps + [JoinA(job, chnl)], SwapQueue(u));
    var s2 := RunSteps(g, steps + [JoinA(job, chnl)] + [SwapQueue(u)]);
    assert s2.objs[u] == NewMpu(job).(batch := [e], accepted := [e]);
    RunAppend(g, steps + [JoinA(job, chnl)] + [SwapQueue(u)], HandleEvent(u, true));
    steps' := steps + [JoinA(job, chnl)] + [SwapQueue(u)] + [HandleEvent(u, true)];
    var s3 := RunSteps(g, steps');
    assert [e][1..] == [];
    assert s3.objs[u] == OneChannel(job, chnl, g.point);
    assert s3.objs == s.objs[u := OneChannel(job, chnl, g.point)];
  }

  lemma CreateStep(g: Range, steps: seq<Step<nat>>, job: string, u: nat) returns (steps': seq<Step<nat>>)
    requires g.Valid()
    requires var s := RunSteps(g, steps); job !in s.mpus && u !in s.objs
    ensures var s := RunSteps(g, steps);
            RunSteps(g, steps') ==
            s.(mpus := s.mpus[job := u], objs := s.objs[u := NewMpu(job)], runningJob := s.runningJob + 1)
    ensures steps' == steps + [Create(job, u)]
  {
    steps' := steps + [Create(job, u)];
    RunAppend(g, steps, Create(job, u));
  }

  lemma StopHandled(g: Range, steps: seq<Step<nat>>, m: Mpu) returns (steps': seq<Step<nat>>)
    requires g.Valid()
    requires var s := RunSteps(g, steps); 0 in s.objs && s.objs[0] == m
    requires m.status == Run && m.batch == [] && m.queue == [Stop]
    ensures var s := RunSteps(g, steps);
            RunSteps(g, steps') ==
            s.(objs := s.objs[0 := m.(queue := [], handled := m.handled + [Stop], stopStarts := m.stopStarts + 1)])
    ensures steps' == steps + [SwapQueue(0)] + [HandleEvent(0, true)]
  {
    var steps1 := steps + [SwapQueue(0)];
    RunAppend(g, steps, SwapQueue(0));
    assert RunSteps(g, steps1).objs[0] == m.(batch := [Stop], queue := []);
    RunAppend(g, steps1, HandleEvent(0, true));
    steps' := steps1 + [HandleEvent(0, true)];
    assert [Stop][1..] == [];
  }

  /** A unit whose stop event is queued stops, and releases the ports of its channels. */
  lemma StopUnit(g: Range, steps: seq<Step<nat>>, m: Mpu) returns (steps': seq<Step<nat>>)
    requires g.Valid()
    requires var s := RunSteps(g, steps); 0 in s.objs && s.objs[0] == m
    requires m.status == Run && m.batch == [] && m.queue == [Stop] && m.stopStarts == 0 && !m.stopBegun
    ensures var s, s' := RunSteps(g, steps), RunSteps(g, steps');
            && 0 in s'.objs && s'.objs[0].status == End && s'.objs[0].portList == m.portList && s'.objs[0].apcs == map[]
            && s' == s.(pool := s.pool.(ports := ReleasedAll(g, s.pool.ports, LivePorts(m))),
                        objs := s.objs[0 := s'.objs[0]])
    ensures steps' == steps + [SwapQueue(0)] + [HandleEvent(0, true)] + [StopBegins(0)] + [StopEnds(0)]
  {
    var handled := StopHandled(g, steps, m);
    RunAppend(g, handled, StopBegins(0));
    var begun := handled + [StopBegins(0)];
    var m3 := RunSteps(g, begun).objs[0];
    assert LivePorts(m3) == LivePorts(m);
    RunAppend(g, begun, StopEnds(0));
    steps' := begun + [StopEnds(0)];
  }

  /* ---- a failed unit that is still to be stopped ---- */

  /** A unit with a channel, and so with a mixing thread, is ended ... */
  lemma JoinThenEnd() returns (steps: seq<Step<nat>>)
    requires ONE_PORT.Valid()
    ensures var s := RunSteps(ONE_PORT, steps);
            s.closing == {0} && 0 in s.objs && s.objs[0] == Report(OneChannel("A", "a", 100), Stop)
  {
    var created := CreateStep(ONE_PORT, [], "A", 0);
    var joined := FirstJoin(ONE_PORT, created, "A", 0, "a");
    RunAppend(ONE_PORT, joined, EndJob("A"));
    steps := joined + [EndJob("A")];
  }

  /** ... and left over by a reaper round. */
  lemma JoinEndReap() returns (steps: seq<Step<nat>>)
    requires ONE_PORT.Valid()
    ensures var s := RunSteps(ONE_PORT, steps);
            s.tmp == {0} && 0 in s.objs && s.objs[0] == Report(OneChannel("A", "a", 100), Stop)
  {
    var ended := JoinThenEnd();
    assert Finished(RunSteps(ONE_PORT, ended)) == {};
    RunAppend(ONE_PORT, ended, Reap);
    steps := ended + [Reap];
  }

  /** Units that escape two reaper rounds occur: the stop thread is started after a first round, and the
      mixing thread fails before the stop begins. */
  lemma PendingStopHappens() returns (steps: seq<Step<nat>>)
    requires ONE_PORT.Valid()
    ensures var s := RunSteps(ONE_PORT, steps);
            && 0 in s.tmp && 0 in s.objs && "a" in s.objs[0].apcs
            && Done(s.objs[0]) && !Settled(s.objs[0])
  {
    var reaped := JoinEndReap();
    var m := Report(OneChannel("A", "a", 100), Stop);
    var handled := StopHandled(ONE_PORT, reaped, m);
    RunAppend(ONE_PORT, handled, WorkerFault(0));
    steps := handled + [WorkerFault(0)];
  }

  /* ---- a failing unit ends its namesake ---- */

  /** A job name is used again while the first unit of that name is closing. */
  lemma NameReused(g: Range) returns (steps: seq<Step<nat>>)
    requires g.Valid()
    ensures steps == [Create("A", 0), EndJob("A"), Create("A", 1)]
    ensures var s := RunSteps(g, steps);
            && s.mpus == map["A" := 1] && s.closing == {0}
            && s.objs == map[0 := Report(NewMpu("A"), Stop), 1 := NewMpu("A")]
  {
    var created := CreateStep(g, [], "A", 0);
    RunAppend(g, created, EndJob("A"));
    steps := CreateStep(g, created + [EndJob("A")], "A", 1);
  }

  /** An exception in the closing unit then ends the second job, which nobody asked to end. */
  lemma NamesakeEnded(g: Range) returns (steps: seq<Step<nat>>)
    requires g.Valid()
    ensures steps == [Create("A", 0), EndJob("A"), Create("A", 1)] + [SwapQueue(0)] + [HandlerFault(0, 0)]
    ensures var s := RunSteps(g, steps);
            s.mpus == map[] && s.closing == {0, 1} && 1 in s.objs && s.objs[1] == Report(NewMpu("A"), Stop)
  {
    var reused := NameReused(g);
    var swapped := reused + [SwapQueue(0)];
    RunAppend(g, reused, SwapQueue(0));
    assert RunSteps(g, swapped).objs[0].batch == [Stop];
    RunAppend(g, swapped, HandlerFault(0, 0));
    steps := swapped + [HandlerFault(0, 0)];
  }
}

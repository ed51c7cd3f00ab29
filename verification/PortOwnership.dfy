/** Who owns the allocated ports, over every run of the server (src/mcu.cpp, src/mpu.cpp, src/apc.cpp).

  A port is owned by the channel that listens on it or by the add event that carries it.  An allocated
  port without an owner is leaked: nothing but a later second release can free it.
 */
module PortOwnership {
  import opened Lists
  import opened PortAllocator
  import opened MpuState
  import opened McuRuns
  import opened McuState

  ghost function Owners<U>(objs: map<U, Mpu>): map<U, set<nat>> {
    map u | u in objs :: Owned(objs[u])
  }

  ghost function AllOwned<U>(owners: map<U, set<nat>>): set<nat> {
    set u, p | u in owners && p in owners[u] :: p
  }

  /** The owners' sets are disjoint parts of the allocated ports. */
  ghost predicate Partitioned<U>(owners: map<U, set<nat>>, ports: set<nat>) {
    && (forall u, v :: u in owners && v in owners && u != v ==> owners[u] !! owners[v])
    && (forall u :: u in owners ==> owners[u] <= ports)
  }

  ghost predicate PortsHeld(g: Range, ports: set<nat>) {
    forall p :: p in ports ==> g.Holds(p)
  }

  ghost predicate EachOwnsOnce<U>(objs: map<U, Mpu>) {
    forall u :: u in objs ==> OwnsOnce(objs[u])
  }

  /** Port conservation: no port has two owners, and every owned port is allocated. */
  ghost predicate Conserved<U>(g: Range, s: Mcu<U>) {
    && Partitioned(Owners(s.objs), s.pool.ports)
    && EachOwnsOnce(s.objs)
    && PortsHeld(g, s.pool.ports)
  }

  ghost function Leaked<U>(s: Mcu<U>): set<nat> {
    s.pool.ports - AllOwned(Owners(s.objs))
  }

  lemma AllOwnedUpdate<U>(owners: map<U, set<nat>>, ports: set<nat>, u: U, x: set<nat>)
    requires Partitioned(owners, ports) && u in owners
    ensures AllOwned(owners[u := x]) == AllOwned(owners) - owners[u] + x
    ensures owners[u] <= AllOwned(owners) <= ports
  {
    var owners' := owners[u := x];
    forall p | p in AllOwned(owners) - owners[u] ensures p in AllOwned(owners') {
      var v :| v in owners && p in owners[v];
      assert v in owners' && p in owners'[v];
    }
    forall p | p in x ensures p in AllOwned(owners') {
      assert u in owners' && p in owners'[u];
    }
    forall p | p in AllOwned(owners') && p !in x ensures p in AllOwned(owners) - owners[u] {
      var v :| v in owners' && p in owners'[v];
      assert owners[v] !! owners[u];
    }
  }

  lemma ChangeOneOwner<U>(owners: map<U, set<nat>>, ports: set<nat>, u: U, x: set<nat>, leak: set<nat>,
                          ports': set<nat>)
    requires Partitioned(owners, ports) && u in owners
    requires x !! leak && (x + leak) * ports <= owners[u]
    requires ports' == ports - owners[u] + x + leak
    ensures Partitioned(owners[u := x], ports')
    ensures ports' - AllOwned(owners[u := x]) == (ports - AllOwned(owners)) + leak
  {
    forall v | v in owners && v != u ensures owners[v] !! x && owners[v] <= ports' {
      assert owners[v] <= ports && owners[v] !! owners[u];
    }
    AllOwnedUpdate(owners, ports, u, x);
  }

  /* ---- one unit ---- */

  lemma ReportOwns(m: Mpu, e: Event)
    requires OwnsOnce(m) && (e.Add? ==> e.port !in Owned(m))
    ensures OwnsOnce(Report(m, e))
    ensures Owned(Report(m, e)) == Owned(m) + (if e.Add? && m.status == Run then {e.port} else {})
  {
    if m.status == Run {
      var m' := Report(m, e);
      assert Pending(m') == Pending(m) + [e];
      assert QueuedPorts(m') == QueuedPorts(m) + (if e.Add? then {e.port} else {}) by {
        forall p | p in QueuedPorts(m) ensures p in QueuedPorts(m') {
          var x :| x in Pending(m) && x.Add? && x.port == p;
          assert x in Pending(m');
        }
        if e.Add? { assert e in Pending(m'); }
      }
      forall i | 0 <= i < |Pending(m)| && Pending(m)[i].Add? ensures Pending(m)[i].port in QueuedPorts(m) {
        assert Pending(m)[i] in Pending(m);
      }
      assert LivePorts(m') == LivePorts(m);
    }
  }

  /** The ports a step leaves allocated without an owner: those of rejected joins, of joins to a unit
      that no longer runs, and of the events a unit abandons when it leaves the running state. */
  function LocalLeak<U>(g: Range, m: Mpu, pool: Pool, step: Step<U>): set<nat>
    requires g.Valid() && pool.cursor % 2 == 0
  {
    match step
    case Join(req) =>
      var port := ApplyOnce(g, pool).port;
      var queued := m.status == Run && req.inRate != -1 && req.outRate != -1 && (req.codec == 1 || req.codec == 2)
                    && (m.codec == -1 || m.codec == req.codec);
      if port != NO_PORT && !queued then {port} else {}
    case WorkerFault(_) => QueuedPorts(m)
    case StopBegins(_) => if m.stopStarts > 0 && !m.stopBegun && m.status != End then QueuedPorts(m) else {}
    case _ => {}
  }

  /** From `own` of the allocated `ports` to `own'` of `ports'`: what was owned, plus what was newly
      allocated, is afterwards still owned, leaked or released; the ports of others are untouched. */
  ghost predicate Accounted(ports: set<nat>, own: set<nat>, ports': set<nat>, own': set<nat>, leak: set<nat>) {
    && own' !! leak
    && (own' + leak) * ports <= own
    && ports' == ports - own + own' + leak
  }

  lemma JoinOwnership(g: Range, m: Mpu, pool: Pool, req: Request)
    requires g.Valid() && pool.cursor % 2 == 0
    requires OwnsOnce(m) && Owned(m) <= pool.ports && PortsHeld(g, pool.ports)
    ensures var r := AddChnl(g, m, pool, req);
            && OwnsOnce(r.0) && PortsHeld(g, r.1.ports)
            && Accounted(pool.ports, Owned(m), r.1.ports, Owned(r.0), LocalLeak<int>(g, m, pool, Join(req)))
  {
    var r := ApplyOnce(g, pool);
    if r.port == NO_PORT {
      assert NO_PORT !in pool.ports;
      assert r.pool.ports - {NO_PORT} == pool.ports;
    } else {
      assert r.port !in Owned(m);
      ReportOwns(m, Add(req.chnlId, r.port, req.codec, req.outRate));
    }
  }

  lemma FaultOwnership(m: Mpu, ports: set<nat>)
    requires OwnsOnce(m) && Owned(m) <= ports
    ensures OwnsOnce(FailWorker(m)) && Accounted(ports, Owned(m), ports, Owned(FailWorker(m)), QueuedPorts(m))
  {
    assert LivePorts(FailWorker(m)) == LivePorts(m);
  }

  lemma StopBeginOwnership(m: Mpu, ports: set<nat>)
    requires OwnsOnce(m) && Owned(m) <= ports
    ensures OwnsOnce(BeginStop(m))
    ensures var leak := if m.stopStarts > 0 && !m.stopBegun && m.status != End then QueuedPorts(m) else {};
            Accounted(ports, Owned(m), ports, Owned(BeginStop(m)), leak)
  {
    assert LivePorts(BeginStop(m)) == LivePorts(m);
  }

  lemma StopEndOwnership(g: Range, m: Mpu, ports: set<nat>)
    requires UnitInv(m) && OwnsOnce(m) && Owned(m) <= ports && PortsHeld(g, ports)
    ensures var r := FinishStop(g, m, ports);
            OwnsOnce(r.0) && Accounted(ports, Owned(m), r.1, Owned(r.0), {}) && PortsHeld(g, r.1)
  {
  }

  lemma SwapOwnership(m: Mpu)
    requires UnitInv(m) && OwnsOnce(m)
    ensures OwnsOnce(Swap(m)) && Owned(Swap(m)) == Owned(m)
  {
    SwapKeepsUnit(m);
    assert LivePorts(Swap(m)) == LivePorts(m) && QueuedPorts(Swap(m)) == QueuedPorts(m);
  }

  lemma ReportOwnership(m: Mpu, e: Event, ports: set<nat>)
    requires OwnsOnce(m) && !e.Add? && Owned(m) <= ports
    ensures OwnsOnce(Report(m, e)) && Accounted(ports, Owned(m), ports, Owned(Report(m, e)), {})
  {
    ReportOwns(m, e);
  }

  lemma HandleOwnership(g: Range, m: Mpu, ports: set<nat>, opens: bool)
    requires OwnsOnce(m) && Owned(m) <= ports && PortsHeld(g, ports)
    ensures var r := HandleNext(g, m, ports, opens);
            && OwnsOnce(r.0) && PortsHeld(g, r.1) && Owned(r.0) <= Owned(m)
            && Accounted(ports, Owned(m), r.1, Owned(r.0), {})
  {
    if m.status == Run && m.batch != [] { HandleReleasesWhatItDrops(g, m, ports, opens); }
  }

  lemma LocalOwnership<U>(g: Range, m: Mpu, pool: Pool, step: Step<U>)
    requires g.Valid() && pool.cursor % 2 == 0 && UnitInv(m)
    requires OwnsOnce(m) && Owned(m) <= pool.ports && PortsHeld(g, pool.ports)
    ensures var r := Local(g, m, pool, step);
            && OwnsOnce(r.0) && PortsHeld(g, r.1.ports)
            && Accounted(pool.ports, Owned(m), r.1.ports, Owned(r.0), LocalLeak(g, m, pool, step))
  {
    if step.WorkerFault? || step.StopBegins? || step.StopEnds? {
      StatusOwnership(g, m, pool, step);
    } else {
      QueueOwnership(g, m, pool, step);
    }
  }

  /** The part of it about requests and events ... */
  lemma QueueOwnership<U>(g: Range, m: Mpu, pool: Pool, step: Step<U>)
    requires g.Valid() && pool.cursor % 2 == 0 && UnitInv(m)
    requires OwnsOnce(m) && Owned(m) <= pool.ports && PortsHeld(g, pool.ports)
    requires !step.WorkerFault? && !step.StopBegins? && !step.StopEnds?
    ensures var r := Local(g, m, pool, step);
            && OwnsOnce(r.0) && PortsHeld(g, r.1.ports)
            && Accounted(pool.ports, Owned(m), r.1.ports, Owned(r.0), LocalLeak(g, m, pool, step))
  {
    match step
    case Join(req) => JoinOwnership(g, m, pool, req);
    case Notify(_, e) => if !e.Add? { ReportOwnership(m, e, pool.ports); }
    case DropChannel(_, id) => ReportOwnership(m, Remove(id), pool.ports);
    case SwapQueue(_) => SwapOwnership(m);
    case HandleEvent(_, opens) => HandleOwnership(g, m, pool.ports, opens);
    case _ =>
  }

  /** ... and the part about failures and stops. */
  lemma StatusOwnership<U>(g: Range, m: Mpu, pool: Pool, step: Step<U>)
    requires g.Valid() && pool.cursor % 2 == 0 && UnitInv(m)
    requires OwnsOnce(m) && Owned(m) <= pool.ports && PortsHeld(g, pool.ports)
    requires step.WorkerFault? || step.StopBegins? || step.StopEnds?
    ensures var r := Local(g, m, pool, step);
            && OwnsOnce(r.0) && PortsHeld(g, r.1.ports)
            && Accounted(pool.ports, Owned(m), r.1.ports, Owned(r.0), LocalLeak(g, m, pool, step))
  {
    match step
    case WorkerFault(_) => FaultOwnership(m, pool.ports);
    case StopBegins(_) => StopBeginOwnership(m, pool.ports);
    case StopEnds(_) => StopEndOwnership(g, m, pool.ports);
  }

  /* ---- one step ---- */

  function TargetLeak<U>(g: Range, s: Mcu<U>, step: Step<U>): set<nat>
    requires g.Valid() && s.pool.cursor % 2 == 0
  {
    var t := Target(s, step);
    if t.Some? && t.value in s.objs then LocalLeak(g, s.objs[t.value], s.pool, step) else {}
  }

  /** The queued ports of a unit that fails while handling an event, but for the port of a channel that an
      add has got as far as to enter in the channel map. */
  function AbandonedPorts(m: Mpu, e: Event, reached: nat): set<nat> {
    QueuedPorts(m) - (if e.Add? && e.id !in m.apcs && reached > 0 then {e.port} else {})
  }

  function NewLeak<U>(g: Range, s: Mcu<U>, step: Step<U>): set<nat>
    requires g.Valid() && s.pool.cursor % 2 == 0
  {
    match step
    case HandlerFault(u, reached) =>
      if u !in s.objs || s.objs[u].status != Run || s.objs[u].batch == [] then {}
      else AbandonedPorts(s.objs[u], s.objs[u].batch[0], reached)
    case _ => TargetLeak(g, s, step)
  }

  lemma OwnersUpdate<U>(objs: map<U, Mpu>, u: U, m: Mpu)
    ensures Owners(objs[u := m]) == Owners(objs)[u := Owned(m)]
  {
  }

  lemma ReplaceConserves<U>(g: Range, s: Mcu<U>, u: U, m: Mpu, pool: Pool, leak: set<nat>)
    requires Conserved(g, s) && u in s.objs && OwnsOnce(m) && PortsHeld(g, pool.ports)
    requires Accounted(s.pool.ports, Owned(s.objs[u]), pool.ports, Owned(m), leak)
    ensures var s' := s.(objs := s.objs[u := m], pool := pool);
            Conserved(g, s') && Leaked(s') == Leaked(s) + leak
  {
    OwnersUpdate(s.objs, u, m);
    ChangeOneOwner(Owners(s.objs), s.pool.ports, u, Owned(m), leak, pool.ports);
  }

  lemma EndConserves<U>(g: Range, s: Mcu<U>, jobId: string)
    requires Conserved(g, s)
    ensures Conserved(g, EndMpu(s, jobId)) && Leaked(EndMpu(s, jobId)) == Leaked(s)
  {
    if jobId in s.mpus && s.mpus[jobId] in s.objs {
      var u := s.mpus[jobId];
      ReportOwns(s.objs[u], Stop);
      assert Owned(s.objs[u]) <= s.pool.ports by { assert Owners(s.objs)[u] <= s.pool.ports; }
      ReplaceConserves(g, s, u, Report(s.objs[u], Stop), s.pool, {});
      assert Owners(EndMpu(s, jobId).objs) == Owners(s.objs[u := Report(s.objs[u], Stop)]);
    }
  }

  lemma CreateConserves<U>(g: Range, s: Mcu<U>, u: U, jobId: string)
    requires Conserved(g, s) && u !in s.objs
    ensures var s' := s.(objs := s.objs[u := NewMpu(jobId)]); Conserved(g, s') && Leaked(s') == Leaked(s)
  {
    var s' := s.(objs := s.objs[u := NewMpu(jobId)]);
    assert Owners(s'.objs)[u] == {};
    forall v | v in s.objs ensures Owners(s'.objs)[v] == Owners(s.objs)[v] { }
    forall p | p in AllOwned(Owners(s.objs)) ensures p in AllOwned(Owners(s'.objs)) {
      var v :| v in s.objs && p in Owners(s.objs)[v];
      assert p in Owners(s'.objs)[v];
    }
  }

  /** A unit that fails in the middle of an event keeps the port of a channel it has got as far as to
      enter in its map; the other queued ports are leaked. */
  lemma FailOwnership(g: Range, m: Mpu, ports: set<nat>, reached: nat)
    requires OwnsOnce(m) && Owned(m) <= ports && m.status == Run && m.batch != []
    ensures var m' := FailNext(m, reached);
            && OwnsOnce(m') && Owned(m') <= Owned(m)
            && Accounted(ports, Owned(m), ports, Owned(m'), AbandonedPorts(m, m.batch[0], reached))
  {
    var e := m.batch[0];
    var m' := FailNext(m, reached);
    PopQueued(m);
    if e.Add? && e.id !in m.apcs && reached != 0 {
      LiveAfterAdd(m, e.id, m'.apcs[e.id]);
      assert LivePorts(m') == LivePorts(m) + {e.port};
    } else {
      assert LivePorts(m') == LivePorts(m);
    }
  }

  lemma FaultConserves<U>(g: Range, s: Mcu<U>, u: U, reached: nat)
    requires Conserved(g, s) && u in s.objs && s.objs[u].status == Run && s.objs[u].batch != []
    ensures var m := FailNext(s.objs[u], reached);
            var s' := EndMpu(s.(objs := s.objs[u := m]), s.objs[u].jobId);
            Conserved(g, s') && Leaked(s') == Leaked(s) + AbandonedPorts(s.objs[u], s.objs[u].batch[0], reached)
  {
    var m := FailNext(s.objs[u], reached);
    assert Owners(s.objs)[u] <= s.pool.ports;
    FailOwnership(g, s.objs[u], s.pool.ports, reached);
    ReplaceConserves(g, s, u, m, s.pool, AbandonedPorts(s.objs[u], s.objs[u].batch[0], reached));
    EndConserves(g, s.(objs := s.objs[u := m]), s.objs[u].jobId);
  }

  lemma LocalConserves<U>(g: Range, s: Mcu<U>, step: Step<U>)
    requires g.Valid() && s.pool.cursor % 2 == 0 && UnitsSound(s) && Conserved(g, s)
    ensures var s' := ApplyLocal(g, s, step);
            Conserved(g, s') && Leaked(s') == Leaked(s) + TargetLeak(g, s, step)
  {
    var t := Target(s, step);
    if t.Some? && t.value in s.objs {
      var u := t.value;
      assert Owners(s.objs)[u] <= s.pool.ports;
      LocalOwnership(g, s.objs[u], s.pool, step);
      var r := Local(g, s.objs[u], s.pool, step);
      ReplaceConserves(g, s, u, r.0, r.1, LocalLeak(g, s.objs[u], s.pool, step));
    }
  }

  /** Every step but a reaper round conserves ports, and leaks exactly the ports of NewLeak. */
  lemma StepConserves<U>(g: Range, s: Mcu<U>, step: Step<U>)
    requires g.Valid() && s.pool.cursor % 2 == 0 && UnitsSound(s) && Conserved(g, s) && !step.Reap?
    ensures Conserved(g, Apply(g, s, step))
    ensures Leaked(Apply(g, s, step)) == Leaked(s) + NewLeak(g, s, step)
  {
    match step
    case Create(jobId, newUnit) =>
      if jobId !in s.mpus && newUnit !in s.objs { CreateConserves(g, s, newUnit, jobId); }
    case EndJob(jobId) => EndConserves(g, s, jobId);
    case HandlerFault(u, reached) =>
      if u in s.objs && s.objs[u].status == Run && s.objs[u].batch != [] { FaultConserves(g, s, u, reached); }
    case Reap =>
    case _ =>
      OneUnitStep(g, s, step);
      LocalConserves(g, s, step);
  }

  /** A step that concerns one unit at most, and its leak. */
  lemma OneUnitStep<U>(g: Range, s: Mcu<U>, step: Step<U>)
    requires g.Valid() && s.pool.cursor % 2 == 0
    requires !step.Create? && !step.EndJob? && !step.HandlerFault? && !step.Reap?
    ensures Apply(g, s, step) == ApplyLocal(g, s, step) && NewLeak(g, s, step) == TargetLeak(g, s, step)
  {
  }

  /* ---- the reaper ---- */

  /** No port that the reaper is about to release belongs to a unit that stays. */
  ghost predicate CleanReap<U>(s: Mcu<U>) {
    forall u, v :: u in Finished(s) && v in s.objs && v !in Finished(s) ==>
      Elements(s.objs[u].portList) !! Owned(s.objs[v])
  }

  /** A reaper round conserves ports exactly when it is clean: otherwise it frees a port that a channel
      or a queued add of another unit still owns. */
  lemma ReapConservesIff<U>(g: Range, s: Mcu<U>)
    requires Conserved(g, s)
    ensures Conserved(g, ReaperRound(g, s)) <==> CleanReap(s)
    ensures CleanReap(s) ==> Leaked(ReaperRound(g, s)) == Leaked(s) - ReleasesOf(s.objs, Finished(s))
  {
    var s' := ReaperRound(g, s);
    if CleanReap(s) {
      CleanReapConserves(g, s);
    } else {
      var u, v :| u in Finished(s) && v in s.objs && v !in Finished(s)
                  && !(Elements(s.objs[u].portList) !! Owned(s.objs[v]));
      var p :| p in Elements(s.objs[u].portList) && p in Owned(s.objs[v]);
      assert p in Releases(s.objs[u]);
      assert p in ReleasesOf(s.objs, Finished(s));
      assert Owners(s.objs)[v] <= s.pool.ports;
      assert p !in s'.pool.ports;
      assert v in s'.objs && p in Owners(s'.objs)[v];
    }
  }

  /** What a clean round releases belongs to no unit that stays. */
  lemma ReleasedIsForeign<U>(g: Range, s: Mcu<U>, v: U)
    requires Conserved(g, s) && CleanReap(s) && v in s.objs && v !in Finished(s)
    ensures Owned(s.objs[v]) !! ReleasesOf(s.objs, Finished(s))
  {
    forall p | p in ReleasesOf(s.objs, Finished(s)) ensures p !in Owned(s.objs[v]) {
      var u :| u in Finished(s) && u in s.objs && p in Releases(s.objs[u]);
      if p in LivePorts(s.objs[u]) {
        assert Owners(s.objs)[u] !! Owners(s.objs)[v];
      } else {
        assert p in Elements(s.objs[u].portList);
      }
    }
  }

  /** Taking out units, and with them all they own and possibly more, keeps a partition. */
  lemma PartitionWithout<U>(owners: map<U, set<nat>>, ports: set<nat>, done: set<U>, gone: set<nat>)
    requires Partitioned(owners, ports)
    requires forall v :: v in owners && v in done ==> owners[v] <= gone
    requires forall v :: v in owners && v !in done ==> owners[v] !! gone
    ensures Partitioned(owners - done, ports - gone)
    ensures (ports - gone) - AllOwned(owners - done) == ports - AllOwned(owners) - gone
  {
    forall p | p in ports - gone ensures p in AllOwned(owners) <==> p in AllOwned(owners - done) {
      if p in AllOwned(owners) {
        var v :| v in owners && p in owners[v];
        assert v in owners - done && p in (owners - done)[v];
      }
      if p in AllOwned(owners - done) {
        var v :| v in owners - done && p in (owners - done)[v];
        assert p in owners[v];
      }
    }
  }

  lemma CleanReapConserves<U>(g: Range, s: Mcu<U>)
    requires Conserved(g, s) && CleanReap(s)
    ensures Conserved(g, ReaperRound(g, s))
    ensures Leaked(ReaperRound(g, s)) == Leaked(s) - ReleasesOf(s.objs, Finished(s))
  {
    var s' := ReaperRound(g, s);
    var done := Finished(s);
    var gone := ReleasesOf(s.objs, done);
    AllReleased(g, s.pool.ports, gone);
    assert Owners(s'.objs) == Owners(s.objs) - done;
    forall v | v in s.objs && v !in done ensures Owned(s.objs[v]) !! gone {
      ReleasedIsForeign(g, s, v);
    }
    forall v | v in s.objs && v in done ensures Owned(s.objs[v]) <= gone {
      FinishedReleases(s, v);
    }
    PartitionWithout(Owners(s.objs), s.pool.ports, done, gone);
  }

  /** No port of the range is too low to be released. */
  lemma AllReleased(g: Range, ports: set<nat>, gone: set<nat>)
    requires PortsHeld(g, ports)
    ensures ReleasedAll(g, ports, gone) == ports - gone
  {
  }

  /** A finished unit owns only live ports, and those are released. */
  lemma FinishedReleases<U>(s: Mcu<U>, v: U)
    requires v in Finished(s) && v in s.objs
    ensures Owned(s.objs[v]) <= ReleasesOf(s.objs, Finished(s))
  {
    forall p | p in Owned(s.objs[v]) ensures p in ReleasesOf(s.objs, Finished(s)) {
      assert p in Releases(s.objs[v]);
    }
  }

  /* ---- whole runs ---- */

  /** A run is clean if every reaper round in it is. */
  ghost predicate CleanRun<U>(g: Range, steps: seq<Step<U>>)
    requires g.Valid()
    decreases |steps|
  {
    steps != [] ==>
      && CleanRun(g, steps[..|steps| - 1])
      && (steps[|steps| - 1].Reap? ==> CleanReap(RunSteps(g, steps[..|steps| - 1])))
  }

  lemma StepConservesIff<U>(g: Range, s: Mcu<U>, step: Step<U>)
    requires g.Valid() && s.pool.cursor % 2 == 0 && UnitsSound(s) && Conserved(g, s)
    ensures Conserved(g, Apply(g, s, step)) <==> (step.Reap? ==> CleanReap(s))
  {
    if step.Reap? { ReapConservesIff(g, s); } else { StepConserves(g, s, step); }
  }

  /** Conserved after every prefix of the run. */
  ghost predicate ConservedThroughout<U>(g: Range, steps: seq<Step<U>>)
    requires g.Valid()
    decreases |steps|
  {
    Conserved(g, RunSteps(g, steps)) && (steps != [] ==> ConservedThroughout(g, steps[..|steps| - 1]))
  }

  /** Ports are conserved at every point of a run exactly when its reaper rounds are clean. */
  lemma {:induction false} ConservedIffClean<U>(g: Range, steps: seq<Step<U>>)
    requires g.Valid()
    ensures CleanRun(g, steps) <==> ConservedThroughout(g, steps)
    decreases |steps|
  {
    if steps == [] {
      assert Owners(Init<U>().objs) == map[];
    } else {
      var before := steps[..|steps| - 1];
      ConservedIffClean(g, before);
      if ConservedThroughout(g, before) {
        UnitsAlwaysSound(g, before);
        StepConservesIff(g, RunSteps(g, before), steps[|steps| - 1]);
      }
    }
  }

  lemma LiveIsOwned<U>(s: Mcu<U>, u: U, a: string)
    requires u in s.objs && a in s.objs[u].apcs
    ensures s.objs[u].apcs[a].port in Owners(s.objs)[u]
  {
    assert s.objs[u].apcs[a].port in LivePorts(s.objs[u]);
  }

  /** While ports are conserved no two live channels, of whatever jobs, listen on the same port. */
  lemma NoTwoChannelsShare<U>(g: Range, s: Mcu<U>, u: U, a: string, v: U, b: string)
    requires Conserved(g, s) && u in s.objs && v in s.objs && a in s.objs[u].apcs && b in s.objs[v].apcs
    requires s.objs[u].apcs[a].port == s.objs[v].apcs[b].port
    ensures u == v && a == b
  {
    LiveIsOwned(s, u, a);
    LiveIsOwned(s, v, b);
  }

  /* ---- when runs are clean ---- */

  /** No listed port belongs to another unit. */
  ghost predicate ListsApart<U>(s: Mcu<U>) {
    forall u, v :: u in s.objs && v in s.objs && u != v ==> Elements(s.objs[u].portList) !! Owned(s.objs[v])
  }

  /** A join is not given a port that some other unit has listed, and so will release at its end. */
  ghost predicate NotDue<U>(g: Range, s: Mcu<U>, step: Step<U>)
    requires g.Valid() && s.pool.cursor % 2 == 0
  {
    step.Join? && Target(s, step).Some? ==>
      forall u :: u in s.objs && u != Target(s, step).value ==> ApplyOnce(g, s.pool).port !in s.objs[u].portList
  }

  ghost predicate NeverDue<U>(g: Range, steps: seq<Step<U>>)
    requires g.Valid()
    decreases |steps|
  {
    steps != [] ==>
      NeverDue(g, steps[..|steps| - 1]) && NotDue(g, RunSteps(g, steps[..|steps| - 1]), steps[|steps| - 1])
  }

  function Issued<U>(g: Range, pool: Pool, step: Step<U>): set<nat>
    requires g.Valid() && pool.cursor % 2 == 0
  {
    if step.Join? then {ApplyOnce(g, pool).port} else {}
  }

  /** A unit lists only ports it owned, and comes to own only what was issued to it. */
  lemma LocalLists<U>(g: Range, m: Mpu, pool: Pool, step: Step<U>)
    requires g.Valid() && pool.cursor % 2 == 0 && UnitInv(m)
    requires OwnsOnce(m) && Owned(m) <= pool.ports && PortsHeld(g, pool.ports)
    ensures var m' := Local(g, m, pool, step).0;
            && Elements(m'.portList) <= Elements(m.portList) + Owned(m)
            && Owned(m') <= Owned(m) + Issued(g, pool, step)
  {
    LocalOwnership(g, m, pool, step);
    match step
    case Join(req) =>
      var r := ApplyOnce(g, pool);
      if r.port != NO_PORT { ReportOwns(m, Add(req.chnlId, r.port, req.codec, req.outRate)); }
    case HandleEvent(_, opens) =>
      HandleOwnership(g, m, pool.ports, opens);
      HandleLists(g, m, pool.ports, opens);
    case _ =>
  }

  lemma HandleLists(g: Range, m: Mpu, ports: set<nat>, opens: bool)
    requires OwnsOnce(m)
    ensures Elements(HandleNext(g, m, ports, opens).0.portList) <= Elements(m.portList) + Owned(m)
  {
    if m.status == Run && m.batch != [] {
      PopQueued(m);
      var e := m.batch[0];
      if e.Remove? && e.id in m.apcs {
        RemoveAllElements(m.portList, NarrowedPort(m.apcs[e.id].port));
      }
    }
  }

  lemma ReplaceKeepsApart<U>(s: Mcu<U>, u: U, m: Mpu, pool: Pool, issued: set<nat>)
    requires ListsApart(s) && EachOwnsOnce(s.objs) && Partitioned(Owners(s.objs), s.pool.ports) && u in s.objs
    requires Elements(m.portList) <= Elements(s.objs[u].portList) + Owned(s.objs[u])
    requires Owned(m) <= Owned(s.objs[u]) + issued
    requires forall v :: v in s.objs && v != u ==> Elements(s.objs[v].portList) !! issued
    ensures ListsApart(s.(objs := s.objs[u := m], pool := pool))
  {
    forall v | v in s.objs && v != u ensures Owned(s.objs[u]) !! Owned(s.objs[v]) {
      assert Owners(s.objs)[u] !! Owners(s.objs)[v];
    }
  }

  lemma EndKeepsApart<U>(s: Mcu<U>, jobId: string)
    requires ListsApart(s) && EachOwnsOnce(s.objs) && Partitioned(Owners(s.objs), s.pool.ports)
    ensures ListsApart(EndMpu(s, jobId))
  {
    if jobId in s.mpus && s.mpus[jobId] in s.objs {
      var u := s.mpus[jobId];
      ReportOwns(s.objs[u], Stop);
      ReplaceKeepsApart(s, u, Report(s.objs[u], Stop), s.pool, {});
    }
  }

  lemma LocalKeepsApart<U>(g: Range, s: Mcu<U>, step: Step<U>)
    requires g.Valid() && s.pool.cursor % 2 == 0 && UnitsSound(s) && Conserved(g, s) && ListsApart(s)
    requires NotDue(g, s, step)
    ensures ListsApart(ApplyLocal(g, s, step))
  {
    var t := Target(s, step);
    if t.Some? && t.value in s.objs {
      var u := t.value;
      assert Owners(s.objs)[u] <= s.pool.ports;
      LocalLists(g, s.objs[u], s.pool, step);
      var r := Local(g, s.objs[u], s.pool, step);
      ReplaceKeepsApart(s, u, r.0, r.1, Issued(g, s.pool, step));
    }
  }

  lemma FaultKeepsApart<U>(g: Range, s: Mcu<U>, u: U, reached: nat)
    requires Conserved(g, s) && ListsApart(s) && u in s.objs && s.objs[u].status == Run && s.objs[u].batch != []
    ensures ListsApart(EndMpu(s.(objs := s.objs[u := FailNext(s.objs[u], reached)]), s.objs[u].jobId))
  {
    var m := FailNext(s.objs[u], reached);
    assert Owners(s.objs)[u] <= s.pool.ports;
    FailOwnership(g, s.objs[u], s.pool.ports, reached);
    ReplaceConserves(g, s, u, m, s.pool, AbandonedPorts(s.objs[u], s.objs[u].batch[0], reached));
    ReplaceKeepsApart(s, u, m, s.pool, {});
    EndKeepsApart(s.(objs := s.objs[u := m]), s.objs[u].jobId);
  }

  lemma StepKeepsApart<U>(g: Range, s: Mcu<U>, step: Step<U>)
    requires g.Valid() && s.pool.cursor % 2 == 0 && UnitsSound(s) && Conserved(g, s) && ListsApart(s)
    requires NotDue(g, s, step)
    ensures ListsApart(Apply(g, s, step))
  {
    match step
    case Create(jobId, _) => assert Owned(NewMpu(jobId)) == {};
    case EndJob(jobId) => EndKeepsApart(s, jobId);
    case HandlerFault(u, reached) =>
      if u in s.objs && s.objs[u].status == Run && s.objs[u].batch != [] {
        FaultKeepsApart(g, s, u, reached);
      }
    case Reap =>
    case _ => LocalKeepsApart(g, s, step);
  }

  /** Port conservation over runs: if no port is issued while a unit still has it listed for release,
      every reaper round is clean, so ports are conserved at every point of the run. */
  lemma {:induction false} NeverDueIsClean<U>(g: Range, steps: seq<Step<U>>)
    requires g.Valid() && NeverDue(g, steps)
    ensures CleanRun(g, steps) && Conserved(g, RunSteps(g, steps)) && ListsApart(RunSteps(g, steps))
    decreases |steps|
  {
    if steps == [] {
      ConservedIffClean(g, steps);
    } else {
      var before := steps[..|steps| - 1];
      NeverDueIsClean(g, before);
      UnitsAlwaysSound(g, before);
      StepKeepsApart(g, RunSteps(g, before), steps[|steps| - 1]);
      ConservedIffClean(g, steps);
    }
  }

  /* ---- ports up to 32767 ---- */

  predicate LowRange(g: Range) {
    g.point < 0x8000 && g.point + g.size <= 0x8000
  }

  /** The list names live ports only and lacks at most the one of an add that was interrupted. */
  ghost predicate ListsLiveUpToOne(m: Mpu) {
    NoDup(m.portList) && Elements(m.portList) <= LivePorts(m) && exists p :: LivePorts(m) - {p} <= Elements(m.portList)
  }

  ghost predicate ListSound(m: Mpu) {
    && (m.status == Run ==> ListsLive(m))
    && (m.status != End ==> ListsLiveUpToOne(m))
  }

  /** While a unit runs its port list is exactly its live ports; until it has ended it names no other. */
  ghost predicate ListsExact<U>(s: Mcu<U>) {
    forall u :: u in s.objs ==> ListSound(s.objs[u])
  }

  lemma ListsLiveIsUpToOne(m: Mpu)
    requires ListsLive(m)
    ensures ListsLiveUpToOne(m)
  {
    assert LivePorts(m) - {0} <= Elements(m.portList);
  }

  lemma FaultKeepsList(m: Mpu, reached: nat)
    requires m.status == Run && m.batch != [] && ListsLive(m)
    ensures ListsLiveUpToOne(FailNext(m, reached))
  {
    var e := m.batch[0];
    var m' := FailNext(m, reached);
    ListsLiveIsUpToOne(m);
    if e.Add? && e.id !in m.apcs && reached != 0 {
      LiveAfterAdd(m, e.id, m'.apcs[e.id]);
      assert LivePorts(m') - {e.port} <= Elements(m'.portList);
    } else {
      assert LivePorts(m') == LivePorts(m);
    }
  }

  /** The list and the live ports are untouched. */
  ghost predicate SameLists(m: Mpu, m': Mpu) {
    m'.portList == m.portList && LivePorts(m') == LivePorts(m) && (m'.status == m.status || m'.status != Run)
  }

  lemma SameListsSound(m: Mpu, m': Mpu)
    requires SameLists(m, m') && ListSound(m) && (m.status != End || m'.status == End)
    ensures ListSound(m')
  {
  }

  lemma HandleKeepsList(g: Range, m: Mpu, ports: set<nat>, opens: bool)
    requires LowRange(g) && OwnsOnce(m) && Owned(m) <= ports && PortsHeld(g, ports) && ListSound(m)
    ensures ListSound(HandleNext(g, m, ports, opens).0)
  {
    if m.status == Run && m.batch != [] {
      PopQueued(m);
      var e := m.batch[0];
      var m1 := m.(batch := m.batch[1..], handled := m.handled + [e]);
      assert LivePorts(m1) == LivePorts(m);
      EffectKeepsListIff(g, m1, ports, e, opens);
      assert e.Remove? && e.id in m.apcs ==> m.apcs[e.id].port in LivePorts(m);
      EffectFrame(g, m1, ports, e, opens);
      ListsLiveIsUpToOne(Effect(g, m1, ports, e, opens).0);
    }
  }

  lemma LocalKeepsList<U>(g: Range, m: Mpu, pool: Pool, step: Step<U>)
    requires g.Valid() && LowRange(g) && pool.cursor % 2 == 0
    requires OwnsOnce(m) && Owned(m) <= pool.ports && PortsHeld(g, pool.ports) && ListSound(m)
    ensures ListSound(Local(g, m, pool, step).0)
  {
    match step
    case HandleEvent(_, opens) => HandleKeepsList(g, m, pool.ports, opens);
    case StopEnds(_) =>
      if m.stopBegun && m.status != End {
        assert Local(g, m, pool, step).0.status == End;
      }
    case _ =>
      var m' := Local(g, m, pool, step).0;
      assert m'.apcs == m.apcs && m'.portList == m.portList;
      assert LivePorts(m') == LivePorts(m);
      SameListsSound(m, m');
  }

  lemma EndKeepsLists<U>(s: Mcu<U>, jobId: string)
    requires ListsExact(s)
    ensures ListsExact(EndMpu(s, jobId))
  {
    if jobId in s.mpus && s.mpus[jobId] in s.objs {
      var m := s.objs[s.mpus[jobId]];
      assert LivePorts(Report(m, Stop)) == LivePorts(m);
      SameListsSound(m, Report(m, Stop));
    }
  }

  lemma ReplaceKeepsLists<U>(s: Mcu<U>, u: U, m: Mpu, pool: Pool)
    requires ListsExact(s) && u in s.objs && ListSound(m)
    ensures ListsExact(s.(objs := s.objs[u := m], pool := pool))
  {
  }

  lemma LocalKeepsLists<U>(g: Range, s: Mcu<U>, step: Step<U>)
    requires g.Valid() && LowRange(g) && s.pool.cursor % 2 == 0 && Conserved(g, s) && ListsExact(s)
    ensures ListsExact(ApplyLocal(g, s, step))
  {
    var t := Target(s, step);
    if t.Some? && t.value in s.objs {
      var u := t.value;
      assert Owners(s.objs)[u] <= s.pool.ports;
      LocalKeepsList(g, s.objs[u], s.pool, step);
      var r := Local(g, s.objs[u], s.pool, step);
      ReplaceKeepsLists(s, u, r.0, r.1);
    }
  }

  lemma StepKeepsLists<U>(g: Range, s: Mcu<U>, step: Step<U>)
    requires g.Valid() && LowRange(g) && s.pool.cursor % 2 == 0 && Conserved(g, s) && ListsExact(s)
    ensures ListsExact(Apply(g, s, step))
  {
    match step
    case Create(jobId, _) => ListsLiveIsUpToOne(NewMpu(jobId));
    case EndJob(jobId) => EndKeepsLists(s, jobId);
    case HandlerFault(u, reached) =>
      if u in s.objs && s.objs[u].status == Run && s.objs[u].batch != [] {
        var m := FailNext(s.objs[u], reached);
        FaultKeepsList(s.objs[u], reached);
        ReplaceKeepsLists(s, u, m, s.pool);
        EndKeepsLists(s.(objs := s.objs[u := m]), s.objs[u].jobId);
      }
    case Reap =>
    case _ => LocalKeepsLists(g, s, step);
  }

  /** No join is given a port between its two releases: after a stop freed it, before the reaper frees
      it again. */
  ghost predicate NotBetweenReleases<U>(g: Range, s: Mcu<U>, step: Step<U>)
    requires g.Valid() && s.pool.cursor % 2 == 0
  {
    step.Join? && Target(s, step).Some? ==>
      forall u :: u in s.objs && u != Target(s, step).value && s.objs[u].status == End ==>
        ApplyOnce(g, s.pool).port !in s.objs[u].portList
  }

  ghost predicate NeverBetweenReleases<U>(g: Range, steps: seq<Step<U>>)
    requires g.Valid()
    decreases |steps|
  {
    steps != [] ==>
      && NeverBetweenReleases(g, steps[..|steps| - 1])
      && NotBetweenReleases(g, RunSteps(g, steps[..|steps| - 1]), steps[|steps| - 1])
  }

  lemma LowNotDue<U>(g: Range, s: Mcu<U>, step: Step<U>)
    requires g.Valid() && s.pool.cursor % 2 == 0 && Conserved(g, s) && ListsExact(s)
    requires NotBetweenReleases(g, s, step)
    ensures NotDue(g, s, step)
  {
    if step.Join? && Target(s, step).Some? {
      var port := ApplyOnce(g, s.pool).port;
      forall u | u in s.objs && u != Target(s, step).value ensures port !in s.objs[u].portList {
        if s.objs[u].status != End {
          assert Owners(s.objs)[u] <= s.pool.ports;
          assert port !in Elements(s.objs[u].portList);
        }
      }
    }
  }

  /** Port conservation for ports up to 32767: over every run in which no port is issued again between
      its two releases, the allocated ports are always the disjoint union of the live channels' ports,
      the queued add events' ports and the leaked ones, and every running unit lists exactly its live
      ports. */
  lemma {:induction false} PortConservation<U>(g: Range, steps: seq<Step<U>>)
    requires g.Valid() && LowRange(g) && NeverBetweenReleases(g, steps)
    ensures Conserved(g, RunSteps(g, steps)) && ListsExact(RunSteps(g, steps)) && NeverDue(g, steps)
    decreases |steps|
  {
    if steps == [] {
    } else {
      var before := steps[..|steps| - 1];
      PortConservation(g, before);
      LowNotDue(g, RunSteps(g, before), steps[|steps| - 1]);
      StepKeepsLists(g, RunSteps(g, before), steps[|steps| - 1]);
    }
    NeverDueIsClean(g, steps);
  }

  /** All ports leaked along a run. */
  function LeakHistory<U(==)>(g: Range, steps: seq<Step<U>>): set<nat>
    requires g.Valid()
    decreases |steps|
  {
    if steps == [] then {} else
      LeakHistory(g, steps[..|steps| - 1]) + NewLeak(g, RunSteps(g, steps[..|steps| - 1]), steps[|steps| - 1])
  }

  lemma StepLeaks<U>(g: Range, s: Mcu<U>, step: Step<U>)
    requires g.Valid() && s.pool.cursor % 2 == 0 && UnitsSound(s) && Conserved(g, s)
    requires step.Reap? ==> CleanReap(s)
    ensures Leaked(Apply(g, s, step)) <= Leaked(s) + NewLeak(g, s, step)
  {
    if step.Reap? { ReapConservesIff(g, s); } else { StepConserves(g, s, step); }
  }

  /** An allocated port that nobody owns was left behind by a rejected join, a join to a unit that no
      longer ran, or a unit that left the running state with the add event still queued. */
  lemma {:induction false} LeaksHaveACause<U>(g: Range, steps: seq<Step<U>>)
    requires g.Valid() && CleanRun(g, steps)
    ensures Leaked(RunSteps(g, steps)) <= LeakHistory(g, steps)
    decreases |steps|
  {
    if steps == [] {
      assert Init<U>().pool.ports == {};
    } else {
      var before := steps[..|steps| - 1];
      LeaksHaveACause(g, before);
      ConservedIffClean(g, before);
      UnitsAlwaysSound(g, before);
      StepLeaks(g, RunSteps(g, before), steps[|steps| - 1]);
    }
  }

  /* ---- the condition is needed ---- */

  /** Job A gets port 100, is ended and stopped: the port is free but still listed. */
  lemma StopJobA() returns (steps: seq<Step<nat>>)
    requires ONE_PORT.Valid()
    ensures var s := RunSteps(ONE_PORT, steps);
            && s.pool == Pool(2, {}) && s.mpus == map[] && s.closing == {0} && s.tmp == {}
            && s.objs.Keys == {0} && s.objs[0].status == End && s.objs[0].portList == [100] && s.objs[0].apcs == map[]
  {
    var created := CreateStep(ONE_PORT, [], "A", 0);
    var joined := FirstJoin(ONE_PORT, created, "A", 0, "a");
    var m := OneChannel("A", "a", 100);
    assert RunSteps(ONE_PORT, joined).objs[0] == m;
    RunAppend(ONE_PORT, joined, EndJob("A"));
    steps := StopUnit(ONE_PORT, joined + [EndJob("A")], Report(m, Stop));
    assert "a" in m.apcs && 100 in LivePorts(Report(m, Stop));
  }

  /** The port goes to job B ... */
  lemma JoinJobB() returns (steps: seq<Step<nat>>)
    requires ONE_PORT.Valid()
    ensures var s := RunSteps(ONE_PORT, steps);
            && s.pool == Pool(2, {100}) && s.mpus == map["B" := 1] && s.closing == {0} && s.tmp == {}
            && s.objs.Keys == {0, 1} && s.objs[0].status == End && s.objs[0].portList == [100]
            && s.objs[1] == OneChannel("B", "b", 100)
  {
    var stopped := StopJobA();
    var created := CreateStep(ONE_PORT, stopped, "B", 1);
    steps := FirstJoin(ONE_PORT, created, "B", 1, "b");
  }

  /** ... and job A's reaper round takes it away from there. */
  lemma ReapJobA() returns (steps: seq<Step<nat>>)
    requires ONE_PORT.Valid()
    ensures var s := RunSteps(ONE_PORT, steps);
            && s.pool == Pool(2, {}) && s.mpus == map["B" := 1] && s.objs == map[1 := OneChannel("B", "b", 100)]
  {
    var joined := JoinJobB();
    var s := RunSteps(ONE_PORT, joined);
    assert Finished(s) == {0};
    assert 100 in Releases(s.objs[0]);
    assert 100 in ReleasesOf(s.objs, {0});
    RunAppend(ONE_PORT, joined, Reap);
    steps := joined + [Reap];
    assert RunSteps(ONE_PORT, steps).pool.ports == {};
  }

  /** A run in which a port is issued between its two releases, and in which two channels of two jobs
      then listen on the same port: the second release of job A's port takes it away from job B, and job
      C is given it again. */
  lemma SharingHappens() returns (steps: seq<Step<nat>>)
    requires ONE_PORT.Valid()
    ensures var s := RunSteps(ONE_PORT, steps);
            && 1 in s.objs && 2 in s.objs
            && "b" in s.objs[1].apcs && s.objs[1].apcs["b"].port == 100
            && "c" in s.objs[2].apcs && s.objs[2].apcs["c"].port == 100
            && !Conserved(ONE_PORT, s) && !NeverBetweenReleases(ONE_PORT, steps)
  {
    var reaped := ReapJobA();
    var created := CreateStep(ONE_PORT, reaped, "C", 2);
    steps := FirstJoin(ONE_PORT, created, "C", 2, "c");
    var t := RunSteps(ONE_PORT, steps);
    assert t.objs[1] == OneChannel("B", "b", 100) && t.objs[2] == OneChannel("C", "c", 100);
    if Conserved(ONE_PORT, t) { NoTwoChannelsShare(ONE_PORT, t, 1, "b", 2, "c"); }
    if NeverBetweenReleases(ONE_PORT, steps) { PortConservation(ONE_PORT, steps); }
  }
}

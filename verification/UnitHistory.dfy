/** What a unit is, in terms of what was addressed to it over a whole run (src/mcu.cpp, src/mpu.cpp).

  The histories below are read off the steps of a run and the tables they met, not off the units' own
  records.
 */
module UnitHistory {
  import opened PortAllocator
  import opened MpuState
  import opened McuState

  /* ---- the events addressed to a unit ---- */

  /** The event a step addresses to a unit, if it runs: a join that is given a port and passes every check,
      a notification, a channel that reported itself failed, the end of the unit's job, or an exception in
      another unit that goes by the name of that job. */
  function AddressedBy<U(==)>(g: Range, s: Mcu<U>, step: Step<U>, u: U): seq<Event>
    requires g.Valid() && s.pool.cursor % 2 == 0 && u in s.objs
  {
    match step
    case Join(req) =>
      var port, codec := ApplyOnce(g, s.pool).port, s.objs[u].codec;
      if req.jobId in s.mpus && s.mpus[req.jobId] == u && port != NO_PORT && req.inRate != -1 && req.outRate != -1
         && (req.codec == 1 || req.codec == 2) && (codec == -1 || codec == req.codec)
      then [Add(req.chnlId, port, req.codec, req.outRate)] else []
    case Notify(jobId, e) => if jobId in s.mpus && s.mpus[jobId] == u && !e.Add? && !e.Stop? then [e] else []
    case DropChannel(v, id) => if v == u then [Remove(id)] else []
    case EndJob(jobId) => if jobId in s.mpus && s.mpus[jobId] == u then [Stop] else []
    case HandlerFault(v, _) =>
      if v != u && v in s.objs && s.objs[v].status == Run && s.objs[v].batch != []
         && s.objs[v].jobId in s.mpus && s.mpus[s.objs[v].jobId] == u
      then [Stop] else []
    case _ => []
  }

  /** All events addressed to a unit while it ran, in the order of the steps. */
  function Addressed<U(==)>(g: Range, steps: seq<Step<U>>, u: U): seq<Event>
    requires g.Valid()
    decreases |steps|
  {
    if steps == [] || u !in RunSteps(g, steps).objs then [] else
      var before, last := steps[..|steps| - 1], steps[|steps| - 1];
      var s := RunSteps(g, before);
      Addressed(g, before, u) +
      (if u in s.objs && s.objs[u].status == Run then AddressedBy(g, s, last, u) else [])
  }

  /** A unit takes part in a step: what it accepted grows by what was addressed to it. */
  ghost predicate Takes(m: Mpu, m': Mpu, events: seq<Event>) {
    m'.accepted == m.accepted + (if m.status == Run then events else [])
  }

  lemma ReportTakes(m: Mpu, e: Event)
    ensures Takes(m, Report(m, e), [e])
  {
    assert m.accepted + [] == m.accepted;
  }

  lemma NothingTaken(m: Mpu, m': Mpu)
    requires m'.accepted == m.accepted
    ensures Takes(m, m', [])
  {
    assert m.accepted + [] == m.accepted;
  }

  lemma HandleTakes(g: Range, m: Mpu, ports: set<nat>, opens: bool)
    ensures Takes(m, HandleNext(g, m, ports, opens).0, [])
  {
    if m.status == Run && m.batch != [] {
      EffectFrame(g, m.(batch := m.batch[1..], handled := m.handled + [m.batch[0]]), ports, m.batch[0], opens);
    }
    NothingTaken(m, HandleNext(g, m, ports, opens).0);
  }

  lemma LocalTakes<U>(g: Range, s: Mcu<U>, step: Step<U>, u: U)
    requires g.Valid() && s.pool.cursor % 2 == 0 && u in s.objs && Target(s, step) == Some(u)
    ensures Takes(s.objs[u], Local(g, s.objs[u], s.pool, step).0, AddressedBy(g, s, step, u))
  {
    var m := s.objs[u];
    match step
    case Join(req) =>
      var port := ApplyOnce(g, s.pool).port;
      if port != NO_PORT && Accepts(m, req) {
        ReportTakes(m, Add(req.chnlId, port, req.codec, req.outRate));
      } else {
        NothingTaken(m, m);
      }
    case Notify(_, e) => if e.Add? || e.Stop? { NothingTaken(m, m); } else { ReportTakes(m, e); }
    case DropChannel(_, id) => ReportTakes(m, Remove(id));
    case HandleEvent(_, opens) => HandleTakes(g, m, s.pool.ports, opens);
    case SwapQueue(_) | WorkerFault(_) | StopBegins(_) | StopEnds(_) => NothingTaken(m, Local(g, m, s.pool, step).0);
    case Create(_, _) | EndJob(_) | HandlerFault(_, _) | Reap =>
  }

  lemma EndTakes<U>(s: Mcu<U>, jobId: string, u: U)
    requires u in s.objs
    ensures Takes(s.objs[u], EndMpu(s, jobId).objs[u], if jobId in s.mpus && s.mpus[jobId] == u then [Stop] else [])
  {
    if jobId in s.mpus && s.mpus[jobId] == u {
      ReportTakes(s.objs[u], Stop);
    } else {
      NothingTaken(s.objs[u], s.objs[u]);
    }
  }

  lemma FaultTakes<U>(g: Range, s: Mcu<U>, v: U, reached: nat, u: U)
    requires g.Valid() && s.pool.cursor % 2 == 0 && u in s.objs
    ensures var fault := HandlerFault(v, reached);
            Takes(s.objs[u], Apply(g, s, fault).objs[u], AddressedBy(g, s, fault, u))
  {
    if v in s.objs && s.objs[v].status == Run && s.objs[v].batch != [] {
      var m := FailNext(s.objs[v], reached);
      var failed := s.(objs := s.objs[v := m]);
      EndTakes(failed, s.objs[v].jobId, u);
      if u == v {
        NothingTaken(s.objs[u], m);
        assert m.accepted == s.objs[u].accepted && m.status == Exce;
      }
    } else {
      NothingTaken(s.objs[u], s.objs[u]);
    }
  }

  lemma StepTakes<U>(g: Range, s: Mcu<U>, step: Step<U>, u: U)
    requires g.Valid() && s.pool.cursor % 2 == 0 && u in s.objs && u in Apply(g, s, step).objs
    ensures Takes(s.objs[u], Apply(g, s, step).objs[u], AddressedBy(g, s, step, u))
  {
    match step
    case Create(_, _) => NothingTaken(s.objs[u], s.objs[u]);
    case EndJob(jobId) => EndTakes(s, jobId, u);
    case HandlerFault(v, reached) => FaultTakes(g, s, v, reached, u);
    case Reap => NothingTaken(s.objs[u], s.objs[u]);
    case _ => ApplyLocalTakes(g, s, step, u);
  }

  lemma ApplyLocalTakes<U>(g: Range, s: Mcu<U>, step: Step<U>, u: U)
    requires g.Valid() && s.pool.cursor % 2 == 0 && u in s.objs
    requires !step.Create? && !step.EndJob? && !step.HandlerFault? && !step.Reap?
    ensures Takes(s.objs[u], ApplyLocal(g, s, step).objs[u], AddressedBy(g, s, step, u))
  {
    if Target(s, step) == Some(u) {
      LocalTakes(g, s, step, u);
    } else {
      NothingTaken(s.objs[u], s.objs[u]);
    }
  }

  /** What a unit has accepted is what was addressed to it. */
  lemma {:induction false} AcceptedIsAddressed<U>(g: Range, steps: seq<Step<U>>, u: U)
    requires g.Valid() && u in RunSteps(g, steps).objs
    ensures RunSteps(g, steps).objs[u].accepted == Addressed(g, steps, u)
    decreases |steps|
  {
    if steps == [] {
    } else {
      var before, last := steps[..|steps| - 1], steps[|steps| - 1];
      var s := RunSteps(g, before);
      if u in s.objs {
        AcceptedIsAddressed(g, before, u);
        StepTakes(g, s, last, u);
      } else {
        NewcomerIsNew(g, s, last, u);
        assert Addressed(g, before, u) == [];
      }
    }
  }

  lemma NewcomerIsNew<U>(g: Range, s: Mcu<U>, step: Step<U>, u: U)
    requires g.Valid() && s.pool.cursor % 2 == 0 && u !in s.objs && u in Apply(g, s, step).objs
    ensures step.Create? && Apply(g, s, step).objs[u] == NewMpu(step.jobId)
  {
  }

  /** First in, first out, over every run: the events a unit has handled are the first of those addressed to
      it while it ran; and as long as it runs the rest waits in batch and queue, in the order of arrival. */
  lemma HandledInOrder<U>(g: Range, steps: seq<Step<U>>, u: U)
    requires g.Valid() && u in RunSteps(g, steps).objs
    ensures var m := RunSteps(g, steps).objs[u];
            && m.handled <= Addressed(g, steps, u)
            && (m.status == Run ==> m.handled + m.batch + m.queue == Addressed(g, steps, u))
  {
    AcceptedIsAddressed(g, steps, u);
    UnitsAlwaysSound(g, steps);
  }

  /* ---- the unit as the replay of what it handled ---- */

  /** The events a unit handled while it ran, with the outcome of opening their codecs. */
  function HandledBy<U(==)>(g: Range, steps: seq<Step<U>>, u: U): seq<Handled>
    requires g.Valid()
    decreases |steps|
  {
    if steps == [] || u !in RunSteps(g, steps).objs then [] else
      var before, last := steps[..|steps| - 1], steps[|steps| - 1];
      var s := RunSteps(g, before);
      HandledBy(g, before, u) +
      (if last.HandleEvent? && last.unit == u && u in s.objs && s.objs[u].status == Run && s.objs[u].batch != []
       then [Handled(s.objs[u].batch[0], last.opens)] else [])
  }

  /** The first add of an id that was no member then, whether or not the channel opened. */
  function FirstNewAdd(h: seq<Handled>): (r: Option<Event>)
    ensures r.Some? ==> r.value.Add?
    decreases |h|
  {
    if h == [] then None else
      var before, last := h[..|h| - 1], h[|h| - 1];
      if FirstNewAdd(before).Some? then FirstNewAdd(before)
      else if last.event.Add? && last.event.id !in Members({}, before) then Some(last.event)
      else None
  }

  /** The unit's members are those the history leaves; its codec and rate are those of that first add. */
  ghost predicate IsReplay(m: Mpu, h: seq<Handled>) {
    && |m.handled| == |h| && (forall i :: 0 <= i < |h| ==> m.handled[i] == h[i].event)
    && m.apcs.Keys == Members({}, h)
    && m.codec == (if FirstNewAdd(h).Some? then FirstNewAdd(h).value.codec else -1)
    && m.outRate == (if FirstNewAdd(h).Some? then FirstNewAdd(h).value.outRate else -1)
    && ProperAddsOf(h)
  }

  /** No add has a codec or a rate that stands for none. */
  ghost predicate ProperAddsOf(h: seq<Handled>) {
    forall i :: 0 <= i < |h| && h[i].event.Add? ==> h[i].event.codec != -1 && h[i].event.outRate != -1
  }

  ghost predicate ProperEvents(s: seq<Event>) {
    forall e :: e in s && e.Add? ==> e.codec != -1 && e.outRate != -1
  }

  lemma {:induction false} AddressedProperly<U>(g: Range, steps: seq<Step<U>>, u: U)
    requires g.Valid()
    ensures ProperEvents(Addressed(g, steps, u))
    decreases |steps|
  {
    if steps == [] || u !in RunSteps(g, steps).objs {
    } else {
      AddressedProperly(g, steps[..|steps| - 1], u);
    }
  }

  lemma {:induction false} FirstIsProper(h: seq<Handled>)
    requires ProperAddsOf(h) && FirstNewAdd(h).Some?
    ensures FirstNewAdd(h).value.codec != -1 && FirstNewAdd(h).value.outRate != -1
    decreases |h|
  {
    if FirstNewAdd(h[..|h| - 1]).Some? { FirstIsProper(h[..|h| - 1]); }
  }

  lemma EffectReplays(g: Range, m: Mpu, ports: set<nat>, last: Handled, h: seq<Handled>)
    requires IsReplay(m, h) && (last.event.Add? ==> last.event.codec != -1 && last.event.outRate != -1)
    ensures IsReplay(Effect(g, m.(handled := m.handled + [last.event]), ports, last.event, last.opens).0, h + [last])
  {
    assert (h + [last])[..|h|] == h;
    if FirstNewAdd(h).Some? { FirstIsProper(h); }
    EffectFrame(g, m.(handled := m.handled + [last.event]), ports, last.event, last.opens);
  }

  lemma HandleReplays(g: Range, m: Mpu, ports: set<nat>, opens: bool, h: seq<Handled>)
    requires m.status == Run && m.batch != [] && IsReplay(m, h) && ProperEvents(m.batch)
    ensures IsReplay(HandleNext(g, m, ports, opens).0, h + [Handled(m.batch[0], opens)])
  {
    assert m.batch[0] in m.batch;
    EffectReplays(g, m.(batch := m.batch[1..]), ports, Handled(m.batch[0], opens), h);
  }

  /** Everything but handling leaves a unit that still runs with the members, codec and rate it had. */
  ghost predicate SameSession(m: Mpu, m': Mpu) {
    m'.status == Run ==>
      m.status == Run && m'.apcs == m.apcs && m'.codec == m.codec && m'.outRate == m.outRate && m'.handled == m.handled
  }

  lemma LocalSession<U>(g: Range, m: Mpu, pool: Pool, step: Step<U>)
    requires g.Valid() && pool.cursor % 2 == 0 && !step.HandleEvent?
    ensures SameSession(m, Local(g, m, pool, step).0)
  {
  }

  lemma FaultSession<U>(g: Range, s: Mcu<U>, v: U, reached: nat, u: U)
    requires g.Valid() && s.pool.cursor % 2 == 0 && u in s.objs
    ensures u in Apply(g, s, HandlerFault(v, reached)).objs
    ensures SameSession(s.objs[u], Apply(g, s, HandlerFault(v, reached)).objs[u])
  {
    if v in s.objs && s.objs[v].status == Run && s.objs[v].batch != [] {
      PartlyAddedFails(s.objs[v], reached);
    }
  }

  lemma PartlyAddedFails(m: Mpu, reached: nat)
    requires m.status == Run && m.batch != []
    ensures FailNext(m, reached).status == Exce
  {
  }

  lemma StepSession<U>(g: Range, s: Mcu<U>, step: Step<U>, u: U)
    requires g.Valid() && s.pool.cursor % 2 == 0 && u in s.objs && u in Apply(g, s, step).objs
    requires !(step.HandleEvent? && step.unit == u)
    ensures SameSession(s.objs[u], Apply(g, s, step).objs[u])
  {
    match step
    case Create(_, _) =>
    case EndJob(_) =>
    case HandlerFault(v, reached) => FaultSession(g, s, v, reached, u);
    case Reap =>
    case HandleEvent(_, _) =>
    case _ => if Target(s, step) == Some(u) { LocalSession(g, s.objs[u], s.pool, step); }
  }

  /** Over every run a running unit is the replay of what was handled: its members are those whose add
      opened and who were not removed since, and its codec and sample rate are those of the first add of a
      new id, even if that channel did not open. */
  lemma {:induction false} UnitIsReplay<U>(g: Range, steps: seq<Step<U>>, u: U)
    requires g.Valid() && u in RunSteps(g, steps).objs && RunSteps(g, steps).objs[u].status == Run
    ensures IsReplay(RunSteps(g, steps).objs[u], HandledBy(g, steps, u))
    decreases |steps|
  {
    if steps == [] {
    } else {
      var before, last := steps[..|steps| - 1], steps[|steps| - 1];
      var s := RunSteps(g, before);
      if u !in s.objs {
        NewcomerIsNew(g, s, last, u);
        assert HandledBy(g, before, u) == [];
      } else if last.HandleEvent? && last.unit == u && s.objs[u].status == Run && s.objs[u].batch != [] {
        UnitIsReplay(g, before, u);
        PendingProperly(g, before, u);
        HandleReplays(g, s.objs[u], s.pool.ports, last.opens, HandledBy(g, before, u));
      } else {
        if !(last.HandleEvent? && last.unit == u) { StepSession(g, s, last, u); }
        UnitIsReplay(g, before, u);
        assert HandledBy(g, steps, u) == HandledBy(g, before, u);
      }
    }
  }

  lemma PendingProperly<U>(g: Range, steps: seq<Step<U>>, u: U)
    requires g.Valid() && u in RunSteps(g, steps).objs && RunSteps(g, steps).objs[u].status == Run
    ensures ProperEvents(RunSteps(g, steps).objs[u].batch)
  {
    HandledInOrder(g, steps, u);
    AddressedProperly(g, steps, u);
    var m := RunSteps(g, steps).objs[u];
    forall e | e in m.batch ensures e in Addressed(g, steps, u) {
      assert e in m.handled + m.batch + m.queue;
    }
  }

  /* ---- which joins are served ---- */

  /** A join that is given a port by the allocator reaches the queue of its running job exactly if both
      rates are given, the codec is 1 or 2, and it is the codec of the first add of a new id the unit has
      handled, if there was one.  Otherwise the queue stays as it is. */
  lemma JoinIsQueuedIff<U>(g: Range, steps: seq<Step<U>>, req: Request)
    requires g.Valid()
    requires var s := RunSteps(g, steps);
             && req.jobId in s.mpus && s.mpus[req.jobId] in s.objs && s.objs[s.mpus[req.jobId]].status == Run
             && ApplyOnce(g, s.pool).port != NO_PORT
    ensures var s, s' := RunSteps(g, steps), RunSteps(g, steps + [Join(req)]);
            var u := s.mpus[req.jobId];
            var first := FirstNewAdd(HandledBy(g, steps, u));
            && u in s'.objs
            && s'.objs[u].queue ==
               if req.inRate != -1 && req.outRate != -1 && (req.codec == 1 || req.codec == 2)
                  && (first.None? || first.value.codec == req.codec)
               then s.objs[u].queue + [Add(req.chnlId, ApplyOnce(g, s.pool).port, req.codec, req.outRate)]
               else s.objs[u].queue
  {
    var s := RunSteps(g, steps);
    var u := s.mpus[req.jobId];
    RunAppend(g, steps, Join(req));
    UnitIsReplay(g, steps, u);
    var h := HandledBy(g, steps, u);
    if FirstNewAdd(h).Some? { FirstIsProper(h); }
  }
}

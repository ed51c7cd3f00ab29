/** The media control unit as the program runs it (src/mcu.cpp, class MediaControlUnit): the job table,
    the closing set, the reaper's working set and the port tool, updated in place. */
module ControlUnit {
  import opened PortAllocator
  import opened MpuState
  import opened McuState
  import opened ProcessUnit

  ghost function States(units: set<MediaProcessUnit>): map<MediaProcessUnit, Mpu>
    reads units
  {
    map u | u in units :: u.State()
  }

  /** When only one unit differs from a record of the states, only its entry differs. */
  lemma OneChanged(units: set<MediaProcessUnit>, before: map<MediaProcessUnit, Mpu>, u: MediaProcessUnit)
    requires units == before.Keys + {u}
    requires forall v :: v in units && v != u ==> v.State() == before[v]
    ensures States(units) == before[u := u.State()]
  {
  }

  lemma UnchangedStates(units: set<MediaProcessUnit>, before: map<MediaProcessUnit, Mpu>)
    requires units <= before.Keys && forall v :: v in units ==> v.State() == before[v]
    ensures States(units) == before - (before.Keys - units)
  {
  }

  lemma UnitsAfterRound<U>(s: Mcu<U>)
    requires JobsConserved(s)
    ensures s.mpus.Values + s.tmp + (s.closing - Finished(s)) == s.objs.Keys - Finished(s)
    ensures (s.mpus.Values + s.tmp) !! s.closing
  {
    PlacesOfUnits(s);
    assert Finished(s) <= s.closing;
    SplitOff(s.mpus.Values, s.tmp, s.closing, Finished(s));
  }

  /** The units are those in service, those closing and those in the working set. */
  lemma PlacesOfUnits<U>(s: Mcu<U>)
    requires JobsConserved(s)
    ensures s.objs.Keys == s.mpus.Values + s.tmp + s.closing
    ensures s.mpus.Values !! s.closing && s.tmp !! s.closing
  {
    forall u ensures u in s.objs.Keys <==> u in s.mpus.Values + s.tmp + s.closing {
      PlaceOf(s, u);
    }
    forall u ensures u !in s.mpus.Values || u !in s.closing {
      PlaceOf(s, u);
    }
  }

  lemma PlaceOf<U>(s: Mcu<U>, u: U)
    requires JobsConserved(s)
    ensures u in s.objs <==> u in s.mpus.Values || u in s.tmp || u in s.closing
    ensures u in s.mpus.Values ==> u !in s.closing
  {
    ServedIff(s.mpus, u);
  }

  lemma ServedIff<U>(mpus: map<string, U>, u: U)
    ensures u in mpus.Values <==> Serves(mpus, u)
  {
    if Serves(mpus, u) {
      var j :| j in mpus && mpus[j] == u;
      assert mpus[j] in mpus.Values;
    }
  }

  lemma SplitOff<T>(a: set<T>, b: set<T>, c: set<T>, part: set<T>)
    requires a !! c && b !! c && part <= c
    ensures a + b + (c - part) == a + b + c - part && (a + b) !! c
  {
  }

  lemma RoundAssembled<U>(g: Range, s: Mcu<U>, s': Mcu<U>)
    requires s.mpus.Values + s.tmp + (s.closing - Finished(s)) == s.objs.Keys - Finished(s)
    requires Drained(g, s.objs, s.closing, s.runningJob, s.pool.ports, {}, s'.tmp, s'.runningJob, s'.pool.ports)
    requires s'.mpus == s.mpus && s'.closing == s.tmp && s'.pool.cursor == s.pool.cursor
    requires s'.objs == s.objs - (s.objs.Keys - (s.mpus.Values + s.tmp + s'.tmp))
    ensures s' == ReaperRound(g, s)
  {
    var done := Finished(s);
    AllDrained(g, s.objs, s.closing, s.runningJob, s.pool.ports, s'.tmp, s'.runningJob, s'.pool.ports);
    Complement(s.objs.Keys, done);
    var gone := s.objs.Keys - (s.mpus.Values + s.tmp + s'.tmp);
    assert gone == done;
    assert s'.objs == s.objs - done;
  }

  lemma AllDrained<U>(g: Range, objs: map<U, Mpu>, all: set<U>, running0: int, ports0: set<nat>,
                      tmp: set<U>, running: int, ports: set<nat>)
    requires Drained(g, objs, all, running0, ports0, {}, tmp, running, ports)
    ensures var done := DoneAmong(objs, all);
            tmp == all - done && running == running0 - |done| && ports == ReleasedAll(g, ports0, ReleasesOf(objs, done))
  {
    assert all - {} == all;
  }

  lemma Complement<T>(all: set<T>, part: set<T>)
    ensures part <= all ==> all - (all - part) == part
  {
  }

  lemma NotifyStep<U>(g: Range, s: Mcu<U>, jobId: string, e: Event)
    requires g.Valid() && s.pool.cursor % 2 == 0 && !e.Add? && !e.Stop?
    requires jobId in s.mpus && s.mpus[jobId] in s.objs
    ensures var u := s.mpus[jobId];
            ApplyLocal(g, s, Notify(jobId, e)) == s.(objs := s.objs[u := Report(s.objs[u], e)])
  {
  }

  lemma EndStep<U>(s: Mcu<U>, jobId: string)
    requires jobId in s.mpus && s.mpus[jobId] in s.objs
    ensures var u := s.mpus[jobId];
            EndMpu(s, jobId) ==
            s.(mpus := s.mpus - {jobId}, closing := s.closing + {u}, objs := s.objs[u := Report(s.objs[u], Stop)])
  {
  }

  class MediaControlUnit {
    const audioPortTool: PortTool
    var mpus: map<string, MediaProcessUnit>
    var closeMpus: set<MediaProcessUnit>
    var tmpCloseForm: set<MediaProcessUnit>
    var runningJob: int

    ghost function Units(): set<MediaProcessUnit>
      reads this
    {
      mpus.Values + closeMpus + tmpCloseForm
    }

    ghost function State(): Mcu<MediaProcessUnit>
      reads this, audioPortTool, Units()
    {
      Mcu(audioPortTool.State(), mpus, closeMpus, tmpCloseForm, States(Units()), runningJob)
    }

    ghost predicate Valid()
      reads this, audioPortTool
    {
      && audioPortTool.Valid()
      && (forall u :: u in Units() ==> u.portTool == audioPortTool)
    }

    constructor (point: nat, size: nat)
      requires Range(point, size).Valid()
      ensures Valid() && State() == Init() && audioPortTool.g == Range(point, size)
      ensures fresh(audioPortTool)
    {
      audioPortTool := new PortTool(point, size);
      mpus, closeMpus, tmpCloseForm, runningJob := map[], {}, {}, 0;
      new;
      assert State().objs == map[];
    }

    method CreateMpu(jobId: string) returns (ok: bool)
      requires Valid()
      modifies this
      ensures Valid()
      ensures ok == (jobId !in old(mpus))
      ensures ok ==> jobId in mpus && fresh(mpus[jobId])
                     && State() == McuState.CreateMpu(old(State()), jobId, mpus[jobId])
      ensures !ok ==> State() == old(State())
      ensures ok ==> mpus == old(mpus)[jobId := mpus[jobId]] && runningJob == old(runningJob) + 1
                     && closeMpus == old(closeMpus) && tmpCloseForm == old(tmpCloseForm)
    {
      if jobId in mpus {
        return false;
      }
      var newMpu := new MediaProcessUnit(jobId, audioPortTool);
      EmplaceMpu(jobId, newMpu);
      return true;
    }

    /** The entry of a new unit in the job table. */
    method EmplaceMpu(jobId: string, newMpu: MediaProcessUnit)
      requires Valid() && jobId !in mpus && newMpu !in Units()
      requires newMpu.portTool == audioPortTool && newMpu.State() == NewMpu(jobId)
      modifies this
      ensures Valid() && mpus == old(mpus)[jobId := newMpu] && runningJob == old(runningJob) + 1
      ensures closeMpus == old(closeMpus) && tmpCloseForm == old(tmpCloseForm)
      ensures State() == McuState.CreateMpu(old(State()), jobId, newMpu)
    {
      ghost var s := State();
      mpus := mpus[jobId := newMpu];
      runningJob := runningJob + 1;
      AddedUnits(s.mpus, jobId, newMpu);
      OneChanged(Units(), s.objs, newMpu);
    }

    method EndMpu(jobId: string) returns (ok: bool)
      requires Valid()
      modifies this, if jobId in mpus then {mpus[jobId]} else {}
      ensures Valid()
      ensures ok == (jobId in old(mpus))
      ensures State() == McuState.EndMpu(old(State()), jobId)
      ensures ok ==>
                var mpu := old(mpus[jobId]);
                && mpus == old(mpus) - {jobId} && closeMpus == old(closeMpus) + {mpu}
                && mpu.eventQue == (if mpu.status == Run then old(mpus[jobId].eventQue) + [Stop]
                                    else old(mpus[jobId].eventQue))
    {
      if jobId !in mpus {
        return false;
      }
      hide Report;
      ghost var s := State();
      var mpu := mpus[jobId];
      mpus := mpus - {jobId};
      mpu.ReportMediaInfo(Stop);
      closeMpus := closeMpus + {mpu};
      RemovedUnits(s.mpus, jobId);
      ghost var units := Units();
      assert units == s.objs.Keys;
      OneChanged(units, s.objs, mpu);
      assert State().objs == s.objs[mpu := Report(s.objs[mpu], Stop)];
      EndStep(s, jobId);
      return true;
    }

    method AddChnl(req: Request) returns (ok: bool, port: nat)
      requires Valid()
      modifies this, audioPortTool, if req.jobId in mpus then {mpus[req.jobId]} else {}
      ensures Valid()
      ensures mpus == old(mpus) && closeMpus == old(closeMpus) && tmpCloseForm == old(tmpCloseForm)
      ensures State() == ApplyLocal(audioPortTool.g, old(State()), Join(req))
      ensures req.jobId !in mpus ==> !ok
      ensures req.jobId in mpus ==>
                var r := ApplyOnce(audioPortTool.g, old(audioPortTool.State()));
                ok == (r.port != NO_PORT && Accepts(old(mpus[req.jobId].State()), req)) && (ok ==> port == r.port)
      ensures req.jobId in mpus ==>
                var mpu, r := mpus[req.jobId], ApplyOnce(audioPortTool.g, old(audioPortTool.State()));
                && ok == (r.port != NO_PORT && req.inRate != -1 && req.outRate != -1
                          && (req.codec == 1 || req.codec == 2)
                          && (old(mpu.codecType) == -1 || old(mpu.codecType) == req.codec))
                && mpu.eventQue == (if ok && mpu.status == Run
                                    then old(mpu.eventQue) + [Add(req.chnlId, r.port, req.codec, req.outRate)]
                                    else old(mpu.eventQue))
    {
      if req.jobId !in mpus {
        return false, NO_PORT;
      }
      ghost var s := State();
      ok, port := JoinUnit(mpus[req.jobId], req);
      OneChanged(Units(), s.objs, mpus[req.jobId]);
    }

    /** addChnl once the job is found: take a port, check the request, report it to the unit. */
    method JoinUnit(mpu: MediaProcessUnit, req: Request) returns (ok: bool, port: nat)
      requires audioPortTool.Valid()
      modifies audioPortTool, mpu`eventQue, mpu`accepted
      ensures audioPortTool.Valid()
      ensures (mpu.State(), audioPortTool.State()) ==
              McuState.AddChnl(audioPortTool.g, old(mpu.State()), old(audioPortTool.State()), req)
      ensures port == ApplyOnce(audioPortTool.g, old(audioPortTool.State())).port
      ensures ok == (port != NO_PORT && Accepts(old(mpu.State()), req))
      ensures ok == (port != NO_PORT && req.inRate != -1 && req.outRate != -1 && (req.codec == 1 || req.codec == 2)
                     && (old(mpu.codecType) == -1 || old(mpu.codecType) == req.codec))
      ensures mpu.status == old(mpu.status)
      ensures mpu.eventQue == if ok && mpu.status == Run
                              then old(mpu.eventQue) + [Add(req.chnlId, port, req.codec, req.outRate)]
                              else old(mpu.eventQue)
    {
      port := audioPortTool.ApplyPort();
      if port == NO_PORT {
        audioPortTool.FreePort(port);
        return false, port;
      }
      if req.inRate == -1 {
        return false, port;
      }
      if req.outRate == -1 {
        return false, port;
      }
      if req.codec != 1 && req.codec != 2 {
        return false, port;
      }
      if mpu.codecType != -1 && mpu.codecType != req.codec {
        return false, port;
      }
      mpu.ReportMediaInfo(Add(req.chnlId, port, req.codec, req.outRate));
      return true, port;
    }

    /** removeChnl, openMic and closeMic pass an event on to the job's unit. */
    method PassOn(jobId: string, e: Event) returns (ok: bool)
      requires Valid() && !e.Add? && !e.Stop?
      modifies if jobId in mpus then {mpus[jobId]} else {}
      ensures Valid() && ok == (jobId in mpus)
      ensures State() == ApplyLocal(audioPortTool.g, old(State()), Notify(jobId, e))
      ensures ok ==> var mpu := mpus[jobId];
                     mpu.eventQue == if mpu.status == Run then old(mpu.eventQue) + [e] else old(mpu.eventQue)
    {
      if jobId !in mpus {
        return false;
      }
      ghost var s := State();
      mpus[jobId].ReportMediaInfo(e);
      OneChanged(Units(), s.objs, mpus[jobId]);
      NotifyStep(audioPortTool.g, s, jobId, e);
      return true;
    }

    /** updateDestition passes one on too, unless the codec is unknown or not the job's. */
    method UpdateDestition(jobId: string, chnlId: string, codec: int) returns (ok: bool)
      requires Valid()
      modifies if jobId in mpus then {mpus[jobId]} else {}
      ensures Valid()
      ensures ok == (jobId in mpus && (codec == 1 || codec == 2) && old(mpus[jobId].codecType) in {-1, codec})
      ensures State() == if ok then ApplyLocal(audioPortTool.g, old(State()), Notify(jobId, UpdateDest(chnlId)))
                         else old(State())
    {
      if jobId !in mpus {
        return false;
      }
      if codec != 1 && codec != 2 {
        return false;
      }
      if mpus[jobId].codecType != -1 && mpus[jobId].codecType != codec {
        return false;
      }
      ok := PassOn(jobId, UpdateDest(chnlId));
    }

    /** One round of autoClose: swap the closing set with the working set, and destroy every unit of the
        working set that has ended or failed.  Jobs are conserved in every run (JobsAlwaysConserved), so
        the three places are disjoint. */
    method AutoCloseRound()
      requires Valid() && JobsConserved(State())
      modifies this, audioPortTool`ports, closeMpus
      ensures Valid()
      ensures State() == ReaperRound(audioPortTool.g, old(State()))
    {
      ghost var s := State();
      UnitsAfterRound(s);
      SwapAndDrain();
      RoundAssembled(audioPortTool.g, s, State());
    }

    method SwapAndDrain()
      requires Valid() && (mpus.Values + tmpCloseForm) !! closeMpus
      modifies this, audioPortTool`ports, closeMpus
      ensures Valid() && mpus == old(mpus) && closeMpus == old(tmpCloseForm)
      ensures Drained(audioPortTool.g, old(States(Units())), old(closeMpus), old(runningJob), old(audioPortTool.ports),
                      {}, tmpCloseForm, runningJob, audioPortTool.ports)
      ensures audioPortTool.portIndex == old(audioPortTool.portIndex) && tmpCloseForm <= old(closeMpus)
      ensures var objs := old(States(Units())); States(Units()) == objs - (objs.Keys - Units())
    {
      ghost var objs := States(Units());
      ghost var others := mpus.Values + tmpCloseForm;
      tmpCloseForm, closeMpus := closeMpus, tmpCloseForm;
      DrainWorkingSet(objs);
      forall v | v in Units() ensures v in objs && v.State() == objs[v] {
        if v !in others { assert unchanged(v); }
      }
      UnchangedStates(Units(), objs);
    }

    /** The loop over the working set. */
    method DrainWorkingSet(ghost objs: map<MediaProcessUnit, Mpu>)
      requires audioPortTool.Valid() && tmpCloseForm <= objs.Keys
      requires forall u :: u in tmpCloseForm ==> u.portTool == audioPortTool && u.State() == objs[u]
      modifies this`tmpCloseForm, this`runningJob, audioPortTool`ports, tmpCloseForm
      ensures Drained(audioPortTool.g, objs, old(tmpCloseForm), old(runningJob), old(audioPortTool.ports),
                      {}, tmpCloseForm, runningJob, audioPortTool.ports)
      ensures tmpCloseForm <= old(tmpCloseForm) && forall u :: u in tmpCloseForm ==> unchanged(u)
      ensures audioPortTool.Valid()
    {
      var rest := tmpCloseForm;
      NothingDrained(audioPortTool.g, objs, tmpCloseForm, runningJob, audioPortTool.ports);
      while rest != {}
        invariant rest <= tmpCloseForm <= old(tmpCloseForm)
        invariant Drained(audioPortTool.g, objs, old(tmpCloseForm), old(runningJob), old(audioPortTool.ports),
                          rest, tmpCloseForm, runningJob, audioPortTool.ports)
        invariant audioPortTool.Valid()
        invariant forall u :: u in tmpCloseForm ==> unchanged(u)
        decreases rest
      {
        var each :| each in rest;
        ghost var tmp, running, ports := tmpCloseForm, runningJob, audioPortTool.ports;
        Examine(each);
        OneMoreDrained(audioPortTool.g, objs, old(tmpCloseForm), old(runningJob), old(audioPortTool.ports),
                       rest, each, tmp, running, ports);
        rest := rest - {each};
      }
    }

    /** One turn of that loop: a unit that has ended or failed is destroyed and erased. */
    method Examine(each: MediaProcessUnit)
      requires audioPortTool.Valid() && each.portTool == audioPortTool
      modifies this`tmpCloseForm, this`runningJob, each, audioPortTool`ports
      ensures audioPortTool.Valid()
      ensures Done(old(each.State())) ==>
                && audioPortTool.ports ==
                   ReleasedAll(audioPortTool.g, old(audioPortTool.ports), Releases(old(each.State())))
                && tmpCloseForm == old(tmpCloseForm) - {each} && runningJob == old(runningJob) - 1
      ensures !Done(old(each.State())) ==> unchanged(each) && unchanged(this) && unchanged(audioPortTool)
      ensures tmpCloseForm == old(tmpCloseForm) - (if old(each.status) in {End, Exce} then {each} else {})
    {
      if each.status == End || each.status == Exce {
        DestroyUnit(each);
        tmpCloseForm := tmpCloseForm - {each};
        runningJob := runningJob - 1;
      }
    }

    /** The ports on the unit's list are released, then the unit is destroyed. */
    method DestroyUnit(each: MediaProcessUnit)
      requires audioPortTool.Valid() && each.portTool == audioPortTool
      modifies each, audioPortTool`ports
      ensures audioPortTool.Valid()
      ensures audioPortTool.ports ==
              ReleasedAll(audioPortTool.g, old(audioPortTool.ports), Releases(old(each.State())))
      ensures forall p :: p in audioPortTool.ports <==>
                p in old(audioPortTool.ports) &&
                (p < audioPortTool.g.point ||
                 (p !in old(each.portList) && forall id :: id in old(each.APCs) ==> old(each.APCs)[id].port != p))
    {
      var list := each.portList;
      for k := 0 to |list|
        invariant audioPortTool.Valid() && unchanged(each)
        invariant audioPortTool.ports ==
                  ReleasedAll(audioPortTool.g, old(audioPortTool.ports), set p | p in list[..k])
      {
        assert list[..k + 1] == list[..k] + [list[k]];
        audioPortTool.FreePort(list[k]);
      }
      assert list[..|list|] == list;
      each.Destroy();
    }
  }

  /** Releasing one more unit after a set of units. */
  lemma ReleasesGrow<U>(g: Range, ports: set<nat>, objs: map<U, Mpu>, done: set<U>, u: U)
    requires u in objs
    ensures ReleasesOf(objs, done + {u}) == ReleasesOf(objs, done) + Releases(objs[u])
    ensures ReleasedAll(g, ports, ReleasesOf(objs, done + {u})) ==
            ReleasedAll(g, ReleasedAll(g, ports, ReleasesOf(objs, done)), Releases(objs[u]))
  {
    assert forall p :: p in ReleasesOf(objs, done + {u}) <==> p in ReleasesOf(objs, done) || p in Releases(objs[u]);
  }

  /** What the reaper has done to its working set `all` once only `rest` is left to examine. */
  ghost predicate Drained<U>(g: Range, objs: map<U, Mpu>, all: set<U>, running0: int, ports0: set<nat>,
                             rest: set<U>, tmp: set<U>, running: int, ports: set<nat>)
  {
    var done := DoneAmong(objs, all - rest);
    tmp == all - done && running == running0 - |done| && ports == ReleasedAll(g, ports0, ReleasesOf(objs, done))
  }

  lemma NothingDrained<U>(g: Range, objs: map<U, Mpu>, all: set<U>, running: int, ports: set<nat>)
    ensures Drained(g, objs, all, running, ports, all, all, running, ports)
  {
    assert DoneAmong(objs, all - all) == {};
  }

  lemma OneMoreDrained<U>(g: Range, objs: map<U, Mpu>, all: set<U>, running0: int, ports0: set<nat>,
                          rest: set<U>, u: U, tmp: set<U>, running: int, ports: set<nat>)
    requires u in rest && rest <= all <= objs.Keys
    requires Drained(g, objs, all, running0, ports0, rest, tmp, running, ports)
    ensures if Done(objs[u])
            then Drained(g, objs, all, running0, ports0, rest - {u}, tmp - {u}, running - 1,
                         ReleasedAll(g, ports, Releases(objs[u])))
            else Drained(g, objs, all, running0, ports0, rest - {u}, tmp, running, ports)
  {
    var done := DoneAmong(objs, all - rest);
    assert u !in done;
    assert DoneAmong(objs, all - (rest - {u})) == done + (if Done(objs[u]) then {u} else {});
    ReleasesGrow(g, ports0, objs, done, u);
    assert done + {} == done;
  }

  lemma RemovedUnits<U>(mpus: map<string, U>, jobId: string)
    requires jobId in mpus
    ensures (mpus - {jobId}).Values + {mpus[jobId]} == mpus.Values
  {
    var mpus' := mpus - {jobId};
    forall v | v in mpus.Values && v != mpus[jobId] ensures v in mpus'.Values {
      var j :| j in mpus && mpus[j] == v;
      assert j in mpus' && mpus'[j] == v;
    }
  }

  lemma AddedUnits<U>(mpus: map<string, U>, jobId: string, u: U)
    requires jobId !in mpus
    ensures mpus[jobId := u].Values == mpus.Values + {u}
  {
    var mpus' := mpus[jobId := u];
    assert jobId in mpus' && mpus'[jobId] == u;
    forall v | v in mpus.Values ensures v in mpus'.Values {
      var j :| j in mpus && mpus[j] == v;
      assert j in mpus' && mpus'[j] == v;
    }
  }
}

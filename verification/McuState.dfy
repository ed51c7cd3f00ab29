/** The conference server as a step system: jobs, their units, the reaper and the ports
    (src/mcu.cpp, class MediaControlUnit of core/MediaControlUnit.h).

  `U` identifies unit objects.  One step is one control operation, one handled event, one half of a
  stop, one failure or one reaper round.
 */
module McuState {
  import opened PortAllocator
  import opened MpuState

  datatype Mcu<U(==)> = Mcu(
    pool: Pool, mpus: map<string, U>, closing: set<U>, tmp: set<U>, objs: map<U, Mpu>, runningJob: int)

  datatype Request = Request(jobId: string, chnlId: string, inRate: int, outRate: int, codec: int)

  datatype Step<U> =
    | Create(jobId: string, newUnit: U)
    | EndJob(jobId: string)
    | Join(req: Request)
    | Notify(jobId: string, event: Event)
    | DropChannel(unit: U, id: string)
    | SwapQueue(unit: U)
    | HandleEvent(unit: U, opens: bool)
    | HandlerFault(unit: U, reached: nat)
    | WorkerFault(unit: U)
    | StopBegins(unit: U)
    | StopEnds(unit: U)
    | Reap

  function Init<U(==)>(): Mcu<U> {
    Mcu(Pool(0, {}), map[], {}, {}, map[], 0)
  }

  datatype Option<+T> = None | Some(value: T)

  /* ---- operations ---- */

  function CreateMpu<U>(s: Mcu<U>, jobId: string, u: U): Mcu<U> {
    s.(mpus := s.mpus[jobId := u], objs := s.objs[u := NewMpu(jobId)], runningJob := s.runningJob + 1)
  }

  function EndMpu<U>(s: Mcu<U>, jobId: string): Mcu<U> {
    if jobId !in s.mpus || s.mpus[jobId] !in s.objs then s else
      var u := s.mpus[jobId];
      s.(mpus := s.mpus - {jobId}, closing := s.closing + {u}, objs := s.objs[u := Report(s.objs[u], Stop)])
  }

  /** The checks addChnl makes after it has taken a port. */
  predicate Accepts(m: Mpu, req: Request) {
    && req.inRate != -1 && req.outRate != -1
    && (req.codec == 1 || req.codec == 2)
    && (m.codec == -1 || m.codec == req.codec)
  }

  /** addChnl on an existing job: a rejected request keeps the port it was given. */
  function AddChnl(g: Range, m: Mpu, pool: Pool, req: Request): (Mpu, Pool)
    requires g.Valid() && pool.cursor % 2 == 0
  {
    var r := ApplyOnce(g, pool);
    if r.port == NO_PORT then (m, r.pool.(ports := Released(g, r.pool.ports, NO_PORT)))
    else if !Accepts(m, req) then (m, r.pool)
    else (Report(m, Add(req.chnlId, r.port, req.codec, req.outRate)), r.pool)
  }

  predicate Done(m: Mpu) {
    m.status == End || m.status == Exce
  }

  /** The units a reaper round examines and finds ended or failed. */
  function Finished<U>(s: Mcu<U>): set<U> {
    DoneAmong(s.objs, s.closing)
  }

  function DoneAmong<U>(objs: map<U, Mpu>, units: set<U>): set<U> {
    set u | u in units && u in objs && Done(objs[u])
  }

  /** What a finished unit releases: its port list, and with its destruction the channels it still has. */
  function Releases(m: Mpu): set<nat> {
    (set p | p in m.portList) + LivePorts(m)
  }

  function ReleasesOf<U>(objs: map<U, Mpu>, done: set<U>): set<nat> {
    set u, p | u in done && u in objs && p in Releases(objs[u]) :: p
  }

  /** A reaper round: the closing set becomes the working set, the previous leftovers become closing. */
  function ReaperRound<U>(g: Range, s: Mcu<U>): Mcu<U> {
    var done := Finished(s);
    Mcu(s.pool.(ports := ReleasedAll(g, s.pool.ports, ReleasesOf(s.objs, done))),
        s.mpus, s.tmp, s.closing - done, s.objs - done, s.runningJob - |done|)
  }

  /** The unit a step concerns, if it concerns exactly one and leaves the job tables alone. */
  function Target<U>(s: Mcu<U>, step: Step<U>): Option<U> {
    match step
    case Join(req) => if req.jobId in s.mpus then Some(s.mpus[req.jobId]) else None
    case Notify(jobId, _) => if jobId in s.mpus then Some(s.mpus[jobId]) else None
    case Create(_, _) | EndJob(_) | HandlerFault(_, _) | Reap => None
    case _ => Some(step.unit)
  }

  /** What such a step does to its unit and to the ports. */
  function Local<U>(g: Range, m: Mpu, pool: Pool, step: Step<U>): (r: (Mpu, Pool))
    requires g.Valid() && pool.cursor % 2 == 0
    ensures r.1.cursor % 2 == 0
  {
    match step
    case Join(req) => AddChnl(g, m, pool, req)
    case Notify(_, e) => (if e.Add? || e.Stop? then m else Report(m, e), pool)
    case DropChannel(_, id) => (Report(m, Remove(id)), pool)
    case SwapQueue(_) => (Swap(m), pool)
    case HandleEvent(_, opens) => var r := HandleNext(g, m, pool.ports, opens); (r.0, pool.(ports := r.1))
    case WorkerFault(_) => (FailWorker(m), pool)
    case StopBegins(_) => (BeginStop(m), pool)
    case StopEnds(_) => var r := FinishStop(g, m, pool.ports); (r.0, pool.(ports := r.1))
    case _ => (m, pool)
  }

  function ApplyLocal<U>(g: Range, s: Mcu<U>, step: Step<U>): (s': Mcu<U>)
    requires g.Valid() && s.pool.cursor % 2 == 0
    ensures s'.pool.cursor % 2 == 0
  {
    var t := Target(s, step);
    if t.None? || t.value !in s.objs then s else
      var r := Local(g, s.objs[t.value], s.pool, step);
      s.(objs := s.objs[t.value := r.0], pool := r.1)
  }

  function Apply<U>(g: Range, s: Mcu<U>, step: Step<U>): (s': Mcu<U>)
    requires g.Valid() && s.pool.cursor % 2 == 0
    ensures s'.pool.cursor % 2 == 0
  {
    match step
    case Create(jobId, newUnit) =>
      if jobId in s.mpus || newUnit in s.objs then s else CreateMpu(s, jobId, newUnit)
    case EndJob(jobId) => EndMpu(s, jobId)
    case HandlerFault(u, reached) =>
      if u !in s.objs || s.objs[u].status != Run || s.objs[u].batch == [] then s else
        EndMpu(s.(objs := s.objs[u := FailNext(s.objs[u], reached)]), s.objs[u].jobId)
    case Reap => ReaperRound(g, s)
    case _ => ApplyLocal(g, s, step)
  }

  function RunSteps<U(==)>(g: Range, steps: seq<Step<U>>): (s: Mcu<U>)
    requires g.Valid()
    ensures s.pool.cursor % 2 == 0
    decreases |steps|
  {
    if steps == [] then Init() else Apply(g, RunSteps(g, steps[..|steps| - 1]), steps[|steps| - 1])
  }

  lemma RunAppend<U>(g: Range, steps: seq<Step<U>>, step: Step<U>)
    requires g.Valid()
    ensures RunSteps(g, steps + [step]) == Apply(g, RunSteps(g, steps), step)
  {
    assert (steps + [step])[..|steps|] == steps;
  }

  /* ---- jobs are conserved ---- */

  ghost predicate Serves<U>(mpus: map<string, U>, u: U) {
    exists j :: j in mpus && mpus[j] == u
  }

  /** No unit serves two jobs. */
  ghost predicate OneJobEach<U>(mpus: map<string, U>) {
    forall a, b :: a in mpus && b in mpus && a != b ==> mpus[a] != mpus[b]
  }

  ghost predicate JobsConserved<U>(s: Mcu<U>) {
    && OneJobEach(s.mpus)
    && (forall j :: j in s.mpus ==> s.mpus[j] in s.objs && s.mpus[j] !in s.closing && s.mpus[j] !in s.tmp)
    && (forall u :: u in s.objs ==> Serves(s.mpus, u) || u in s.closing || u in s.tmp)
    && s.closing <= s.objs.Keys && s.tmp <= s.objs.Keys && s.closing !! s.tmp
    && s.runningJob == |s.mpus| + |s.closing| + |s.tmp|
  }

  lemma EndKeepsJobs<U>(s: Mcu<U>, jobId: string)
    requires JobsConserved(s)
    ensures JobsConserved(EndMpu(s, jobId))
  {
    if jobId in s.mpus {
      var s' := EndMpu(s, jobId);
      var u := s.mpus[jobId];
      assert s.mpus.Keys == s'.mpus.Keys + {jobId};
      assert |s.mpus.Keys| == |s'.mpus.Keys| + 1;
      forall v | v in s'.objs ensures Serves(s'.mpus, v) || v in s'.closing || v in s'.tmp {
        if v != u && Serves(s.mpus, v) {
          var j :| j in s.mpus && s.mpus[j] == v;
          assert j in s'.mpus && s'.mpus[j] == v;
        }
      }
    }
  }

  lemma CreateKeepsJobs<U>(s: Mcu<U>, jobId: string, u: U, m: Mpu)
    requires JobsConserved(s) && jobId !in s.mpus && u !in s.objs
    ensures JobsConserved(s.(mpus := s.mpus[jobId := u], objs := s.objs[u := m], runningJob := s.runningJob + 1))
  {
    var mpus' := s.mpus[jobId := u];
    assert |mpus'| == |s.mpus| + 1 by { assert mpus'.Keys == s.mpus.Keys + {jobId}; }
    NewUnitHasOneJob(s.mpus, jobId, u);
    forall v | v in s.objs[u := m] ensures Serves(mpus', v) || v in s.closing || v in s.tmp {
      if v == u || Serves(s.mpus, v) { NowServes(s.mpus, jobId, u, v); }
    }
  }

  lemma NewUnitHasOneJob<U>(mpus: map<string, U>, jobId: string, u: U)
    requires OneJobEach(mpus) && forall j :: j in mpus ==> mpus[j] != u
    ensures OneJobEach(mpus[jobId := u])
  {
  }

  /** A new job adds its unit to those in service. */
  lemma NowServes<U>(mpus: map<string, U>, jobId: string, u: U, v: U)
    requires jobId !in mpus && (v == u || Serves(mpus, v))
    ensures Serves(mpus[jobId := u], v)
  {
    var mpus' := mpus[jobId := u];
    assert jobId in mpus' && mpus'[jobId] == u;
    if v != u {
      var j :| j in mpus && mpus[j] == v;
      assert j in mpus' && mpus'[j] == v;
    }
  }

  lemma CountSplit<U>(all: set<U>, part: set<U>)
    requires part <= all
    ensures |all| == |all - part| + |part|
  {
    assert all == (all - part) + part;
  }

  /** Swapping the closing set with the leftovers, less some units that are done with. */
  lemma SwapKeepsJobs<U>(s: Mcu<U>, done: set<U>, pool: Pool)
    requires JobsConserved(s) && done <= s.closing
    ensures JobsConserved(Mcu(pool, s.mpus, s.tmp, s.closing - done, s.objs - done, s.runningJob - |done|))
  {
    var s' := Mcu(pool, s.mpus, s.tmp, s.closing - done, s.objs - done, s.runningJob - |done|);
    CountSplit(s.closing, done);
    forall u | u in s'.objs ensures Serves(s'.mpus, u) || u in s'.closing || u in s'.tmp {
      assert u in s.objs && u !in done;
    }
  }

  lemma ReapKeepsJobs<U>(g: Range, s: Mcu<U>)
    requires JobsConserved(s)
    ensures JobsConserved(ReaperRound(g, s))
  {
    SwapKeepsJobs(s, Finished(s), ReaperRound(g, s).pool);
  }

  /** What a round decides about units: of the closing units it examines it removes those that have ended
      or failed. */
  lemma RoundDecidesUnits<U>(g: Range, s: Mcu<U>)
    requires JobsConserved(s)
    ensures var s' := ReaperRound(g, s);
            && s'.mpus == s.mpus && s'.closing == s.tmp
            && (forall u :: u in s'.tmp <==> u in s.closing && s.objs[u].status != End && s.objs[u].status != Exce)
            && (forall u :: u in s'.objs <==>
                  u in s.objs && !(u in s.closing && (s.objs[u].status == End || s.objs[u].status == Exce)))
            && (forall u :: u in s'.objs ==> s'.objs[u] == s.objs[u])
            && s'.runningJob == s.runningJob - |s.objs.Keys - s'.objs.Keys|
  {
    assert s.objs.Keys - ReaperRound(g, s).objs.Keys == Finished(s);
  }

  /** The port is listed by the unit or in the hands of one of its channels. */
  ghost predicate HasPort(m: Mpu, p: nat) {
    p in m.portList || exists id :: id in m.apcs && m.apcs[id].port == p
  }

  /** And about ports: it frees those of the range that such a unit lists or has a channel on. */
  lemma RoundDecidesPorts<U>(g: Range, s: Mcu<U>, p: nat)
    requires JobsConserved(s)
    ensures p in ReaperRound(g, s).pool.ports <==>
            p in s.pool.ports &&
            (p < g.point ||
             forall u :: u in s.closing && (s.objs[u].status == End || s.objs[u].status == Exce) ==>
               !HasPort(s.objs[u], p))
  {
    forall u | u in s.closing ensures HasPort(s.objs[u], p) <==> p in Releases(s.objs[u]) {
      PortIsReleased(s.objs[u], p);
    }
    if p in ReleasesOf(s.objs, Finished(s)) {
      var u :| u in Finished(s) && p in Releases(s.objs[u]);
      assert HasPort(s.objs[u], p);
    }
  }

  lemma PortIsReleased(m: Mpu, p: nat)
    ensures HasPort(m, p) <==> p in Releases(m)
  {
  }

  lemma ReplaceKeepsJobs<U>(s: Mcu<U>, u: U, m: Mpu, pool: Pool)
    requires JobsConserved(s) && u in s.objs
    ensures JobsConserved(s.(objs := s.objs[u := m], pool := pool))
  {
  }

  lemma LocalKeepsJobs<U>(g: Range, s: Mcu<U>, step: Step<U>)
    requires g.Valid() && s.pool.cursor % 2 == 0 && JobsConserved(s)
    ensures JobsConserved(ApplyLocal(g, s, step))
  {
    var t := Target(s, step);
    if t.Some? && t.value in s.objs {
      var r := Local(g, s.objs[t.value], s.pool, step);
      ReplaceKeepsJobs(s, t.value, r.0, r.1);
    }
  }

  lemma StepKeepsJobs<U>(g: Range, s: Mcu<U>, step: Step<U>)
    requires g.Valid() && s.pool.cursor % 2 == 0 && JobsConserved(s)
    ensures JobsConserved(Apply(g, s, step))
  {
    match step
    case Create(_, _) => CreateStepKeepsJobs(g, s, step);
    case EndJob(jobId) => EndKeepsJobs(s, jobId);
    case HandlerFault(_, _) => FaultStepKeepsJobs(g, s, step);
    case Reap => ReapKeepsJobs(g, s);
    case _ =>
      LocalKeepsJobs(g, s, step);
      assert Apply(g, s, step) == ApplyLocal(g, s, step);
  }

  lemma CreateStepKeepsJobs<U>(g: Range, s: Mcu<U>, step: Step<U>)
    requires g.Valid() && s.pool.cursor % 2 == 0 && JobsConserved(s) && step.Create?
    ensures JobsConserved(Apply(g, s, step))
  {
    if step.jobId in s.mpus || step.newUnit in s.objs {
      assert Apply(g, s, step) == s;
    } else {
      CreateKeepsJobs(s, step.jobId, step.newUnit, NewMpu(step.jobId));
    }
  }

  lemma FaultStepKeepsJobs<U>(g: Range, s: Mcu<U>, step: Step<U>)
    requires g.Valid() && s.pool.cursor % 2 == 0 && JobsConserved(s) && step.HandlerFault?
    ensures JobsConserved(Apply(g, s, step))
  {
    var u := step.unit;
    if u !in s.objs || s.objs[u].status != Run || s.objs[u].batch == [] {
      assert Apply(g, s, step) == s;
    } else {
      FaultKeepsJobs(s, u, step.reached);
    }
  }

  lemma FaultKeepsJobs<U>(s: Mcu<U>, u: U, reached: nat)
    requires JobsConserved(s) && u in s.objs
    ensures JobsConserved(EndMpu(s.(objs := s.objs[u := FailNext(s.objs[u], reached)]), s.objs[u].jobId))
  {
    var m := FailNext(s.objs[u], reached);
    ReplaceKeepsJobs(s, u, m, s.pool);
    EndKeepsJobs(s.(objs := s.objs[u := m]), s.objs[u].jobId);
  }

  /** At every point of every run each unit is in exactly one of the three places, and the job counter
      is the number of units. */
  lemma {:induction false} JobsAlwaysConserved<U>(g: Range, steps: seq<Step<U>>)
    requires g.Valid()
    ensures JobsConserved(RunSteps(g, steps))
    decreases |steps|
  {
    if steps == [] {
    } else {
      JobsAlwaysConserved(g, steps[..|steps| - 1]);
      StepKeepsJobs(g, RunSteps(g, steps[..|steps| - 1]), steps[|steps| - 1]);
    }
  }

  lemma EndTakesOut<U>(s: Mcu<U>, jobId: string, v: U)
    requires JobsConserved(s) && Serves(s.mpus, v)
    ensures !Serves(EndMpu(s, jobId).mpus, v) <==> jobId in s.mpus && s.mpus[jobId] == v
  {
    var mpus' := EndMpu(s, jobId).mpus;
    if !(jobId in s.mpus && s.mpus[jobId] == v) {
      var j :| j in s.mpus && s.mpus[j] == v;
      assert j in mpus' && mpus'[j] == v;
    }
  }

  /** An exception in the handling thread of a unit ends the job that goes by the unit's name at that time,
      whichever unit serves it: another unit is taken out of service exactly if it has the name now. */
  lemma FaultEndsNamesakeIff<U>(g: Range, s: Mcu<U>, u: U, reached: nat, v: U)
    requires g.Valid() && s.pool.cursor % 2 == 0 && JobsConserved(s) && Serves(s.mpus, v)
    requires u in s.objs && s.objs[u].status == Run && s.objs[u].batch != []
    ensures var s' := Apply(g, s, HandlerFault(u, reached));
            && (!Serves(s'.mpus, v) <==> s.objs[u].jobId in s.mpus && s.mpus[s.objs[u].jobId] == v)
            && (v in s'.closing <==> s.objs[u].jobId in s.mpus && s.mpus[s.objs[u].jobId] == v)
  {
    var failed := s.(objs := s.objs[u := FailNext(s.objs[u], reached)]);
    ReplaceKeepsJobs(s, u, FailNext(s.objs[u], reached), s.pool);
    EndTakesOut(failed, s.objs[u].jobId, v);
  }

  /* ---- every unit keeps its invariants ---- */

  ghost predicate UnitsSound<U>(s: Mcu<U>) {
    forall u :: u in s.objs ==> UnitInv(s.objs[u])
  }

  lemma LocalKeepsUnit<U>(g: Range, m: Mpu, pool: Pool, step: Step<U>)
    requires g.Valid() && pool.cursor % 2 == 0 && UnitInv(m)
    ensures UnitInv(Local(g, m, pool, step).0)
  {
    match step
    case Join(req) =>
      var r := ApplyOnce(g, pool);
      if r.port != NO_PORT && Accepts(m, req) {
        ReportKeepsUnit(m, Add(req.chnlId, r.port, req.codec, req.outRate));
      }
    case Notify(_, e) => if !e.Add? { ReportKeepsUnit(m, e); }
    case DropChannel(_, id) => ReportKeepsUnit(m, Remove(id));
    case SwapQueue(_) => SwapKeepsUnit(m);
    case HandleEvent(_, opens) => HandleKeepsUnit(g, m, pool.ports, opens);
    case _ => StatusKeepsUnit(g, m, pool.ports);
  }

  lemma EndKeepsUnits<U>(s: Mcu<U>, jobId: string)
    requires UnitsSound(s)
    ensures UnitsSound(EndMpu(s, jobId))
  {
    if jobId in s.mpus && s.mpus[jobId] in s.objs { ReportKeepsUnit(s.objs[s.mpus[jobId]], Stop); }
  }

  lemma ReplaceKeepsUnits<U>(s: Mcu<U>, u: U, m: Mpu, pool: Pool)
    requires UnitsSound(s) && u in s.objs && UnitInv(m)
    ensures UnitsSound(s.(objs := s.objs[u := m], pool := pool))
  {
  }

  lemma LocalKeepsUnits<U>(g: Range, s: Mcu<U>, step: Step<U>)
    requires g.Valid() && s.pool.cursor % 2 == 0 && UnitsSound(s)
    ensures UnitsSound(ApplyLocal(g, s, step))
  {
    var t := Target(s, step);
    if t.Some? && t.value in s.objs {
      LocalKeepsUnit(g, s.objs[t.value], s.pool, step);
      var r := Local(g, s.objs[t.value], s.pool, step);
      ReplaceKeepsUnits(s, t.value, r.0, r.1);
    }
  }

  lemma StepKeepsUnits<U>(g: Range, s: Mcu<U>, step: Step<U>)
    requires g.Valid() && s.pool.cursor % 2 == 0 && UnitsSound(s)
    ensures UnitsSound(Apply(g, s, step))
  {
    match step
    case Create(jobId, newUnit) => AgreementIsUpToOne(NewMpu(jobId));
    case EndJob(jobId) => EndKeepsUnits(s, jobId);
    case HandlerFault(u, reached) =>
      if u in s.objs && s.objs[u].status == Run && s.objs[u].batch != [] {
        var m := FailNext(s.objs[u], reached);
        FaultKeepsUnit(s.objs[u], reached);
        ReplaceKeepsUnits(s, u, m, s.pool);
        EndKeepsUnits(s.(objs := s.objs[u := m]), s.objs[u].jobId);
      }
    case Reap =>
    case _ => LocalKeepsUnits(g, s, step);
  }

  /** In every run, for every unit: the handled events are a prefix of the accepted ones; while it runs the
      queues hold the rest and its membership records agree, and until it has ended they agree up to one
      channel. */
  lemma {:induction false} UnitsAlwaysSound<U>(g: Range, steps: seq<Step<U>>)
    requires g.Valid()
    ensures UnitsSound(RunSteps(g, steps))
    decreases |steps|
  {
    if steps == [] {
    } else {
      var before := steps[..|steps| - 1];
      UnitsAlwaysSound(g, before);
      StepKeepsUnits(g, RunSteps(g, before), steps[|steps| - 1]);
    }
  }

  /* ---- each unit is stopped at most once ---- */

  /** A unit in service has been sent no stop event, any other unit at most one. */
  ghost predicate StoppedOnce<U>(s: Mcu<U>) {
    forall u :: u in s.objs ==>
      Stops(s.objs[u].accepted) <= (if Serves(s.mpus, u) then 0 else 1)
  }

  lemma ReportStops(m: Mpu, e: Event)
    ensures Stops(Report(m, e).accepted) <= Stops(m.accepted) + (if e.Stop? then 1 else 0)
  {
    StopsAppend(m.accepted, [e]);
    assert [e][..0] == [];
  }

  lemma EndKeepsStoppedOnce<U>(s: Mcu<U>, jobId: string)
    requires JobsConserved(s) && StoppedOnce(s)
    ensures StoppedOnce(EndMpu(s, jobId))
  {
    if jobId in s.mpus {
      var s' := EndMpu(s, jobId);
      var u := s.mpus[jobId];
      ReportStops(s.objs[u], Stop);
      assert Serves(s.mpus, u);
      assert !Serves(s'.mpus, u);
      forall v | v in s'.objs && v != u ensures Serves(s.mpus, v) ==> Serves(s'.mpus, v) {
        if Serves(s.mpus, v) {
          var j :| j in s.mpus && s.mpus[j] == v;
          assert j in s'.mpus && s'.mpus[j] == v;
        }
      }
      assert forall v :: Serves(s'.mpus, v) ==> Serves(s.mpus, v);
    }
  }

  lemma CreateKeepsStoppedOnce<U>(s: Mcu<U>, jobId: string, u: U, m: Mpu)
    requires JobsConserved(s) && StoppedOnce(s) && jobId !in s.mpus && u !in s.objs && m.accepted == []
    ensures StoppedOnce(s.(mpus := s.mpus[jobId := u], objs := s.objs[u := m], runningJob := s.runningJob + 1))
  {
    var mpus' := s.mpus[jobId := u];
    forall v | v in s.objs ensures Serves(mpus', v) ==> Serves(s.mpus, v) {
      if Serves(mpus', v) {
        var j :| j in mpus' && mpus'[j] == v;
        assert j in s.mpus && s.mpus[j] == v;
      }
    }
  }

  lemma LocalStops<U>(g: Range, m: Mpu, pool: Pool, step: Step<U>)
    requires g.Valid() && pool.cursor % 2 == 0
    ensures Stops(Local(g, m, pool, step).0.accepted) <= Stops(m.accepted)
  {
    match step
    case Join(req) =>
      ReportStops(m, Add(req.chnlId, ApplyOnce(g, pool).port, req.codec, req.outRate));
    case Notify(_, e) => ReportStops(m, e);
    case DropChannel(_, id) => ReportStops(m, Remove(id));
    case HandleEvent(_, opens) =>
      if m.status == Run && m.batch != [] {
        EffectFrame(g, m.(batch := m.batch[1..], handled := m.handled + [m.batch[0]]), pool.ports, m.batch[0], opens);
      }
    case _ =>
  }

  lemma ReplaceKeepsStoppedOnce<U>(s: Mcu<U>, u: U, m: Mpu, pool: Pool)
    requires StoppedOnce(s) && u in s.objs && Stops(m.accepted) <= Stops(s.objs[u].accepted)
    ensures StoppedOnce(s.(objs := s.objs[u := m], pool := pool))
  {
  }

  lemma LocalKeepsStoppedOnce<U>(g: Range, s: Mcu<U>, step: Step<U>)
    requires g.Valid() && s.pool.cursor % 2 == 0 && StoppedOnce(s)
    ensures StoppedOnce(ApplyLocal(g, s, step))
  {
    var t := Target(s, step);
    if t.Some? && t.value in s.objs {
      LocalStops(g, s.objs[t.value], s.pool, step);
      var r := Local(g, s.objs[t.value], s.pool, step);
      ReplaceKeepsStoppedOnce(s, t.value, r.0, r.1);
    }
  }

  lemma StepKeepsStoppedOnce<U>(g: Range, s: Mcu<U>, step: Step<U>)
    requires g.Valid() && s.pool.cursor % 2 == 0 && JobsConserved(s) && StoppedOnce(s)
    ensures StoppedOnce(Apply(g, s, step))
  {
    match step
    case Create(jobId, newUnit) =>
      if jobId !in s.mpus && newUnit !in s.objs { CreateKeepsStoppedOnce(s, jobId, newUnit, NewMpu(jobId)); }
    case EndJob(jobId) => EndKeepsStoppedOnce(s, jobId);
    case HandlerFault(u, reached) =>
      if u in s.objs && s.objs[u].status == Run && s.objs[u].batch != [] { FaultKeepsStoppedOnce(s, u, reached); }
    case Reap =>
    case _ => LocalKeepsStoppedOnce(g, s, step);
  }

  lemma FaultKeepsStoppedOnce<U>(s: Mcu<U>, u: U, reached: nat)
    requires JobsConserved(s) && StoppedOnce(s) && u in s.objs
    ensures StoppedOnce(EndMpu(s.(objs := s.objs[u := FailNext(s.objs[u], reached)]), s.objs[u].jobId))
  {
    var m := FailNext(s.objs[u], reached);
    ReplaceKeepsJobs(s, u, m, s.pool);
    ReplaceKeepsStoppedOnce(s, u, m, s.pool);
    EndKeepsStoppedOnce(s.(objs := s.objs[u := m]), s.objs[u].jobId);
  }

  /** However jobs come, go and reuse names, each unit object is sent at most one stop event and its
      stop thread is assigned at most once. */
  lemma {:induction false} StopsAtMostOnce<U>(g: Range, steps: seq<Step<U>>)
    requires g.Valid()
    ensures var s := RunSteps(g, steps);
            StoppedOnce(s) && forall u :: u in s.objs ==> s.objs[u].stopStarts <= 1
    decreases |steps|
  {
    var s := RunSteps(g, steps);
    if steps == [] {
    } else {
      var before := steps[..|steps| - 1];
      StopsAtMostOnce(g, before);
      JobsAlwaysConserved(g, before);
      StepKeepsStoppedOnce(g, RunSteps(g, before), steps[|steps| - 1]);
    }
    UnitsAlwaysSound(g, steps);
    forall u | u in s.objs ensures s.objs[u].stopStarts <= 1 {
      var m := s.objs[u];
      StopsAppend(m.handled, m.accepted[|m.handled|..]);
      assert m.accepted == m.handled + m.accepted[|m.handled|..];
    }
  }

  /* ---- no closing unit is stranded ---- */

  /** The unit has ended or failed, its stop has begun, or that is still to come: its stop thread is started
      or the stop event is in its queues. */
  predicate OnItsWay(m: Mpu) {
    Done(m) || m.stopBegun || (m.status == Run && (m.stopStarts > 0 || Stop in Pending(m)))
  }

  /** Only a stop takes a unit down. */
  predicate DownByStop(m: Mpu) {
    m.status != Raw && (m.status == Down ==> m.stopBegun)
  }

  ghost predicate NoneStranded<U>(s: Mcu<U>) {
    && (forall u :: u in s.objs ==> DownByStop(s.objs[u]))
    && (forall u :: u in s.objs && (u in s.closing || u in s.tmp) ==> OnItsWay(s.objs[u]))
  }

  lemma ReportKeepsWay(m: Mpu, e: Event)
    requires DownByStop(m)
    ensures DownByStop(Report(m, e)) && (OnItsWay(m) || e.Stop? ==> OnItsWay(Report(m, e)))
  {
    var m' := Report(m, e);
    if m.status == Run {
      assert e in m'.queue && forall x :: x in Pending(m) ==> x in Pending(m');
    }
  }

  lemma SwapKeepsWay(m: Mpu)
    ensures OnItsWay(m) ==> OnItsWay(Swap(m))
  {
    if m.status == Run && m.batch == [] {
      assert m.queue + [] == m.queue && [] + m.queue == m.queue;
    }
  }

  lemma HandleKeepsWay(g: Range, m: Mpu, ports: set<nat>, opens: bool)
    requires DownByStop(m)
    ensures var m' := HandleNext(g, m, ports, opens).0; DownByStop(m') && (OnItsWay(m) ==> OnItsWay(m'))
  {
    if m.status == Run && m.batch != [] {
      var e, rest := m.batch[0], m.batch[1..];
      EffectFrame(g, m.(batch := rest, handled := m.handled + [e]), ports, e, opens);
      assert m.batch == [e] + rest;
      assert m.batch + m.queue == [e] + (rest + m.queue);
    }
  }

  lemma LocalKeepsWay<U>(g: Range, m: Mpu, pool: Pool, step: Step<U>)
    requires g.Valid() && pool.cursor % 2 == 0 && DownByStop(m)
    ensures var m' := Local(g, m, pool, step).0; DownByStop(m') && (OnItsWay(m) ==> OnItsWay(m'))
  {
    match step
    case Join(req) => ReportKeepsWay(m, Add(req.chnlId, ApplyOnce(g, pool).port, req.codec, req.outRate));
    case Notify(_, e) => ReportKeepsWay(m, e);
    case DropChannel(_, id) => ReportKeepsWay(m, Remove(id));
    case SwapQueue(_) => SwapKeepsWay(m);
    case HandleEvent(_, opens) => HandleKeepsWay(g, m, pool.ports, opens);
    case _ =>
  }

  lemma ReplaceKeepsStranded<U>(s: Mcu<U>, u: U, m: Mpu, pool: Pool)
    requires NoneStranded(s) && u in s.objs && DownByStop(m) && (OnItsWay(s.objs[u]) ==> OnItsWay(m))
    ensures NoneStranded(s.(objs := s.objs[u := m], pool := pool))
  {
  }

  lemma LocalKeepsStranded<U>(g: Range, s: Mcu<U>, step: Step<U>)
    requires g.Valid() && s.pool.cursor % 2 == 0 && NoneStranded(s)
    ensures NoneStranded(ApplyLocal(g, s, step))
  {
    var t := Target(s, step);
    if t.Some? && t.value in s.objs {
      LocalKeepsWay(g, s.objs[t.value], s.pool, step);
      var r := Local(g, s.objs[t.value], s.pool, step);
      ReplaceKeepsStranded(s, t.value, r.0, r.1);
    }
  }

  lemma EndKeepsStranded<U>(s: Mcu<U>, jobId: string)
    requires NoneStranded(s)
    ensures NoneStranded(EndMpu(s, jobId))
  {
    if jobId in s.mpus && s.mpus[jobId] in s.objs { ReportKeepsWay(s.objs[s.mpus[jobId]], Stop); }
  }

  lemma FaultKeepsStranded<U>(s: Mcu<U>, u: U, reached: nat)
    requires NoneStranded(s) && u in s.objs && s.objs[u].status == Run && s.objs[u].batch != []
    ensures NoneStranded(EndMpu(s.(objs := s.objs[u := FailNext(s.objs[u], reached)]), s.objs[u].jobId))
  {
    var m := FailNext(s.objs[u], reached);
    ReplaceKeepsStranded(s, u, m, s.pool);
    EndKeepsStranded(s.(objs := s.objs[u := m]), s.objs[u].jobId);
  }

  lemma StepKeepsStranded<U>(g: Range, s: Mcu<U>, step: Step<U>)
    requires g.Valid() && s.pool.cursor % 2 == 0 && JobsConserved(s) && NoneStranded(s)
    ensures NoneStranded(Apply(g, s, step))
  {
    match step
    case Create(_, _) =>
    case EndJob(jobId) => EndKeepsStranded(s, jobId);
    case HandlerFault(u, reached) =>
      if u in s.objs && s.objs[u].status == Run && s.objs[u].batch != [] { FaultKeepsStranded(s, u, reached); }
    case Reap =>
    case _ => LocalKeepsStranded(g, s, step);
  }

  /** At every point of every run each closing unit has ended or failed, or is on its way there. */
  lemma {:induction false} NeverStranded<U>(g: Range, steps: seq<Step<U>>)
    requires g.Valid()
    ensures NoneStranded(RunSteps(g, steps))
    decreases |steps|
  {
    if steps == [] {
    } else {
      var before := steps[..|steps| - 1];
      NeverStranded(g, before);
      JobsAlwaysConserved(g, before);
      StepKeepsStranded(g, RunSteps(g, before), steps[|steps| - 1]);
    }
  }

  /* ---- the reaper examines every closing job ---- */

  ghost predicate NoReap<U>(steps: seq<Step<U>>) {
    forall i :: 0 <= i < |steps| ==> !steps[i].Reap?
  }

  function Continue<U>(g: Range, s: Mcu<U>, steps: seq<Step<U>>): (s': Mcu<U>)
    requires g.Valid() && s.pool.cursor % 2 == 0
    ensures s'.pool.cursor % 2 == 0
    decreases |steps|
  {
    if steps == [] then s else Apply(g, Continue(g, s, steps[..|steps| - 1]), steps[|steps| - 1])
  }

  /** Nothing will take the unit out of its end or failure again: a failed unit whose stop thread exists
      but has not begun is still to go down, and is not settled. */
  predicate Settled(m: Mpu) {
    m.status == End || (m.status == Exce && (m.stopStarts == 0 || m.stopBegun))
  }

  lemma LocalKeepsSettled<U>(g: Range, m: Mpu, pool: Pool, step: Step<U>)
    requires g.Valid() && pool.cursor % 2 == 0 && Settled(m)
    ensures Settled(Local(g, m, pool, step).0)
  {
  }

  lemma NothingLeavesLocally<U>(g: Range, s: Mcu<U>, step: Step<U>, u: U)
    requires g.Valid() && s.pool.cursor % 2 == 0 && u in s.objs
    ensures var s' := ApplyLocal(g, s, step);
            s.closing == s'.closing && s.tmp == s'.tmp && u in s'.objs
            && (Settled(s.objs[u]) ==> Settled(s'.objs[u]))
  {
    if Target(s, step) == Some(u) && Settled(s.objs[u]) { LocalKeepsSettled(g, s.objs[u], s.pool, step); }
  }

  lemma NothingLeavesByEnd<U>(s: Mcu<U>, jobId: string, u: U)
    requires u in s.objs
    ensures var s' := EndMpu(s, jobId);
            s.closing <= s'.closing && s.tmp == s'.tmp && u in s'.objs
            && (Settled(s.objs[u]) ==> Settled(s'.objs[u]))
  {
  }

  lemma NothingLeavesByFault<U>(g: Range, s: Mcu<U>, v: U, reached: nat, u: U)
    requires g.Valid() && s.pool.cursor % 2 == 0 && u in s.objs
    ensures var s' := Apply(g, s, HandlerFault(v, reached));
            s.closing <= s'.closing && s.tmp == s'.tmp && u in s'.objs
            && (Settled(s.objs[u]) ==> Settled(s'.objs[u]))
  {
    if v in s.objs && s.objs[v].status == Run && s.objs[v].batch != [] {
      NothingLeavesByEnd(s.(objs := s.objs[v := FailNext(s.objs[v], reached)]), s.objs[v].jobId, u);
    }
  }

  lemma NothingLeavesInStep<U>(g: Range, s: Mcu<U>, step: Step<U>, u: U)
    requires g.Valid() && s.pool.cursor % 2 == 0 && !step.Reap? && u in s.objs
    ensures var s' := Apply(g, s, step);
            s.closing <= s'.closing && s.tmp == s'.tmp && u in s'.objs
            && (Settled(s.objs[u]) ==> Settled(s'.objs[u]))
  {
    match step
    case Create(_, _) =>
    case EndJob(jobId) => NothingLeavesByEnd(s, jobId, u);
    case HandlerFault(v, reached) => NothingLeavesByFault(g, s, v, reached, u);
    case Reap =>
    case _ => NothingLeavesLocally(g, s, step, u);
  }

  /** Between reaper rounds a unit stays in the set it is in, and a settled unit stays settled. */
  lemma {:induction false} NothingLeavesBetweenRounds<U>(g: Range, s: Mcu<U>, steps: seq<Step<U>>, u: U)
    requires g.Valid() && s.pool.cursor % 2 == 0 && JobsConserved(s) && NoReap(steps) && u in s.objs
    ensures var s' := Continue(g, s, steps);
            && JobsConserved(s') && s.closing <= s'.closing && s.tmp == s'.tmp
            && u in s'.objs && (Settled(s.objs[u]) ==> Settled(s'.objs[u]))
    decreases |steps|
  {
    if steps == [] {
    } else {
      var before := steps[..|steps| - 1];
      NothingLeavesBetweenRounds(g, s, before, u);
      var s1 := Continue(g, s, before);
      assert !steps[|steps| - 1].Reap?;
      StepKeepsJobs(g, s1, steps[|steps| - 1]);
      NothingLeavesInStep(g, s1, steps[|steps| - 1], u);
    }
  }

  /** The unit is gone after one of two consecutive rounds, with the given steps in between. */
  ghost predicate Reaped<U>(g: Range, s: Mcu<U>, between: seq<Step<U>>, u: U)
    requires g.Valid() && s.pool.cursor % 2 == 0
  {
    var s1 := ReaperRound(g, s);
    u !in s1.objs || u !in ReaperRound(g, Continue(g, s1, between)).objs
  }

  /** In any two consecutive reaper rounds, whatever happens in between, every unit that was closing is
      examined: it is in the set the first or the second round works on.  So a settled unit is removed by
      one of the two. */
  lemma ReapedWithinTwoRounds<U>(g: Range, s: Mcu<U>, between: seq<Step<U>>, u: U)
    requires g.Valid() && s.pool.cursor % 2 == 0 && JobsConserved(s) && NoReap(between)
    requires u in s.closing || u in s.tmp
    ensures u in s.closing || u in Continue(g, ReaperRound(g, s), between).closing
    ensures Settled(s.objs[u]) ==> Reaped(g, s, between, u)
  {
    ReapKeepsJobs(g, s);
    if u in ReaperRound(g, s).objs { NothingLeavesBetweenRounds(g, ReaperRound(g, s), between, u); }
  }

  /** The first half of a stop that is due takes a failed unit out of its failure, and out of reach of
      the second round. */
  lemma PendingStopEscapes<U>(g: Range, s: Mcu<U>, u: U)
    requires g.Valid() && s.pool.cursor % 2 == 0 && JobsConserved(s)
    requires u in s.tmp && Done(s.objs[u]) && !Settled(s.objs[u])
    ensures NoReap([StopBegins(u)]) && !Reaped(g, s, [StopBegins(u)], u)
  {
    var s1 := ReaperRound(g, s);
    var between := [StopBegins(u)];
    assert u !in Finished(s) && u in s1.closing && s1.objs[u] == s.objs[u];
    assert between[..0] == [];
    assert Continue(g, s1, between) == Apply(g, Continue(g, s1, []), StopBegins(u));
    var s2 := Continue(g, s1, between);
    assert s2.objs[u].status == Down;
    assert u !in Finished(s2);
  }

  /** A unit found ended or failed is certain to be gone after two rounds exactly if the first round works
      on it or it is settled. */
  lemma ReapedWithinTwoRoundsIff<U>(g: Range, s: Mcu<U>, u: U)
    requires g.Valid() && s.pool.cursor % 2 == 0 && JobsConserved(s)
    requires (u in s.closing || u in s.tmp) && Done(s.objs[u])
    ensures (forall between: seq<Step<U>> :: NoReap(between) ==> Reaped(g, s, between, u)) <==>
            u in s.closing || Settled(s.objs[u])
  {
    if u in s.closing || Settled(s.objs[u]) {
      forall between: seq<Step<U>> | NoReap(between) ensures Reaped(g, s, between, u) {
        ReapedWithinTwoRounds(g, s, between, u);
      }
    } else {
      PendingStopEscapes(g, s, u);
    }
  }

  /* ---- every closing unit can still be reaped ---- */

  lemma {:induction false} ContinueAfter<U>(g: Range, s: Mcu<U>, step: Step<U>, rest: seq<Step<U>>)
    requires g.Valid() && s.pool.cursor % 2 == 0
    ensures Continue(g, s, [step] + rest) == Continue(g, Apply(g, s, step), rest)
    decreases |rest|
  {
    if rest == [] {
      assert [step] + rest == [step] && [step][..0] == [];
    } else {
      hide Apply;
      var n := |rest| - 1;
      assert ([step] + rest)[..1 + n] == [step] + rest[..n] && ([step] + rest)[1 + n] == rest[n];
      ContinueAfter(g, s, step, rest[..n]);
    }
  }

  /** A step of the unit's own in front. */
  lemma SettleAfter<U>(g: Range, s: Mcu<U>, u: U, step: Step<U>, rest: seq<Step<U>>)
    requires g.Valid() && s.pool.cursor % 2 == 0 && !step.Reap? && NoReap(rest)
    requires var s1 := Apply(g, s, step); SettlesBy(g, s1, u, rest)
    ensures NoReap([step] + rest) && SettlesBy(g, s, u, [step] + rest)
  {
    ContinueAfter(g, s, step, rest);
  }

  ghost predicate SettlesBy<U>(g: Range, s: Mcu<U>, u: U, steps: seq<Step<U>>)
    requires g.Valid() && s.pool.cursor % 2 == 0
  {
    var s' := Continue(g, s, steps);
    u in s'.objs && Settled(s'.objs[u])
  }

  /** A unit on its way to its end gets there by its own steps: it handles its events up to the stop, and
      the stop thread does the rest. */
  lemma {:induction false} CanSettle<U>(g: Range, s: Mcu<U>, u: U) returns (steps: seq<Step<U>>)
    requires g.Valid() && s.pool.cursor % 2 == 0 && u in s.objs && OnItsWay(s.objs[u])
    ensures NoReap(steps) && SettlesBy(g, s, u, steps)
    decreases !Settled(s.objs[u]), |Pending(s.objs[u])|, |s.objs[u].queue|, !s.objs[u].stopBegun
  {
    var m := s.objs[u];
    if Settled(m) {
      steps := [];
    } else {
      var step := NextOwn(m, u);
      OwnStep(g, s, u);
      var rest := CanSettle(g, Apply(g, s, step), u);
      SettleAfter(g, s, u, step, rest);
      steps := [step] + rest;
    }
  }

  /** What a unit on its way does next. */
  function NextOwn<U>(m: Mpu, u: U): Step<U> {
    if m.stopBegun then StopEnds(u)
    else if m.stopStarts > 0 then StopBegins(u)
    else if m.batch == [] then SwapQueue(u)
    else HandleEvent(u, false)
  }

  lemma OwnStep<U>(g: Range, s: Mcu<U>, u: U)
    requires g.Valid() && s.pool.cursor % 2 == 0 && u in s.objs && OnItsWay(s.objs[u]) && !Settled(s.objs[u])
    ensures var m, s' := s.objs[u], Apply(g, s, NextOwn(s.objs[u], u));
            && u in s'.objs && OnItsWay(s'.objs[u])
            && (Settled(s'.objs[u]) || Nearer(s'.objs[u], m))
  {
    var m := s.objs[u];
    if m.stopBegun || m.stopStarts > 0 {
    } else if m.batch == [] {
      SwapKeepsWay(m);
      assert Pending(Swap(m)) == Pending(m) && m.queue != [];
    } else {
      HandleKeepsWay(g, m.(status := Run), s.pool.ports, false);
      EffectFrame(g, m.(batch := m.batch[1..], handled := m.handled + [m.batch[0]]), s.pool.ports, m.batch[0], false);
    }
  }

  predicate Nearer(m': Mpu, m: Mpu) {
    || |Pending(m')| < |Pending(m)|
    || (|Pending(m')| == |Pending(m)| && |m'.queue| < |m.queue|)
    || (|Pending(m')| == |Pending(m)| && |m'.queue| == |m.queue| && m'.stopBegun && !m.stopBegun)
  }

  lemma {:induction false} RunContinues<U>(g: Range, steps: seq<Step<U>>, more: seq<Step<U>>)
    requires g.Valid()
    ensures RunSteps(g, steps + more) == Continue(g, RunSteps(g, steps), more)
    decreases |more|
  {
    if more == [] {
      assert steps + more == steps;
    } else {
      var n, last := |more| - 1, more[|more| - 1];
      RunContinues(g, steps, more[..n]);
      assert steps + more == steps + more[..n] + [last];
      RunAppend(g, steps + more[..n], last);
    }
  }

  /** Every run can go on so that a closing unit is reaped: its own steps settle it, and two rounds of the
      reaper remove it. */
  lemma ClosingCanBeReaped<U>(g: Range, steps: seq<Step<U>>, u: U) returns (more: seq<Step<U>>)
    requires g.Valid()
    requires var s := RunSteps(g, steps); u in s.closing || u in s.tmp
    ensures u !in RunSteps(g, steps + more + [Reap] + [Reap]).objs && NoReap(more)
  {
    JobsAlwaysConserved(g, steps);
    NeverStranded(g, steps);
    more := CanSettleClosing(g, RunSteps(g, steps), u);
    RunContinues(g, steps, more);
    TwoRoundsReap(g, RunSteps(g, steps + more), u);
    TwoRoundsMore(g, steps + more);
  }

  lemma CanSettleClosing<U>(g: Range, s: Mcu<U>, u: U) returns (more: seq<Step<U>>)
    requires g.Valid() && s.pool.cursor % 2 == 0 && JobsConserved(s) && NoneStranded(s)
    requires u in s.closing || u in s.tmp
    ensures NoReap(more)
    ensures var s' := Continue(g, s, more);
            JobsConserved(s') && (u in s'.closing || u in s'.tmp) && Settled(s'.objs[u])
  {
    more := CanSettle(g, s, u);
    NothingLeavesBetweenRounds(g, s, more, u);
  }

  lemma TwoRoundsMore<U>(g: Range, steps: seq<Step<U>>)
    requires g.Valid()
    ensures RunSteps(g, steps + [Reap] + [Reap]) == ReaperRound(g, ReaperRound(g, RunSteps(g, steps)))
  {
    RunAppend(g, steps, Reap);
    RunAppend(g, steps + [Reap], Reap);
  }

  lemma TwoRoundsReap<U>(g: Range, s: Mcu<U>, u: U)
    requires g.Valid() && s.pool.cursor % 2 == 0 && JobsConserved(s)
    requires (u in s.closing || u in s.tmp) && Settled(s.objs[u])
    ensures u !in ReaperRound(g, ReaperRound(g, s)).objs
  {
    var s1 := ReaperRound(g, s);
    assert Continue(g, s1, []) == s1;
    ReapedWithinTwoRounds(g, s, [], u);
  }
}

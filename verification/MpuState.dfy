/** One conference: its event queue, its members and the ports they own
    (src/mpu.cpp, core/MediaProcessUnit.h, close and getPort in src/apc.cpp). */
module MpuState {
  import opened Lists
  import opened PortAllocator

  datatype Status = Raw | Run | Down | End | Exce

  datatype Event =
    | Stop
    | Add(id: string, port: nat, codec: int, outRate: int)
    | Remove(id: string)
    | OpenMic(id: string)
    | CloseMic(id: string)
    | UpdateDest(id: string)

  /** An audio channel, as far as membership goes: the port it listens on and the codec it opened. */
  datatype Channel = Channel(port: nat, codec: int)

  /** The state of a media processing unit.  `accepted` and `handled` record its event history;
      `stopStarts` counts the assignments of its stop thread, `stopBegun` says that thread has begun. */
  datatype Mpu = Mpu(
    jobId: string, status: Status, codec: int, outRate: int,
    apcs: map<string, Channel>, users: seq<string>, userNum: int, mixer: set<string>, portList: seq<nat>,
    queue: seq<Event>, batch: seq<Event>, accepted: seq<Event>, handled: seq<Event>,
    stopStarts: nat, stopBegun: bool)

  function NewMpu(jobId: string): Mpu {
    Mpu(jobId, Run, -1, -1, map[], [], 0, {}, [], [], [], [], [], 0, false)
  }

  /* ---- transitions ---- */

  /** What the uint32 port becomes on its way through the int16_t result of getPort. */
  function NarrowedPort(port: nat): nat {
    var low := port % 0x1_0000;
    if low < 0x8000 then low else low + 0xFFFF_0000
  }

  function ReleasedAll(g: Range, ports: set<nat>, gone: set<nat>): set<nat> {
    set p | p in ports && (p < g.point || p !in gone)
  }

  /** reportMediaInfo: an event is accepted only while the unit runs. */
  function Report(m: Mpu, e: Event): Mpu {
    if m.status != Run then m else m.(queue := m.queue + [e], accepted := m.accepted + [e])
  }

  /** eventHandle takes over everything queued once the previous batch is done. */
  function Swap(m: Mpu): Mpu {
    if m.status != Run || m.batch != [] then m else m.(batch := m.queue, queue := [])
  }

  /** addChannel; `opens` is the outcome of opening the codecs.  A channel object that is not kept is
      destroyed, which releases its port. */
  function AddChannel(g: Range, m: Mpu, ports: set<nat>, e: Event, opens: bool): (Mpu, set<nat>)
    requires e.Add?
  {
    if e.id in m.apcs then (m, Released(g, ports, e.port)) else
      var m1 := m.(outRate := if m.outRate == -1 then e.outRate else m.outRate,
                   codec := if m.codec == -1 then e.codec else m.codec);
      if !opens then (m1, Released(g, ports, e.port)) else
        (m1.(apcs := m1.apcs[e.id := Channel(e.port, m1.codec)],
             users := m1.users + [e.id], userNum := m1.userNum + 1,
             mixer := m1.mixer + {e.id}, portList := m1.portList + [e.port]), ports)
  }

  function RemoveChannel(g: Range, m: Mpu, ports: set<nat>, id: string): (Mpu, set<nat>) {
    if id !in m.apcs then (m, ports) else
      var port := m.apcs[id].port;
      (m.(apcs := m.apcs - {id}, users := RemoveFirst(m.users, id), userNum := m.userNum - 1,
          mixer := m.mixer - {id}, portList := RemoveAll(m.portList, NarrowedPort(port))),
       Released(g, ports, port))
  }

  function Effect(g: Range, m: Mpu, ports: set<nat>, e: Event, opens: bool): (Mpu, set<nat>) {
    match e
    case Stop => (m.(stopStarts := m.stopStarts + 1), ports)
    case Add(_, _, _, _) => AddChannel(g, m, ports, e, opens)
    case Remove(id) => RemoveChannel(g, m, ports, id)
    case _ => (m, ports)
  }

  /** eventHandle handles the next event of its batch, unless the unit has left the running state. */
  function HandleNext(g: Range, m: Mpu, ports: set<nat>, opens: bool): (Mpu, set<nat>) {
    if m.status != Run || m.batch == [] then (m, ports) else
      Effect(g, m.(batch := m.batch[1..], handled := m.handled + [m.batch[0]]), ports, m.batch[0], opens)
  }

  /** The records of a new channel that were made before an exception: none, the channel map, the user
      list, or the mixer as well; the port list comes last. */
  function PartlyAdded(m: Mpu, e: Event, reached: nat): Mpu
    requires e.Add?
  {
    if e.id in m.apcs || reached == 0 then m else
      var codec := if m.codec == -1 then e.codec else m.codec;
      var m1 := m.(outRate := if m.outRate == -1 then e.outRate else m.outRate, codec := codec,
                   apcs := m.apcs[e.id := Channel(e.port, codec)]);
      if reached == 1 then m1 else
        var m2 := m1.(users := m.users + [e.id], userNum := m.userNum + 1);
        if reached == 2 then m2 else m2.(mixer := m.mixer + {e.id})
  }

  /** An exception while an event is handled: the event is lost, an add possibly halfway through its
      records, and the unit fails. */
  function FailNext(m: Mpu, reached: nat): Mpu {
    if m.status != Run || m.batch == [] then m else
      var e := m.batch[0];
      var m1 := m.(batch := m.batch[1..], handled := m.handled + [e], status := Exce);
      if e.Add? then PartlyAdded(m1, e, reached) else m1
  }

  /** An exception in the mixing thread, which stop() has not joined yet. */
  function FailWorker(m: Mpu): Mpu {
    if m.status == End then m else m.(status := Exce)
  }

  /** First half of stop(), run by the stop thread. */
  function BeginStop(m: Mpu): Mpu {
    if m.stopStarts == 0 || m.stopBegun || m.status == End then m else m.(status := Down, stopBegun := true)
  }

  /** Second half of stop(), once the threads are joined: every channel is destroyed. */
  function FinishStop(g: Range, m: Mpu, ports: set<nat>): (Mpu, set<nat>) {
    if !m.stopBegun || m.status == End then (m, ports) else
      (m.(apcs := map[], status := End), ReleasedAll(g, ports, LivePorts(m)))
  }

  /* ---- what is owned ---- */

  function LivePorts(m: Mpu): set<nat> {
    set id | id in m.apcs :: m.apcs[id].port
  }

  function Pending(m: Mpu): seq<Event> {
    m.batch + m.queue
  }

  /** Ports in add events that can still be handled. */
  function QueuedPorts(m: Mpu): set<nat> {
    if m.status != Run then {} else set e | e in Pending(m) && e.Add? :: e.port
  }

  function Owned(m: Mpu): set<nat> {
    LivePorts(m) + QueuedPorts(m)
  }

  ghost predicate DistinctAdds(s: seq<Event>) {
    forall i, j :: 0 <= i < j < |s| && s[i].Add? && s[j].Add? ==> s[i].port != s[j].port
  }

  ghost predicate DistinctLive(m: Mpu) {
    forall a, b :: a in m.apcs && b in m.apcs && a != b ==> m.apcs[a].port != m.apcs[b].port
  }

  /** No port is owned twice within the unit. */
  ghost predicate OwnsOnce(m: Mpu) {
    && DistinctLive(m)
    && (m.status == Run ==> DistinctAdds(Pending(m)))
    && LivePorts(m) !! QueuedPorts(m)
  }

  /* ---- invariants of one unit ---- */

  /** Every record of the membership agrees, and all channels share the unit's codec. */
  ghost predicate Agreement(m: Mpu) {
    && NoDup(m.users)
    && Elements(m.users) == m.apcs.Keys == m.mixer
    && m.userNum == |m.users|
    && (forall id :: id in m.apcs ==> m.apcs[id].codec == m.codec)
    && (m.apcs.Keys != {} ==> m.codec != -1)
  }

  /** What is left of it when an exception struck in the middle of an add: the user list and the mixer
      lack at most one channel, the same one. */
  ghost predicate AgreementUpToOne(m: Mpu) {
    && NoDup(m.users)
    && m.mixer <= Elements(m.users) <= m.apcs.Keys
    && (exists id :: m.apcs.Keys - {id} <= m.mixer)
    && m.userNum == |m.users|
    && (forall id :: id in m.apcs ==> m.apcs[id].codec == m.codec)
    && (m.apcs.Keys != {} ==> m.codec != -1)
  }

  /** The handled events are a prefix of the accepted ones; while the unit runs the two queues hold
      exactly the rest, in order. */
  ghost predicate Fifo(m: Mpu) {
    && m.handled <= m.accepted
    && (m.status == Run ==> m.handled + m.batch + m.queue == m.accepted)
  }

  function Stops(s: seq<Event>): nat {
    if s == [] then 0 else Stops(s[..|s| - 1]) + (if s[|s| - 1].Stop? then 1 else 0)
  }

  ghost predicate StopCounted(m: Mpu) {
    && m.stopStarts <= Stops(m.handled)
    && (m.stopBegun ==> m.stopStarts > 0 && m.status != Run)
  }

  ghost predicate ProperPending(m: Mpu) {
    forall e :: e in Pending(m) && e.Add? ==> e.codec == 1 || e.codec == 2
  }

  /** What holds of a unit between any two steps. */
  ghost predicate UnitInv(m: Mpu) {
    && Fifo(m) && StopCounted(m) && ProperPending(m)
    && m.status != Raw
    && (m.status == Run ==> Agreement(m))
    && (m.status != End ==> AgreementUpToOne(m))
  }

  /* ---- membership ---- */

  /** Every handled event keeps the membership records in agreement, and a codec once chosen stays. */
  lemma EffectKeepsAgreement(g: Range, m: Mpu, ports: set<nat>, e: Event, opens: bool)
    requires Agreement(m) && (e.Add? ==> e.codec != -1)
    ensures Agreement(Effect(g, m, ports, e, opens).0)
    ensures m.codec != -1 ==> Effect(g, m, ports, e, opens).0.codec == m.codec
  {
    var m' := Effect(g, m, ports, e, opens).0;
    if e.Add? && e.id !in m.apcs && opens {
      assert e.id !in Elements(m.users);
      NoDupAppend(m.users, e.id);
      assert m'.apcs.Keys == m.apcs.Keys + {e.id};
    } else if e.Remove? && e.id in m.apcs {
      assert e.id in Elements(m.users);
      RemoveFirstFromNoDup(m.users, e.id);
      assert m'.apcs.Keys == m.apcs.Keys - {e.id};
      assert Elements(m'.users) == Elements(m.users) - {e.id};
    }
  }

  /** The port list names each live port exactly once. */
  ghost predicate ListsLive(m: Mpu) {
    NoDup(m.portList) && Elements(m.portList) == LivePorts(m)
  }

  /** Of the ports that fit 32 bits, getPort returns unchanged those below 2^15 and the topmost 2^15. */
  lemma NarrowedIff(port: nat)
    requires port < 0x1_0000_0000
    ensures NarrowedPort(port) == port <==> port < 0x8000 || port >= 0xFFFF_8000
  {
  }

  /** Whatever the port, getPort returns what is congruent to it and fits 16 signed bits. */
  lemma NarrowedIsCongruent(port: nat)
    ensures NarrowedPort(port) % 0x1_0000 == port % 0x1_0000
    ensures NarrowedPort(port) < 0x8000 || 0xFFFF_8000 <= NarrowedPort(port) < 0x1_0000_0000
  {
    var low := port % 0x1_0000;
    assert (low + 0xFFFF * 0x1_0000) % 0x1_0000 == low;
  }

  /** An event keeps the list of live ports exact if and only if it does not remove a channel whose port
      getPort distorts. */
  lemma EffectKeepsListIff(g: Range, m: Mpu, ports: set<nat>, e: Event, opens: bool)
    requires DistinctLive(m) && ListsLive(m)
    requires e.Add? ==> e.port !in LivePorts(m)
    ensures ListsLive(Effect(g, m, ports, e, opens).0) <==>
            (e.Remove? && e.id in m.apcs ==> NarrowedPort(m.apcs[e.id].port) == m.apcs[e.id].port)
  {
    var m' := Effect(g, m, ports, e, opens).0;
    if e.Add? && e.id !in m.apcs && opens {
      LiveAfterAdd(m, e.id, Channel(e.port, m'.codec));
      NoDupAppend(m.portList, e.port);
    } else if e.Remove? && e.id in m.apcs {
      RemoveKeepsListIff(g, m, ports, e.id);
    } else {
      assert LivePorts(m') == LivePorts(m);
    }
  }

  lemma RemoveKeepsListIff(g: Range, m: Mpu, ports: set<nat>, id: string)
    requires DistinctLive(m) && ListsLive(m) && id in m.apcs
    ensures ListsLive(RemoveChannel(g, m, ports, id).0) <==> NarrowedPort(m.apcs[id].port) == m.apcs[id].port
  {
    var m' := RemoveChannel(g, m, ports, id).0;
    var port := m.apcs[id].port;
    assert port in LivePorts(m);
    assert port in m.portList;
    RemoveAllElements(m.portList, NarrowedPort(port));
    LiveAfterRemove(m, id);
    assert LivePorts(m') == LivePorts(m) - {port};
    if NarrowedPort(port) == port {
      assert Elements(m'.portList) == Elements(m.portList) - {port};
    } else {
      assert port in Elements(m'.portList);
    }
  }

  lemma LiveAfterAdd(m: Mpu, id: string, c: Channel)
    requires id !in m.apcs
    ensures LivePorts(m.(apcs := m.apcs[id := c])) == LivePorts(m) + {c.port}
  {
    var apcs' := m.apcs[id := c];
    forall p | p in LivePorts(m) + {c.port} ensures p in LivePorts(m.(apcs := apcs')) {
      if p == c.port {
        assert id in apcs' && apcs'[id].port == p;
      } else {
        var a :| a in m.apcs && m.apcs[a].port == p;
        assert a in apcs' && apcs'[a].port == p;
      }
    }
  }

  lemma LiveAfterRemove(m: Mpu, id: string)
    requires id in m.apcs && DistinctLive(m)
    ensures LivePorts(m.(apcs := m.apcs - {id})) == LivePorts(m) - {m.apcs[id].port}
  {
    var apcs' := m.apcs - {id};
    forall p | p in LivePorts(m) - {m.apcs[id].port} ensures p in LivePorts(m.(apcs := apcs')) {
      var a :| a in m.apcs && m.apcs[a].port == p;
      assert a in apcs' && apcs'[a].port == p;
    }
  }

  /* ---- whole histories of handled events ---- */

  datatype Handled = Handled(event: Event, opens: bool)

  function HandleAll(g: Range, m: Mpu, ports: set<nat>, h: seq<Handled>): (Mpu, set<nat>)
    decreases |h|
  {
    if h == [] then (m, ports) else
      var r := HandleAll(g, m, ports, h[..|h| - 1]);
      Effect(g, r.0, r.1, h[|h| - 1].event, h[|h| - 1].opens)
  }

  function MembersAfter(ids: set<string>, last: Handled): set<string> {
    match last.event
    case Add(id, _, _, _) => if last.opens then ids + {id} else ids
    case Remove(id) => ids - {id}
    case _ => ids
  }

  /** The members after a history: an add joins if it opens, a remove leaves. */
  function Members(ids: set<string>, h: seq<Handled>): set<string>
    decreases |h|
  {
    if h == [] then ids else MembersAfter(Members(ids, h[..|h| - 1]), h[|h| - 1])
  }

  function NewlyAdded(ids: set<string>, last: Handled): seq<nat> {
    if last.event.Add? && last.opens && last.event.id !in ids then [last.event.port] else []
  }

  /** The ports of all adds that really added a member. */
  function AddedPorts(ids: set<string>, h: seq<Handled>): seq<nat>
    decreases |h|
  {
    if h == [] then [] else
      var before := h[..|h| - 1];
      AddedPorts(ids, before) + NewlyAdded(Members(ids, before), h[|h| - 1])
  }

  ghost predicate ProperAdds(h: seq<Handled>) {
    forall i :: 0 <= i < |h| && h[i].event.Add? ==> h[i].event.codec != -1
  }

  ghost predicate SixteenBitAdds(h: seq<Handled>) {
    forall i :: 0 <= i < |h| && h[i].event.Add? ==> h[i].event.port < 0x1_0000
  }

  /** After any history the records agree on exactly the members it leaves. */
  lemma {:induction false} MembershipIsReplay(g: Range, jobId: string, ports: set<nat>, h: seq<Handled>)
    requires ProperAdds(h)
    ensures var m := HandleAll(g, NewMpu(jobId), ports, h).0;
            Agreement(m) && m.apcs.Keys == Members({}, h)
    decreases |h|
  {
    if h == [] {
    } else {
      var before := h[..|h| - 1];
      MembershipIsReplay(g, jobId, ports, before);
      var r := HandleAll(g, NewMpu(jobId), ports, before);
      var last := h[|h| - 1];
      EffectKeepsAgreement(g, r.0, r.1, last.event, last.opens);
    }
  }

  function IfHigh(p: nat): seq<nat> {
    if p >= 0x8000 then [p] else []
  }

  /** The ports of a list that getPort distorts. */
  function HighPart(s: seq<nat>): seq<nat>
    decreases |s|
  {
    if s == [] then [] else HighPart(s[..|s| - 1]) + IfHigh(s[|s| - 1])
  }

  lemma HighPartAppend(s: seq<nat>, p: nat)
    ensures HighPart(s + [p]) == HighPart(s) + IfHigh(p)
  {
    assert (s + [p])[..|s|] == s;
  }

  lemma {:induction false} HighPartRemove(s: seq<nat>, x: nat)
    requires x >= 0x8000 ==> x !in s
    ensures HighPart(RemoveAll(s, x)) == HighPart(s)
    decreases |s|
  {
    if s == [] {
    } else {
      var front, last := s[..|s| - 1], s[|s| - 1];
      assert s == front + [last];
      HighPartRemove(front, x);
      RemoveAllSnoc(front, last, x);
      HighPartAppend(front, last);
      if last == x {
        assert RemoveAll(s, x) == RemoveAll(front, x);
      } else {
        HighPartAppend(RemoveAll(front, x), last);
      }
    }
  }

  lemma {:induction false} AllHigh(s: seq<nat>)
    requires forall i :: 0 <= i < |s| ==> s[i] >= 0x8000
    ensures HighPart(s) == s
    decreases |s|
  {
    if s == [] {
    } else {
      AllHigh(s[..|s| - 1]);
    }
  }

  /** What the list holds of the ports that were added. */
  ghost predicate HighKept(m: Mpu, added: seq<nat>) {
    && HighPart(m.portList) == HighPart(added)
    && (forall p :: p in m.portList ==> p < 0x1_0000 && p in added)
    && (forall id :: id in m.apcs ==> m.apcs[id].port < 0x1_0000)
  }

  lemma AddKeepsHigh(m: Mpu, m': Mpu, id: string, c: Channel, added: seq<nat>)
    requires HighKept(m, added) && c.port < 0x1_0000
    requires m'.apcs == m.apcs[id := c] && m'.portList == m.portList + [c.port]
    ensures HighKept(m', added + [c.port])
  {
    hide HighPart, IfHigh;
    HighPartAppend(m.portList, c.port);
    HighPartAppend(added, c.port);
  }

  lemma RemoveKeepsHigh(g: Range, m: Mpu, ports: set<nat>, id: string, added: seq<nat>)
    requires HighKept(m, added)
    ensures HighKept(RemoveChannel(g, m, ports, id).0, added)
  {
    if id in m.apcs {
      var x := NarrowedPort(m.apcs[id].port);
      PrunedIsLow(m.apcs[id].port);
      PruneKeepsHigh(m.portList, x, added);
    }
  }

  /** No 16-bit port from 2^15 on is what getPort makes of a 16-bit port. */
  lemma PrunedIsLow(port: nat)
    requires port < 0x1_0000
    ensures NarrowedPort(port) < 0x8000 || NarrowedPort(port) >= 0x1_0000
  {
  }

  lemma PruneKeepsHigh(list: seq<nat>, x: nat, added: seq<nat>)
    requires HighPart(list) == HighPart(added) && forall p :: p in list ==> p < 0x1_0000 && p in added
    requires x < 0x8000 || x >= 0x1_0000
    ensures HighPart(RemoveAll(list, x)) == HighPart(added)
    ensures forall p :: p in RemoveAll(list, x) ==> p < 0x1_0000 && p in added
  {
    RemoveAllElements(list, x);
    HighPartRemove(list, x);
  }

  /** Ports of 2^15 and above are never pruned: among 16-bit ports, whatever low ones come and go in
      between, the list holds the high ones of every channel ever added, in order, whether or not the
      channel is still there. */
  lemma {:induction false} HighPortsAccumulate(g: Range, jobId: string, ports: set<nat>, h: seq<Handled>)
    requires SixteenBitAdds(h)
    ensures var m := HandleAll(g, NewMpu(jobId), ports, h).0;
            m.apcs.Keys == Members({}, h) && HighKept(m, AddedPorts({}, h))
    decreases |h|
  {
    if h == [] {
    } else {
      var before, last := h[..|h| - 1], h[|h| - 1];
      HighPortsAccumulate(g, jobId, ports, before);
      var r := HandleAll(g, NewMpu(jobId), ports, before);
      EffectKeepsHigh(g, r.0, r.1, last, Members({}, before), AddedPorts({}, before));
    }
  }

  lemma EffectKeepsHigh(g: Range, m: Mpu, ports: set<nat>, last: Handled, members: set<string>, added: seq<nat>)
    requires m.apcs.Keys == members && HighKept(m, added) && (last.event.Add? ==> last.event.port < 0x1_0000)
    ensures var m' := Effect(g, m, ports, last.event, last.opens).0;
            && HighKept(m', added + NewlyAdded(members, last))
            && m'.apcs.Keys == MembersAfter(members, last)
  {
    var e, m' := last.event, Effect(g, m, ports, last.event, last.opens).0;
    assert added + [] == added;
    if e.Add? && last.opens && e.id !in m.apcs {
      AddKeepsHigh(m, m', e.id, Channel(e.port, m'.codec), added);
    } else if e.Remove? {
      RemoveKeepsHigh(g, m, ports, e.id, added);
    }
  }

  /** So if all its ports are high, a unit lists every port it ever added. */
  lemma NothingIsPruned(g: Range, jobId: string, ports: set<nat>, h: seq<Handled>, added: seq<nat>)
    requires SixteenBitAdds(h) && added == AddedPorts({}, h) && forall i :: 0 <= i < |added| ==> added[i] >= 0x8000
    ensures HandleAll(g, NewMpu(jobId), ports, h).0.portList == added
  {
    HighPortsAccumulate(g, jobId, ports, h);
    SameIfHigh(HandleAll(g, NewMpu(jobId), ports, h).0.portList, added);
  }

  lemma SameIfHigh(list: seq<nat>, added: seq<nat>)
    requires HighPart(list) == HighPart(added) && forall p :: p in list ==> p in added
    requires forall i :: 0 <= i < |added| ==> added[i] >= 0x8000
    ensures list == added
  {
    AllHigh(added);
    forall i | 0 <= i < |list| ensures list[i] >= 0x8000 {
      assert list[i] in added;
    }
    AllHigh(list);
  }

  /* ---- the two queues are one FIFO ---- */

  lemma ReportKeepsFifo(m: Mpu, e: Event)
    requires Fifo(m)
    ensures Fifo(Report(m, e))
  {
    assert m.handled + m.batch + (m.queue + [e]) == m.handled + m.batch + m.queue + [e];
    assert m.accepted <= m.accepted + [e];
  }

  lemma SwapKeepsFifo(m: Mpu)
    requires Fifo(m)
    ensures Fifo(Swap(m))
  {
    if m.status == Run && m.batch == [] {
      assert m.handled + m.batch + m.queue == m.handled + m.queue + [];
    }
  }

  /** The history after the next event left the batch. */
  lemma PopKeepsFifo(m: Mpu)
    requires Fifo(m) && m.status == Run && m.batch != []
    ensures Fifo(m.(batch := m.batch[1..], handled := m.handled + [m.batch[0]]))
  {
    assert m.batch == [m.batch[0]] + m.batch[1..];
    assert m.handled + [m.batch[0]] + m.batch[1..] + m.queue == m.accepted;
  }

  lemma EffectFrame(g: Range, m: Mpu, ports: set<nat>, e: Event, opens: bool)
    ensures var m' := Effect(g, m, ports, e, opens).0;
            && m'.jobId == m.jobId && m'.status == m.status && m'.stopBegun == m.stopBegun
            && m'.queue == m.queue && m'.batch == m.batch && m'.accepted == m.accepted && m'.handled == m.handled
            && m'.stopStarts == m.stopStarts + (if e.Stop? then 1 else 0)
  {
  }

  lemma {:induction false} StopsAppend(a: seq<Event>, b: seq<Event>)
    ensures Stops(a + b) == Stops(a) + Stops(b)
    decreases |b|
  {
    if b == [] {
      assert a + b == a;
    } else {
      assert (a + b)[..|a + b| - 1] == a + b[..|b| - 1];
      StopsAppend(a, b[..|b| - 1]);
    }
  }

  /* ---- the invariants are kept by every transition ---- */

  lemma ReportKeepsUnit(m: Mpu, e: Event)
    requires UnitInv(m) && (e.Add? ==> e.codec == 1 || e.codec == 2)
    ensures UnitInv(Report(m, e))
  {
    ReportKeepsFifo(m, e);
    assert Pending(Report(m, e)) == if m.status == Run then Pending(m) + [e] else Pending(m);
  }

  lemma SwapKeepsUnit(m: Mpu)
    requires UnitInv(m)
    ensures UnitInv(Swap(m)) && Pending(Swap(m)) == Pending(m)
  {
    SwapKeepsFifo(m);
    if m.status == Run && m.batch == [] { assert Pending(Swap(m)) == m.queue == Pending(m); }
  }

  /** Taking the next event out of the queues counts its stop. */
  lemma PopKeepsCount(m: Mpu)
    requires UnitInv(m) && m.status == Run && m.batch != []
    ensures var e := m.batch[0];
            Stops(m.handled + [e]) == Stops(m.handled) + (if e.Stop? then 1 else 0)
    ensures var m1 := m.(batch := m.batch[1..], handled := m.handled + [m.batch[0]]);
            Fifo(m1) && ProperPending(m1) && (m.batch[0].Add? ==> m.batch[0].codec != -1)
  {
    var e := m.batch[0];
    PopKeepsFifo(m);
    StopsAppend(m.handled, [e]);
    assert [e][..0] == [];
    assert e in Pending(m);
    var m1 := m.(batch := m.batch[1..], handled := m.handled + [e]);
    assert forall x :: x in Pending(m1) ==> x in Pending(m);
  }

  lemma HandleKeepsUnit(g: Range, m: Mpu, ports: set<nat>, opens: bool)
    requires UnitInv(m)
    ensures UnitInv(HandleNext(g, m, ports, opens).0)
  {
    if m.status == Run && m.batch != [] {
      var e := m.batch[0];
      var m1 := m.(batch := m.batch[1..], handled := m.handled + [e]);
      PopKeepsCount(m);
      EffectFrame(g, m1, ports, e, opens);
      EffectKeepsAgreement(g, m1, ports, e, opens);
      AgreementIsUpToOne(Effect(g, m1, ports, e, opens).0);
    }
  }

  lemma AgreementIsUpToOne(m: Mpu)
    requires Agreement(m)
    ensures AgreementUpToOne(m)
  {
    assert m.apcs.Keys - {""} <= m.mixer;
  }

  lemma PartlyAddedAgreement(m: Mpu, e: Event, reached: nat)
    requires Agreement(m) && e.Add? && e.codec != -1
    ensures AgreementUpToOne(PartlyAdded(m, e, reached))
  {
    if e.id in m.apcs || reached == 0 {
      AgreementIsUpToOne(m);
    } else {
      OneChannelMore(m, PartlyAdded(m, e, reached), e.id, e.port);
    }
  }

  /** An add goes through its records in a fixed order: channel map with codec and rate, user list, mixer,
      port list.  An exception leaves those behind it as they were, and only the last is missing at the end. */
  lemma StagesOfAdd(g: Range, m: Mpu, ports: set<nat>, e: Event, reached: nat)
    requires e.Add?
    ensures var part := PartlyAdded(m, e, reached);
            if e.id in m.apcs || reached == 0 then part == m else
              var whole := AddChannel(g, m, ports, e, true).0;
              && part.apcs == whole.apcs && part.codec == whole.codec && part.outRate == whole.outRate
              && part.users == (if reached >= 2 then whole.users else m.users)
              && part.userNum == (if reached >= 2 then whole.userNum else m.userNum)
              && part.mixer == (if reached >= 3 then whole.mixer else m.mixer)
              && part.portList == m.portList && whole.portList == m.portList + [e.port]
              && (reached >= 3 ==> part.(portList := m.portList + [e.port]) == whole)
  {
  }

  lemma OneChannelMore(m: Mpu, m': Mpu, id: string, port: nat)
    requires Agreement(m) && id !in m.apcs && m'.codec != -1
    requires m'.apcs == m.apcs[id := Channel(port, m'.codec)] && (m.codec == m'.codec || m.codec == -1)
    requires || (m'.users == m.users && m'.userNum == m.userNum)
             || (m'.users == m.users + [id] && m'.userNum == m.userNum + 1)
    requires m'.mixer == m.mixer || (m'.mixer == m.mixer + {id} && m'.users != m.users)
    ensures AgreementUpToOne(m')
  {
    assert id !in Elements(m.users);
    NoDupAppend(m.users, id);
    assert m'.apcs.Keys == m.apcs.Keys + {id};
    assert m'.apcs.Keys - {id} <= m'.mixer;
  }

  lemma PartlyAddedFrame(m: Mpu, e: Event, reached: nat)
    requires e.Add?
    ensures var m' := PartlyAdded(m, e, reached);
            && m'.status == m.status && m'.stopBegun == m.stopBegun && m'.stopStarts == m.stopStarts
            && m'.queue == m.queue && m'.batch == m.batch && m'.accepted == m.accepted && m'.handled == m.handled
  {
  }

  /** An exception in the middle of an event leaves at most one channel without its records. */
  lemma FaultKeepsUnit(m: Mpu, reached: nat)
    requires UnitInv(m)
    ensures UnitInv(FailNext(m, reached))
    ensures var f := FailNext(m, reached);
            if m.status != Run || m.batch == [] then f == m else
              && f.status == Exce && f.handled == m.handled + [m.batch[0]]
              && f.batch == m.batch[1..] && f.queue == m.queue
              && f.jobId == m.jobId && f.stopStarts == m.stopStarts && f.stopBegun == m.stopBegun
              && f.portList == m.portList
              && (!m.batch[0].Add? || m.batch[0].id in m.apcs || reached == 0 ==>
                    f.apcs == m.apcs && f.users == m.users && f.userNum == m.userNum && f.mixer == m.mixer
                    && f.codec == m.codec && f.outRate == m.outRate)
  {
    if m.status == Run && m.batch != [] {
      var e := m.batch[0];
      var m1 := m.(batch := m.batch[1..], handled := m.handled + [e], status := Exce);
      PopKeepsCount(m);
      AgreementIsUpToOne(m1);
      if e.Add? {
        PartlyAddedAgreement(m1, e, reached);
        PartlyAddedFrame(m1, e, reached);
      }
    }
  }

  lemma StatusKeepsUnit(g: Range, m: Mpu, ports: set<nat>)
    requires UnitInv(m)
    ensures UnitInv(FailWorker(m)) && UnitInv(BeginStop(m)) && UnitInv(FinishStop(g, m, ports).0)
    ensures FailWorker(m).status == (if m.status == End then End else Exce)
    ensures FailWorker(m).(status := m.status) == m
  {
  }

  /* ---- ownership of ports ---- */

  /** Taking the next event out of the queues leaves the rest, minus its port. */
  lemma PopQueued(m: Mpu)
    requires m.status == Run && m.batch != [] && DistinctAdds(Pending(m))
    ensures var m1 := m.(batch := m.batch[1..], handled := m.handled + [m.batch[0]]);
            && DistinctAdds(Pending(m1))
            && QueuedPorts(m1) == QueuedPorts(m) - (if m.batch[0].Add? then {m.batch[0].port} else {})
            && (m.batch[0].Add? ==> m.batch[0].port in QueuedPorts(m))
  {
    var m1 := m.(batch := m.batch[1..], handled := m.handled + [m.batch[0]]);
    var p, q := Pending(m), Pending(m1);
    assert p == [m.batch[0]] + q;
    assert p[1..] == q;
    forall i, j | 0 <= i < j < |q| && q[i].Add? && q[j].Add? ensures q[i].port != q[j].port {
      assert p[i + 1] == q[i] && p[j + 1] == q[j];
    }
    forall j | 0 <= j < |q| && q[j].Add? && m.batch[0].Add? ensures q[j].port != m.batch[0].port {
      assert p[0] == m.batch[0] && p[j + 1] == q[j];
    }
    assert forall e :: e in p <==> e == m.batch[0] || e in q;
  }

  /** Handling an event releases exactly the ports the unit stops owning: none leaks, none is kept. */
  lemma HandleReleasesWhatItDrops(g: Range, m: Mpu, ports: set<nat>, opens: bool)
    requires m.status == Run && m.batch != []
    requires OwnsOnce(m) && Owned(m) <= ports && forall p :: p in Owned(m) ==> g.point <= p
    ensures var r := HandleNext(g, m, ports, opens);
            OwnsOnce(r.0) && Owned(r.0) <= Owned(m) && r.1 == ports - (Owned(m) - Owned(r.0))
  {
    var e := m.batch[0];
    var m1 := m.(batch := m.batch[1..], handled := m.handled + [e]);
    PopQueued(m);
    assert LivePorts(m1) == LivePorts(m);
    var r := HandleNext(g, m, ports, opens);
    match e
    case Add(id, port, _, _) =>
      assert port in Owned(m);
      if id !in m.apcs && opens {
        LiveAfterAdd(m, id, Channel(port, r.0.codec));
        assert LivePorts(r.0) == LivePorts(m) + {port};
        assert QueuedPorts(r.0) == QueuedPorts(m1);
      } else {
        assert LivePorts(r.0) == LivePorts(m) && QueuedPorts(r.0) == QueuedPorts(m1);
      }
    case Remove(id) =>
      if id in m.apcs {
        LiveAfterRemove(m, id);
        assert m.apcs[id].port in LivePorts(m);
        assert LivePorts(r.0) == LivePorts(m) - {m.apcs[id].port};
        assert QueuedPorts(r.0) == QueuedPorts(m1);
      }
    case _ =>
      assert LivePorts(r.0) == LivePorts(m) && QueuedPorts(r.0) == QueuedPorts(m1);
  }
}

/** The media processing unit as the program runs it (src/mpu.cpp, class MediaProcessUnit): its methods
    update the object in place, and each is tied to the transition of MpuState it performs. */
module ProcessUnit {
  import opened Lists
  import opened PortAllocator
  import opened MpuState

  /** The batch handled event by event; `opens[k]` is the outcome of opening the codecs of event k. */
  function HandleBatch(g: Range, m: Mpu, ports: set<nat>, opens: seq<bool>): (Mpu, set<nat>)
    decreases |opens|
  {
    if opens == [] then (m, ports) else
      var r := HandleBatch(g, m, ports, opens[..|opens| - 1]);
      HandleNext(g, r.0, r.1, opens[|opens| - 1])
  }

  lemma {:induction false} BatchFrame(g: Range, m: Mpu, ports: set<nat>, opens: seq<bool>)
    requires m.status == Run && |opens| <= |m.batch|
    ensures var r := HandleBatch(g, m, ports, opens).0;
            r.status == Run && r.batch == m.batch[|opens|..] && r.handled == m.handled + m.batch[..|opens|]
    decreases |opens|
  {
    if opens == [] {
    } else {
      var n := |opens| - 1;
      BatchFrame(g, m, ports, opens[..n]);
      var r := HandleBatch(g, m, ports, opens[..n]);
      var e := r.0.batch[0];
      EffectFrame(g, r.0.(batch := r.0.batch[1..], handled := r.0.handled + [e]), r.1, e, opens[n]);
      assert m.batch[..n] + [m.batch[n]] == m.batch[..n + 1];
    }
  }

  /** The search for an id in the user list, and its erasure. */
  method EraseFirst(list: seq<string>, id: string) returns (rest: seq<string>)
    ensures rest == RemoveFirst(list, id)
    ensures id !in list ==> rest == list
    ensures id in list ==>
              exists i :: 0 <= i < |list| && list[i] == id && id !in list[..i] && rest == list[..i] + list[i + 1..]
  {
    var i := 0;
    while i < |list| && list[i] != id
      invariant i <= |list| && id !in list[..i]
    {
      i := i + 1;
    }
    RemoveFirstAt(list, i, id);
    rest := if i < |list| then list[..i] + list[i + 1..] else list;
  }

  /** std::remove over the port list, and the erasure of its tail. */
  method EraseAll(list: seq<nat>, port: nat) returns (kept: seq<nat>)
    ensures kept == RemoveAll(list, port)
  {
    kept := [];
    for j := 0 to |list|
      invariant kept == RemoveAll(list[..j], port)
    {
      assert list[..j + 1] == list[..j] + [list[j]];
      RemoveAllSnoc(list[..j], list[j], port);
      if list[j] != port {
        kept := kept + [list[j]];
      }
    }
    assert list[..|list|] == list;
  }

  /** Exactly the ports of the channels are freed, as far as they are not below the range. */
  ghost predicate FreesAll(g: Range, before: set<nat>, after: set<nat>, apcs: map<string, Channel>) {
    forall p :: p in after <==> p in before && (p < g.point || forall id :: id in apcs ==> apcs[id].port != p)
  }

  lemma FreesLive(g: Range, ports: set<nat>, m: Mpu)
    ensures FreesAll(g, ports, ReleasedAll(g, ports, LivePorts(m)), m.apcs)
  {
  }

  class MediaProcessUnit {
    const jobId: string
    const portTool: PortTool
    var status: Status
    var codecType: int
    var outSampleRate: int
    var APCs: map<string, Channel>
    var userIdList: seq<string>
    var userNum: int
    var mixerIds: set<string>
    var portList: seq<nat>
    var eventQue: seq<Event>
    var eventHandleQue: seq<Event>
    var stopTh: nat
    var stopBegun: bool
    ghost var accepted: seq<Event>
    ghost var handled: seq<Event>

    ghost function State(): Mpu
      reads this
    {
      Mpu(jobId, status, codecType, outSampleRate, APCs, userIdList, userNum, mixerIds, portList,
          eventQue, eventHandleQue, accepted, handled, stopTh, stopBegun)
    }

    constructor (jobId: string, portTool: PortTool)
      ensures State() == NewMpu(jobId) && this.portTool == portTool
    {
      this.jobId := jobId;
      this.portTool := portTool;
      status, codecType, outSampleRate := Run, -1, -1;
      APCs, userIdList, userNum, mixerIds, portList := map[], [], 0, {}, [];
      eventQue, eventHandleQue, accepted, handled := [], [], [], [];
      stopTh, stopBegun := 0, false;
    }

    method ReportMediaInfo(e: Event)
      modifies this`eventQue, this`accepted
      ensures State() == Report(old(State()), e)
      ensures eventQue == if status == Run then old(eventQue) + [e] else old(eventQue)
    {
      if status != Run {
        return;
      }
      eventQue := eventQue + [e];
      accepted := accepted + [e];
    }

    method SwapQueue()
      modifies this`eventQue, this`eventHandleQue
      ensures State() == Swap(old(State()))
      ensures if status == Run && old(eventHandleQue) == [] then eventHandleQue == old(eventQue) && eventQue == []
              else eventHandleQue == old(eventHandleQue) && eventQue == old(eventQue)
    {
      if status == Run && eventHandleQue == [] {
        eventHandleQue, eventQue := eventQue, [];
      }
    }

    method AddChannel(e: Event, opens: bool)
      requires e.Add? && portTool.Valid()
      modifies this, portTool`ports
      ensures portTool.Valid()
      ensures (State(), portTool.ports) == MpuState.AddChannel(portTool.g, old(State()), old(portTool.ports), e, opens)
      ensures old(e.id in APCs) ==> codecType == old(codecType) && outSampleRate == old(outSampleRate)
      ensures old(e.id !in APCs) ==>
                && codecType == (if old(codecType) == -1 then e.codec else old(codecType))
                && outSampleRate == (if old(outSampleRate) == -1 then e.outRate else old(outSampleRate))
      ensures if old(e.id !in APCs) && opens
              then && APCs == old(APCs)[e.id := Channel(e.port, codecType)] && userIdList == old(userIdList) + [e.id]
                   && userNum == old(userNum) + 1 && mixerIds == old(mixerIds) + {e.id}
                   && portList == old(portList) + [e.port] && portTool.ports == old(portTool.ports)
              else && APCs == old(APCs) && userIdList == old(userIdList) && userNum == old(userNum)
                   && mixerIds == old(mixerIds) && portList == old(portList)
                   && portTool.ports == old(portTool.ports) - (if e.port < portTool.g.point then {} else {e.port})
    {
      if e.id in APCs {
        portTool.FreePort(e.port);
        return;
      }
      if outSampleRate == -1 {
        outSampleRate := e.outRate;
      }
      if codecType == -1 {
        codecType := e.codec;
      }
      if !opens {
        portTool.FreePort(e.port);
        return;
      }
      KeepChannel(e);
    }

    /** The records of a channel that opened. */
    method KeepChannel(e: Event)
      requires e.Add?
      modifies this
      ensures var m := old(State());
              State() == m.(apcs := m.apcs[e.id := Channel(e.port, m.codec)], users := m.users + [e.id],
                            userNum := m.userNum + 1, mixer := m.mixer + {e.id}, portList := m.portList + [e.port])
    {
      APCs := APCs[e.id := Channel(e.port, codecType)];
      userIdList := userIdList + [e.id];
      userNum := userNum + 1;
      mixerIds := mixerIds + {e.id};
      portList := portList + [e.port];
    }

    method RemoveChannel(id: string)
      requires portTool.Valid()
      modifies this, portTool`ports
      ensures portTool.Valid()
      ensures (State(), portTool.ports) == MpuState.RemoveChannel(portTool.g, old(State()), old(portTool.ports), id)
      ensures APCs == old(APCs) - {id} && codecType == old(codecType) && outSampleRate == old(outSampleRate)
      ensures old(id !in APCs) ==> State() == old(State()) && portTool.ports == old(portTool.ports)
      ensures old(id in APCs) ==>
                var port := old(APCs[id].port);
                && userIdList == RemoveFirst(old(userIdList), id) && userNum == old(userNum) - 1
                && mixerIds == old(mixerIds) - {id} && portList == RemoveAll(old(portList), NarrowedPort(port))
                && portTool.ports == old(portTool.ports) - (if port < portTool.g.point then {} else {port})
    {
      if id !in APCs {
        return;
      }
      var port := NarrowedPort(APCs[id].port);
      portTool.FreePort(APCs[id].port);
      ForgetChannel(id, port);
    }

    /** The records of a channel that is destroyed. */
    method ForgetChannel(id: string, port: nat)
      modifies this
      ensures var m := old(State());
              State() == m.(apcs := m.apcs - {id}, users := RemoveFirst(m.users, id), userNum := m.userNum - 1,
                            mixer := m.mixer - {id}, portList := RemoveAll(m.portList, port))
    {
      var users := EraseFirst(userIdList, id);
      var ports := EraseAll(portList, port);
      APCs := APCs - {id};
      userIdList, userNum := users, userNum - 1;
      mixerIds, portList := mixerIds - {id}, ports;
    }

    /** One turn of the loop over eventHandleQue. */
    method HandleEvent(opens: bool)
      requires portTool.Valid()
      modifies this, portTool`ports
      ensures portTool.Valid()
      ensures (State(), portTool.ports) == HandleNext(portTool.g, old(State()), old(portTool.ports), opens)
      ensures status != Run || old(eventHandleQue) == [] ==>
                State() == old(State()) && portTool.ports == old(portTool.ports)
      ensures status == Run && old(eventHandleQue) != [] ==>
                && eventHandleQue == old(eventHandleQue)[1..] && handled == old(handled) + [old(eventHandleQue)[0]]
                && stopTh == old(stopTh) + (if old(eventHandleQue)[0].Stop? then 1 else 0)
                && (!old(eventHandleQue)[0].Add? && !old(eventHandleQue)[0].Remove? ==>
                      APCs == old(APCs) && portList == old(portList) && portTool.ports == old(portTool.ports))
    {
      if status != Run || eventHandleQue == [] {
        return;
      }
      var each := eventHandleQue[0];
      eventHandleQue := eventHandleQue[1..];
      handled := handled + [each];
      match each {
        case Stop => stopTh := stopTh + 1;
        case Add(_, _, _, _) => AddChannel(each, opens);
        case Remove(id) => RemoveChannel(id);
        case _ =>
      }
    }

    /** The loop over eventHandleQue, undisturbed by a change of status. */
    method HandleEvents(opens: seq<bool>)
      requires portTool.Valid() && status == Run && |opens| == |eventHandleQue|
      modifies this, portTool`ports
      ensures portTool.Valid() && eventHandleQue == [] && handled == old(handled + eventHandleQue)
      ensures (State(), portTool.ports) == HandleBatch(portTool.g, old(State()), old(portTool.ports), opens)
    {
      var k := 0;
      while k < |opens|
        invariant k <= |opens| && portTool.Valid()
        invariant (State(), portTool.ports) == HandleBatch(portTool.g, old(State()), old(portTool.ports), opens[..k])
      {
        HandleEvent(opens[k]);
        assert opens[..k + 1][..k] == opens[..k];
        k := k + 1;
      }
      assert opens[..k] == opens;
      BatchFrame(portTool.g, old(State()), old(portTool.ports), opens);
    }

    /** stop() up to the joins, as the stop thread runs it. */
    method BeginStop()
      modifies this`status, this`stopBegun
      ensures State() == MpuState.BeginStop(old(State()))
      ensures if stopTh > 0 && !old(stopBegun) && old(status) != End then status == Down && stopBegun
              else status == old(status) && stopBegun == old(stopBegun)
    {
      if stopTh == 0 || stopBegun || status == End {
        return;
      }
      status := Down;
      stopBegun := true;
    }

    /** APCs.clear(): every channel is destroyed, which releases its port. */
    method ClearChannels()
      requires portTool.Valid()
      modifies this`APCs, portTool`ports
      ensures portTool.Valid() && APCs == map[]
      ensures portTool.ports == ReleasedAll(portTool.g, old(portTool.ports), LivePorts(old(State())))
      ensures FreesAll(portTool.g, old(portTool.ports), portTool.ports, old(APCs))
    {
      ghost var live, freed := LivePorts(State()), {};
      while APCs != map[]
        invariant portTool.Valid()
        invariant LivePorts(State()) + freed == live
        invariant portTool.ports == ReleasedAll(portTool.g, old(portTool.ports), freed)
        decreases APCs.Keys
      {
        var id :| id in APCs;
        LiveSplit(State(), id);
        freed := freed + {APCs[id].port};
        portTool.FreePort(APCs[id].port);
        APCs := APCs - {id};
      }
      assert LivePorts(State()) == {};
      FreesLive(portTool.g, old(portTool.ports), old(State()));
    }

    /** stop() from the joins on. */
    method FinishStop()
      requires portTool.Valid()
      modifies this, portTool`ports
      ensures portTool.Valid()
      ensures (State(), portTool.ports) == MpuState.FinishStop(portTool.g, old(State()), old(portTool.ports))
      ensures if stopBegun && old(status) != End
              then status == End && APCs == map[]
                   && FreesAll(portTool.g, old(portTool.ports), portTool.ports, old(APCs))
              else State() == old(State()) && portTool.ports == old(portTool.ports)
    {
      if !stopBegun || status == End {
        return;
      }
      ClearChannels();
      status := End;
    }

    /** The destructor: stop() unless the unit has ended, then the channel map itself is destroyed. */
    method Destroy()
      requires portTool.Valid()
      modifies this, portTool`ports
      ensures portTool.Valid()
      ensures portTool.ports == ReleasedAll(portTool.g, old(portTool.ports), LivePorts(old(State())))
      ensures FreesAll(portTool.g, old(portTool.ports), portTool.ports, old(APCs))
    {
      FreesLive(portTool.g, portTool.ports, State());
      if status != End {
        status := Down;
        ClearChannels();
        status := End;
      }
      ClearChannels();
    }
  }

  lemma LiveSplit(m: Mpu, id: string)
    requires id in m.apcs
    ensures LivePorts(m) == LivePorts(m.(apcs := m.apcs - {id})) + {m.apcs[id].port}
  {
    var m' := m.(apcs := m.apcs - {id});
    forall p | p in LivePorts(m) ensures p in LivePorts(m') + {m.apcs[id].port} {
      var a :| a in m.apcs && m.apcs[a].port == p;
      assert a != id ==> a in m'.apcs && m'.apcs[a].port == p;
    }
  }
}

/** The rotating-cursor port allocator (core/MediaControlUnit.h, class PortTool).

  The allocator hands out point, point+2, point+4, ... cyclically.  `Applied` records, next to the
  result of one application, the ports it probed, so that whole runs of the allocator can be compared
  with the cyclic order of the ports.
 */
module PortAllocator {
  import opened ModArithmetic

  /** The value -1 converted to port_t (uint32_t). */
  const NO_PORT: nat := 0xFFFF_FFFF

  datatype Range = Range(point: nat, size: nat) {
    /** No port computed from this range wraps around 32 bits or collides with NO_PORT. */
    ghost predicate Valid() {
      point + size + 1 < NO_PORT
    }

    /** The ports an application by a single thread can return. */
    predicate Holds(port: nat) {
      point <= port && (port < point + size || port == point)
    }

    /** The number of ports the allocator cycles through; offset 0 is used even by an empty range. */
    function Slots(): (n: nat)
      ensures n >= 1
    {
      if size == 0 then 1 else (size + 1) / 2
    }

    /** The cursor after the wrap-around test. */
    function Wrap(cursor: nat): nat {
      if cursor >= size then 0 else cursor
    }

    /** The j-th offset probed from a cursor, by stepping the cursor as the source does. */
    function OffsetAt(cursor: nat, j: nat): nat
      decreases j
    {
      if j == 0 then Wrap(cursor) else OffsetAt(Wrap(cursor) + 2, j - 1)
    }

    function PortAt(cursor: nat, j: nat): nat {
      point + OffsetAt(cursor, j)
    }
  }

  datatype Pool = Pool(cursor: nat, ports: set<nat>)

  datatype Applied = Applied(pool: Pool, port: nat, probed: seq<nat>)

  /** Closed form of the stepping: the even offsets in cyclic order. */
  lemma {:induction false} OffsetIsCyclic(g: Range, cursor: nat, j: nat)
    requires cursor % 2 == 0
    ensures var first, turn := if cursor >= g.size then 0 else cursor, if g.size == 0 then 1 else (g.size + 1) / 2;
            g.OffsetAt(cursor, j) == 2 * ((first / 2 + j) % turn)
    decreases j
  {
    var n := g.Slots();
    var k := g.Wrap(cursor) / 2;
    if j == 0 {
      SmallMod(k, n);
    } else {
      OffsetIsCyclic(g, g.Wrap(cursor) + 2, j - 1);
      if k + 1 >= n {
        AddMod(j - 1, n);
        assert k + j == j - 1 + n;
      }
    }
  }

  /** Stepping from the cursor reached after i probes continues the same cyclic order. */
  lemma {:induction false} OffsetContinues(g: Range, cursor: nat, i: nat, j: nat)
    ensures g.OffsetAt(cursor, i + 1 + j) == g.OffsetAt(g.OffsetAt(cursor, i) + 2, j)
    decreases i
  {
    if i == 0 {
      assert g.OffsetAt(cursor, 1 + j) == g.OffsetAt(g.Wrap(cursor) + 2, j);
    } else {
      OffsetContinues(g, g.Wrap(cursor) + 2, i - 1, j);
      assert g.OffsetAt(cursor, i + 1 + j) == g.OffsetAt(g.Wrap(cursor) + 2, i + j);
    }
  }

  /** One application; `failNum` counts as in the source, by two per occupied port. */
  function ApplyFrom(g: Range, p: Pool, failNum: nat): (r: Applied)
    requires g.Valid() && p.cursor % 2 == 0 && failNum % 2 == 0 && failNum <= g.size
    ensures r.pool.cursor % 2 == 0 && |r.probed| >= 1
    decreases g.size - failNum
  {
    var port := g.point + g.Wrap(p.cursor);
    var moved := p.(cursor := g.Wrap(p.cursor) + 2);
    if port !in p.ports then
      Applied(moved.(ports := p.ports + {port}), port, [port])
    else if failNum + 2 > g.size then
      Applied(moved, NO_PORT, [port])
    else
      var r := ApplyFrom(g, moved, failNum + 2);
      r.(probed := [port] + r.probed)
  }

  lemma {:induction false} ApplyFacts(g: Range, p: Pool, failNum: nat)
    requires g.Valid() && p.cursor % 2 == 0 && failNum % 2 == 0 && failNum <= g.size
    ensures var r := ApplyFrom(g, p, failNum);
            var last := r.probed[|r.probed| - 1];
            && |r.probed| <= (g.size - failNum) / 2 + 1
            && (forall i :: 0 <= i < |r.probed| - 1 ==> r.probed[i] in p.ports)
            && (r.port == NO_PORT ==>
              r.pool.ports == p.ports && last in p.ports && |r.probed| == (g.size - failNum) / 2 + 1)
            && (r.port != NO_PORT ==>
              r.port == last && r.port !in p.ports && r.pool.ports == p.ports + {r.port} && g.Holds(r.port))
            && last + 2 == g.point + r.pool.cursor
    decreases g.size - failNum
  {
    var moved := p.(cursor := g.Wrap(p.cursor) + 2);
    if g.point + g.Wrap(p.cursor) in p.ports && failNum + 2 <= g.size {
      ApplyFacts(g, moved, failNum + 2);
    }
  }

  /** The probes of one application follow the cyclic order. */
  lemma {:induction false} ProbesFollowOrder(g: Range, p: Pool, failNum: nat, i: nat)
    requires g.Valid() && p.cursor % 2 == 0 && failNum % 2 == 0 && failNum <= g.size
    requires i < |ApplyFrom(g, p, failNum).probed|
    ensures ApplyFrom(g, p, failNum).probed[i] == g.PortAt(p.cursor, i)
    decreases i
  {
    if i == 0 {
    } else {
      ProbesFollowOrder(g, p.(cursor := g.Wrap(p.cursor) + 2), failNum + 2, i - 1);
    }
  }

  /** A whole application, from a failure count of zero. */
  function ApplyOnce(g: Range, p: Pool): (r: Applied)
    requires g.Valid() && p.cursor % 2 == 0
    ensures r.pool.cursor % 2 == 0
    ensures 1 <= |r.probed| <= g.size / 2 + 1
    ensures forall i :: 0 <= i < |r.probed| - 1 ==> r.probed[i] in p.ports
    ensures r.port == NO_PORT ==>
              r.pool.ports == p.ports && r.probed[|r.probed| - 1] in p.ports && |r.probed| == g.size / 2 + 1
    ensures r.port != NO_PORT ==>
              && r.port == r.probed[|r.probed| - 1] && r.port !in p.ports
              && r.pool.ports == p.ports + {r.port} && g.Holds(r.port)
    ensures r.probed[|r.probed| - 1] + 2 == g.point + r.pool.cursor
  {
    ApplyFacts(g, p, 0);
    ApplyFrom(g, p, 0)
  }

  /** Completeness: an application returns the first free port in cyclic order within one full turn,
      and fails exactly when every port of the cycle is taken. */
  lemma ApplyIsFirstFree(g: Range, p: Pool)
    requires g.Valid() && p.cursor % 2 == 0
    ensures var r := ApplyOnce(g, p);
            && |r.probed| <= g.size / 2 + 1
            && (r.port == NO_PORT <==> forall j: nat :: j < g.Slots() ==> g.PortAt(p.cursor, j) in p.ports)
            && (r.port != NO_PORT ==>
                  && |r.probed| <= g.Slots()
                  && r.port == g.PortAt(p.cursor, |r.probed| - 1) && r.port !in p.ports
                  && forall i: nat :: i < |r.probed| - 1 ==> g.PortAt(p.cursor, i) in p.ports)
  {
    var r := ApplyOnce(g, p);
    var n := g.Slots();
    var last := |r.probed| - 1;
    forall i: nat | i <= last ensures r.probed[i] == g.PortAt(p.cursor, i) {
      ProbesFollowOrder(g, p, 0, i);
    }
    if r.port != NO_PORT && last >= n {
      // A full turn later the same port comes up again, and it was seen to be taken.
      FullTurn(g, p.cursor, last - n);
      assert false;
    }
  }

  /** The same in numbers, port by port: an application fails exactly if all ports at even distances from
      the start of the range are taken, and else takes the first free one from the cursor on, beginning
      again at the start of the range when it gets to the end. */
  lemma FirstFreeInTurn(g: Range, p: Pool, q: nat)
    requires g.Valid() && p.cursor % 2 == 0
    requires g.point <= q < g.point + (if g.size == 0 then 2 else g.size + g.size % 2) && (q - g.point) % 2 == 0
    ensures var r, from := ApplyOnce(g, p), g.point + (if p.cursor >= g.size then 0 else p.cursor);
            && (r.port == 0xFFFF_FFFF ==> q in p.ports)
            && (r.port != 0xFFFF_FFFF && (from <= q < r.port || r.port < from <= q || q < r.port < from) ==>
                  q in p.ports)
    ensures var r := ApplyOnce(g, p);
            r.port != 0xFFFF_FFFF ==>
              && g.point <= r.port < g.point + (if g.size == 0 then 2 else g.size + g.size % 2)
              && (r.port - g.point) % 2 == 0 && r.port !in p.ports
              && r.pool == Pool(r.port - g.point + 2, p.ports + {r.port})
  {
    var r := ApplyOnce(g, p);
    ApplyIsFirstFree(g, p);
    var i := PlaceInTurn(g, p.cursor, q);
    if r.port != NO_PORT {
      PortAtPlace(g, p.cursor, |r.probed| - 1);
    }
  }

  /** The ports of a turn: those at even distances from the start of the range. */
  ghost predicate InTurn(g: Range, port: nat) {
    g.point <= port < g.point + (if g.size == 0 then 2 else g.size + g.size % 2) && (port - g.point) % 2 == 0
  }

  /** All ports are taken that come before `port` in the turn that begins at the cursor; all of the turn if
      there is no port. */
  ghost predicate TakenBefore(g: Range, cursor: nat, ports: set<nat>, port: nat) {
    var from := g.point + (if cursor >= g.size then 0 else cursor);
    forall q: nat :: InTurn(g, q) ==>
      (port == 0xFFFF_FFFF || from <= q < port || port < from <= q || q < port < from) ==> q in ports
  }

  lemma AllBeforeTaken(g: Range, p: Pool)
    requires g.Valid() && p.cursor % 2 == 0
    ensures TakenBefore(g, p.cursor, p.ports, ApplyOnce(g, p).port)
    ensures var r := ApplyOnce(g, p);
            r.port != 0xFFFF_FFFF ==>
              InTurn(g, r.port) && r.port !in p.ports && r.pool == Pool(r.port - g.point + 2, p.ports + {r.port})
  {
    FirstFreeInTurn(g, p, g.point);
    var port, from := ApplyOnce(g, p).port, g.point + (if p.cursor >= g.size then 0 else p.cursor);
    forall q: nat | InTurn(g, q)
      ensures port == 0xFFFF_FFFF || from <= q < port || port < from <= q || q < port < from ==> q in p.ports
    {
      FirstFreeInTurn(g, p, q);
    }
  }

  /** Where in the order from the cursor a port comes. */
  lemma PlaceInTurn(g: Range, cursor: nat, q: nat) returns (i: nat)
    requires cursor % 2 == 0
    requires g.point <= q < g.point + (if g.size == 0 then 2 else g.size + g.size % 2) && (q - g.point) % 2 == 0
    ensures var from := g.point + (if cursor >= g.size then 0 else cursor);
            && i < g.Slots() && g.PortAt(cursor, i) == q
            && 2 * i == if q >= from then q - from else q + 2 * g.Slots() - from
  {
    var turn, k, j := g.Slots(), g.Wrap(cursor) / 2, (q - g.point) / 2;
    i := (j + turn - k) % turn;
    PlaceOf(k, j, turn);
    OffsetIsCyclic(g, cursor, i);
  }

  lemma PortAtPlace(g: Range, cursor: nat, i: nat)
    requires cursor % 2 == 0 && i < g.Slots()
    ensures var from := g.point + (if cursor >= g.size then 0 else cursor);
            var port := g.PortAt(cursor, i);
            && g.point <= port < g.point + (if g.size == 0 then 2 else g.size + g.size % 2) && (port - g.point) % 2 == 0
            && 2 * i == if port >= from then port - from else port + 2 * g.Slots() - from
  {
    OffsetIsCyclic(g, cursor, i);
    PlaceFrom(g.Wrap(cursor) / 2, i, g.Slots());
  }

  /** Every place of a turn is reached from every other. */
  lemma PlaceOf(k: nat, j: nat, turn: nat)
    requires turn > 0 && k < turn && j < turn
    ensures 0 <= (j + turn - k) % turn < turn && (k + (j + turn - k) % turn) % turn == j
    ensures (j + turn - k) % turn == if j >= k then j - k else j + turn - k
  {
    if j >= k {
      UniqueMod(j + turn - k, turn, 1, j - k);
      SmallMod(j, turn);
    } else {
      SmallMod(j + turn - k, turn);
      UniqueMod(j + turn, turn, 1, j);
    }
  }

  lemma PlaceFrom(k: nat, last: nat, turn: nat)
    requires turn > 0 && k < turn && last < turn
    ensures (k + last) % turn == if k + last < turn then k + last else k + last - turn
  {
    if k + last < turn {
      SmallMod(k + last, turn);
    } else {
      UniqueMod(k + last, turn, 1, k + last - turn);
    }
  }

  lemma FullTurn(g: Range, cursor: nat, j: nat)
    requires cursor % 2 == 0
    ensures g.PortAt(cursor, j) == g.PortAt(cursor, j + g.Slots())
  {
    OffsetIsCyclic(g, cursor, j);
    OffsetIsCyclic(g, cursor, j + g.Slots());
    AddMod(g.Wrap(cursor) / 2 + j, g.Slots());
  }

  /** Two places of the cyclic order hold the same port exactly when whole turns lie between them. */
  lemma SamePort(g: Range, cursor: nat, i: nat, j: nat)
    requires cursor % 2 == 0
    ensures g.PortAt(cursor, i) == g.PortAt(cursor, j) <==> (j - i) % g.Slots() == 0
  {
    OffsetIsCyclic(g, cursor, i);
    OffsetIsCyclic(g, cursor, j);
    EqualMod(g.Wrap(cursor) / 2 + i, g.Wrap(cursor) / 2 + j, g.Slots());
  }

  function Released(g: Range, ports: set<nat>, port: nat): set<nat> {
    if port < g.point then ports else ports - {port}
  }

  /* ---- runs of the allocator ---- */

  datatype PortOp = Take | Free(port: nat)

  /** The pool after a run, every port probed, and for each successful application the position of its
      last probe in that log. */
  datatype Trace = Trace(pool: Pool, probed: seq<nat>, issuedAt: seq<nat>)

  function RunOps(g: Range, p: Pool, ops: seq<PortOp>): (t: Trace)
    requires g.Valid() && p.cursor % 2 == 0
    ensures t.pool.cursor % 2 == 0
    decreases |ops|
  {
    if ops == [] then Trace(p, [], []) else
      var t := RunOps(g, p, ops[..|ops| - 1]);
      match ops[|ops| - 1]
      case Take =>
        var r := ApplyOnce(g, t.pool);
        var log := t.probed + r.probed;
        Trace(r.pool, log, if r.port == NO_PORT then t.issuedAt else t.issuedAt + [|log| - 1])
      case Free(port) =>
        t.(pool := t.pool.(ports := Released(g, t.pool.ports, port)))
  }

  /** Whatever is released in between, a run probes the ports in strict cyclic order. */
  lemma {:induction false} ProbesAreCyclic(g: Range, p: Pool, ops: seq<PortOp>)
    requires g.Valid() && p.cursor % 2 == 0
    ensures var t := RunOps(g, p, ops);
            && Cyclic(g, p.cursor, t.probed, t.pool.cursor)
            && (forall k: nat :: k < |t.issuedAt| ==> t.issuedAt[k] < |t.probed|)
            && (forall k: nat, l: nat :: k < l < |t.issuedAt| ==> t.issuedAt[k] < t.issuedAt[l])
    decreases |ops|
  {
    if ops == [] {
    } else {
      ProbesAreCyclic(g, p, ops[..|ops| - 1]);
      var t := RunOps(g, p, ops[..|ops| - 1]);
      if ops[|ops| - 1].Take? {
        ApplyExtendsLog(g, p, t.probed, t.pool);
      }
    }
  }

  ghost predicate Cyclic(g: Range, start: nat, probed: seq<nat>, cursor: nat) {
    && (forall i: nat :: i < |probed| ==> probed[i] == g.PortAt(start, i))
    && (forall j: nat :: g.OffsetAt(cursor, j) == g.OffsetAt(start, |probed| + j))
  }

  lemma ApplyExtendsLog(g: Range, p: Pool, probed: seq<nat>, q: Pool)
    requires g.Valid() && q.cursor % 2 == 0 && Cyclic(g, p.cursor, probed, q.cursor)
    ensures var r := ApplyOnce(g, q); Cyclic(g, p.cursor, probed + r.probed, r.pool.cursor)
  {
    var r := ApplyOnce(g, q);
    var last := |r.probed| - 1;
    forall i: nat | i <= last ensures r.probed[i] == g.PortAt(q.cursor, i) {
      ProbesFollowOrder(g, q, 0, i);
    }
    CyclicAppend(g, p.cursor, probed, q.cursor, r.probed, r.pool.cursor);
  }

  lemma CyclicAppend(g: Range, start: nat, probed: seq<nat>, cursor: nat, more: seq<nat>, cursor': nat)
    requires Cyclic(g, start, probed, cursor) && more != []
    requires forall i: nat :: i < |more| ==> more[i] == g.PortAt(cursor, i)
    requires more[|more| - 1] + 2 == g.point + cursor'
    ensures Cyclic(g, start, probed + more, cursor')
  {
    var all := probed + more;
    forall i: nat | i < |all| ensures all[i] == g.PortAt(start, i) {
      if i >= |probed| {
        assert g.OffsetAt(cursor, i - |probed|) == g.OffsetAt(start, i);
      }
    }
    forall j: nat ensures g.OffsetAt(cursor', j) == g.OffsetAt(start, |all| + j) {
      OffsetContinues(g, cursor, |more| - 1, j);
      assert g.OffsetAt(cursor, |more| + j) == g.OffsetAt(start, |probed| + (|more| + j));
    }
  }

  /** Two probes hit the same port exactly when a multiple of a full turn lies between them, so two
      issues of one port are at least a full turn apart. */
  lemma ReuseDistance(g: Range, p: Pool, ops: seq<PortOp>, i: nat, j: nat)
    requires g.Valid() && p.cursor % 2 == 0
    requires i <= j < |RunOps(g, p, ops).probed|
    ensures var probed := RunOps(g, p, ops).probed;
            && (probed[i] == probed[j] <==> (j - i) % g.Slots() == 0)
            && (i < j && probed[i] == probed[j] ==> j - i >= g.Slots())
  {
    ProbesAreCyclic(g, p, ops);
    SamePort(g, p.cursor, i, j);
    if i < j < i + g.Slots() { SmallMod(j - i, g.Slots()); }
  }

  /** A second release of a port is harmless while fewer than a full turn of probes has happened since
      the port was issued: the port is free, so releasing it again changes nothing. */
  lemma SecondReleaseHarmless(g: Range, p: Pool, before: seq<PortOp>, after: seq<PortOp>)
    requires g.Valid() && p.cursor % 2 == 0
    requires ApplyOnce(g, p).port != NO_PORT
    requires var r := ApplyOnce(g, p);
             |RunOps(g, r.pool, before + [Free(r.port)] + after).probed| < g.Slots()
    ensures var r := ApplyOnce(g, p);
            var pool := RunOps(g, r.pool, before + [Free(r.port)] + after).pool;
            r.port !in pool.ports && Released(g, pool.ports, r.port) == pool.ports
  {
    var r := ApplyOnce(g, p);
    NotProbedAgain(g, p, before + [Free(r.port)] + after);
    StaysFree(g, r.pool, before, r.port, after);
  }

  /** Less than a full turn after its issue, a port has not been probed again. */
  lemma NotProbedAgain(g: Range, p: Pool, ops: seq<PortOp>)
    requires g.Valid() && p.cursor % 2 == 0 && ApplyOnce(g, p).port != NO_PORT
    requires |RunOps(g, ApplyOnce(g, p).pool, ops).probed| < g.Slots()
    ensures ApplyOnce(g, p).port !in RunOps(g, ApplyOnce(g, p).pool, ops).probed
  {
    var r := ApplyOnce(g, p);
    var log := RunOps(g, r.pool, ops).probed;
    ProbesAreCyclic(g, r.pool, ops);
    forall d: nat | d < |log| ensures log[d] != r.port {
      NextTurn(g, p, d);
    }
  }

  lemma NextTurn(g: Range, p: Pool, d: nat)
    requires g.Valid() && p.cursor % 2 == 0 && ApplyOnce(g, p).port != NO_PORT
    requires d + 1 < g.Slots()
    ensures g.PortAt(ApplyOnce(g, p).pool.cursor, d) != ApplyOnce(g, p).port
  {
    var r := ApplyOnce(g, p);
    var last := |r.probed| - 1;
    ProbesFollowOrder(g, p, 0, last);
    OffsetContinues(g, p.cursor, last, d);
    SamePort(g, p.cursor, last, last + 1 + d);
    SmallMod(d + 1, g.Slots());
  }

  lemma {:induction false} StaysFree(g: Range, p: Pool, before: seq<PortOp>, port: nat, after: seq<PortOp>)
    requires g.Valid() && p.cursor % 2 == 0 && g.point <= port
    requires port !in RunOps(g, p, before + [Free(port)] + after).probed
    ensures port !in RunOps(g, p, before + [Free(port)] + after).pool.ports
    decreases |after|
  {
    var ops := before + [Free(port)] + after;
    var n := |ops|;
    if after == [] {
      assert ops[..n - 1] == before && ops[n - 1] == Free(port);
    } else {
      assert ops[..n - 1] == before + [Free(port)] + after[..|after| - 1];
      StaysFree(g, p, before, port, after[..|after| - 1]);
    }
  }

  ghost predicate SameResult(a: Applied, b: Applied) {
    a.pool == b.pool && a.port == b.port
  }

  /** What one turn of the loop contributes. */
  lemma NextProbe(g: Range, p: Pool, failNum: nat)
    requires g.Valid() && p.cursor % 2 == 0 && failNum % 2 == 0 && failNum <= g.size
    ensures var port, moved := g.point + g.Wrap(p.cursor), p.(cursor := g.Wrap(p.cursor) + 2);
            var r := ApplyFrom(g, p, failNum);
            if port !in p.ports then r.pool == moved.(ports := p.ports + {port}) && r.port == port
            else if failNum + 2 > g.size then r.pool == moved && r.port == NO_PORT
            else SameResult(ApplyFrom(g, moved, failNum + 2), r)
  {
  }

  /** The allocator as the program runs it. */
  class PortTool {
    const g: Range
    var portIndex: nat
    var ports: set<nat>

    ghost predicate Valid()
      reads this
    {
      g.Valid() && portIndex % 2 == 0
    }

    ghost function State(): Pool
      reads this
    {
      Pool(portIndex, ports)
    }

    constructor (point: nat, size: nat)
      requires Range(point, size).Valid()
      ensures Valid() && g == Range(point, size) && State() == Pool(0, {})
    {
      g := Range(point, size);
      portIndex := 0;
      ports := {};
    }

    /** One application: the port is the first free one of the turn that begins at the cursor. */
    method ApplyPort() returns (port: nat)
      requires Valid()
      modifies this
      ensures Valid()
      ensures var r := ApplyOnce(g, old(State())); State() == r.pool && port == r.port
      ensures port == 0xFFFF_FFFF ==> ports == old(ports)
      ensures port != 0xFFFF_FFFF ==>
                && InTurn(g, port) && port !in old(ports) && ports == old(ports) + {port}
                && portIndex == port - g.point + 2
      ensures TakenBefore(g, old(portIndex), old(ports), port)
    {
      AllBeforeTaken(g, State());
      port := Turns();
    }

    /** The loop, by its turns. */
    method Turns() returns (port: nat)
      requires Valid()
      modifies this
      ensures Valid()
      ensures var r := ApplyOnce(g, old(State())); State() == r.pool && port == r.port
    {
      ghost var all := ApplyOnce(g, State());
      var failNum := 0;
      while true
        invariant Valid() && failNum % 2 == 0 && failNum <= g.size
        invariant SameResult(ApplyFrom(g, State(), failNum), all)
        decreases g.size - failNum
      {
        NextProbe(g, State(), failNum);
        var free;
        port, free := Probe();
        if free {
          return;
        }
        failNum := failNum + 2;
        if failNum > g.size {
          return NO_PORT;
        }
      }
    }

    /** One turn: the wrap-around test, the next port, and the attempt to insert it. */
    method Probe() returns (port: nat, free: bool)
      requires Valid()
      modifies this
      ensures Valid()
      ensures var p := old(State());
              && port == g.point + g.Wrap(p.cursor) && free == (port !in p.ports)
              && State() == Pool(g.Wrap(p.cursor) + 2, if free then p.ports + {port} else p.ports)
    {
      if portIndex >= g.size {
        portIndex := 0;
      }
      port := portIndex + g.point;
      portIndex := portIndex + 2;
      free := port !in ports;
      if free {
        ports := ports + {port};
      }
    }

    method FreePort(port: nat)
      requires Valid()
      modifies this`ports
      ensures Valid() && ports == Released(g, old(ports), port)
      ensures ports == old(ports) - (if port < g.point then {} else {port})
    {
      if port < g.point {
        return;
      }
      ports := ports - {port};
    }

    method FreeAll()
      requires Valid()
      modifies this
      ensures Valid() && State() == Pool(0, {})
    {
      ports := {};
      portIndex := 0;
    }
  }
}

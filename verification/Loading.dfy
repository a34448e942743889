/**
 Loading of an OSPFv3 adjacency (src/instance_v3.rs; section 10.9 of RFC 2328): every state an
 instance can reach, with any number of interfaces and neighbors.
 */
module Loading {
  import opened Numbers
  import opened OspfV3Types
  import opened Adjacency
  import opened LsdbV3

  datatype LsaV3Raw = LsaV3Raw(header: LsaV3Header, raw: seq<u8>)

  /** The area of an interface, and whether it takes Type 5 LSAs. */
  datatype Iface = Iface(area: u32, normalArea: bool)

  /** A neighbor is known by its interface and router id. */
  datatype NeighborId = NeighborId(iface: u32, router: u32)

  /** `wanted` remembers what the end of the last exchange put on the request list, `described` what the peer
      had described, and `lost` which of that was neither there nor requested. */
  datatype Tracked = Tracked(n: Neighbor, wanted: Headers, described: Headers, lost: set<LsaV3Header>)

  datatype Instance = Instance(lsdb: Entries, ifaces: map<u32, Iface>, neighbors: map<NeighborId, Tracked>)

  // ---------------------------------------------------------------- process_lsu

  function Scope(area: u32, t: LsaV3Type): Option<u32> {
    if t.AsExternal? then None else Some(area)
  }

  function KeyUnder(area: u32, h: LsaV3Header): LsaKeyV3 {
    LsaKeyV3(Scope(area, h.lsType), h.lsType, h.linkStateId, h.advertisingRouter)
  }

  function EntryFor(area: u32, lsa: LsaV3Raw): LsaEntryV3 {
    LsaEntryV3(lsa.header, lsa.raw, Scope(area, lsa.header.lsType))
  }

  /** Stub and NSSA areas drop Type 5 LSAs; everything else is installed. */
  function Accepted(iface: Iface, lsas: seq<LsaV3Raw>): seq<LsaV3Raw> {
    if lsas == [] then []
    else
      var front := Accepted(iface, lsas[..|lsas| - 1]);
      var last := lsas[|lsas| - 1];
      if last.header.lsType.AsExternal? && !iface.normalArea then front else front + [last]
  }

  function InstallAccepted(lsdb: Entries, area: u32, lsas: seq<LsaV3Raw>): Entries {
    if lsas == [] then lsdb
    else Inserted(InstallAccepted(lsdb, area, lsas[..|lsas| - 1]), EntryFor(area, lsas[|lsas| - 1]))
  }

  /** The requests left once `h` has arrived. */
  function Without(requests: Headers, h: LsaV3Header): Headers {
    if requests == [] then []
    else
      var front := Without(requests[..|requests| - 1], h);
      var last := requests[|requests| - 1];
      if last.SameLsa(h) then front else front + [last]
  }

  function WithoutAll(requests: Headers, arrived: seq<LsaV3Raw>): Headers {
    if arrived == [] then requests
    else Without(WithoutAll(requests, arrived[..|arrived| - 1]), arrived[|arrived| - 1].header)
  }

  function LoadedNeighbor(n: Neighbor, arrived: seq<LsaV3Raw>): Neighbor {
    var left := WithoutAll(n.requestList, arrived);
    n.(requestList := left, state := if n.state == Loading && left == [] then Full else n.state)
  }

  /** What a router does with an LSU from `id`: install what the area takes, cross it off the request
      list, and go Full when the list has drained. */
  function AfterLsu(inst: Instance, id: NeighborId, lsas: seq<LsaV3Raw>): Instance {
    if id.iface !in inst.ifaces then inst
    else
      var iface := inst.ifaces[id.iface];
      var arrived := Accepted(iface, lsas);
      var lsdb := InstallAccepted(inst.lsdb, iface.area, arrived);
      if id !in inst.neighbors then inst.(lsdb := lsdb)
      else
        var t := inst.neighbors[id];
        inst.(lsdb := lsdb, neighbors := inst.neighbors[id := t.(n := LoadedNeighbor(t.n, arrived))])
  }

  /** The loops of `process_lsu` for a known interface and neighbor; `acks` are the headers queued for acknowledgment,
      `refresh` says that our Router-LSA is to be refreshed. */
  method ProcessLsu(lsdb: Lsdb, neighbor: NeighborV3, iface: Iface, lsas: seq<LsaV3Raw>)
    returns (acks: seq<LsaV3Header>, refresh: bool)
    modifies lsdb, neighbor
    ensures var accepted := Accepted(iface, lsas);
            |acks| == |accepted| && forall j :: 0 <= j < |acks| ==> acks[j] == accepted[j].header
    ensures refresh <==> old(neighbor.state) == Loading && neighbor.state == Full
    ensures lsdb.entries == InstallAccepted(old(lsdb.entries), iface.area, Accepted(iface, lsas))
    ensures neighbor.Fields() == LoadedNeighbor(old(neighbor.Fields()), Accepted(iface, lsas))
  {
    var installed: seq<LsaV3Raw> := [];
    acks, refresh := [], false;
    for i := 0 to |lsas|
      invariant installed == Accepted(iface, lsas[..i])
      invariant |acks| == |installed| && forall j :: 0 <= j < |acks| ==> acks[j] == installed[j].header
      invariant lsdb.entries == InstallAccepted(old(lsdb.entries), iface.area, installed)
      invariant neighbor.Fields() == old(neighbor.Fields())
    {
      assert lsas[..i + 1][..i] == lsas[..i];
      var lsa := lsas[i];
      if lsa.header.lsType.AsExternal? && !iface.normalArea {
        continue;
      }
      lsdb.Insert(EntryFor(iface.area, lsa));
      assert (installed + [lsa])[..|installed|] == installed;
      installed := installed + [lsa];
      acks := acks + [lsa.header];
    }
    assert lsas[..|lsas|] == lsas;
    DropInstalled(neighbor, installed);
    if neighbor.state == Loading && neighbor.requestList == [] {
      neighbor.state := Full;
      refresh := true;
    }
  }

  method DropInstalled(neighbor: NeighborV3, installed: seq<LsaV3Raw>)
    modifies neighbor
    ensures neighbor.Fields() == old(neighbor.Fields()).(requestList := WithoutAll(old(neighbor.requestList), installed))
  {
    for i := 0 to |installed|
      invariant neighbor.Fields() == old(neighbor.Fields()).(requestList := WithoutAll(old(neighbor.requestList), installed[..i]))
    {
      assert installed[..i + 1][..i] == installed[..i];
      var kept := Retain(neighbor.requestList, installed[i].header);
      neighbor.requestList := kept;
    }
    assert installed[..|installed|] == installed;
  }

  method Retain(requests: Headers, h: LsaV3Header) returns (kept: Headers)
    ensures kept == Without(requests, h)
  {
    kept := [];
    for i := 0 to |requests|
      invariant kept == Without(requests[..i], h)
    {
      assert requests[..i + 1][..i] == requests[..i];
      if !requests[i].SameLsa(h) {
        kept := kept + [requests[i]];
      }
    }
    assert requests[..|requests|] == requests;
  }

  // ---------------------------------------------------------------- the instance as a state machine

  datatype Event =
    | NewNeighbor(id: NeighborId)
    | Hello(id: NeighborId, seesUs: bool, adjacent: bool)
    | Expire(id: NeighborId)
    | Dd(id: NeighborId, selfId: u32, dd: DbDesc, ours: Headers, clock: u32)
    | Emit(id: NeighborId, clock: u32)
    | Lsu(id: NeighborId, lsas: seq<LsaV3Raw>)
    | Originate(e: LsaEntryV3)

  const NEWCOMER_FIELDS := Neighbor(Down, false, 0, [], [], false, false, false, [], false)

  /** The LSA is not in the database under its scope, but a header of the same LSA and at least the same
      sequence number is found first, so it is not requested. */
  predicate Hidden(lsdb: Entries, area: u32, db: Headers, h: LsaV3Header) {
    KeyUnder(area, h) !in lsdb && exists i :: 0 <= i < |db| && FoundAt(db, i, h) && db[i].lsSequenceNumber >= h.lsSequenceNumber
  }

  /** An emission that ends the exchange puts the missing headers on the request list. */
  function AfterEmission(lsdb: Entries, area: u32, t: Tracked, db: Headers, clock: u32): Tracked {
    var n := AfterEmit(t.n, db, clock);
    if t.n.state == Exchange && n.state != Exchange then
      Tracked(n, n.requestList, n.summaryRecv, set h | h in n.summaryRecv && Hidden(lsdb, area, db, h))
    else t.(n := n)
  }

  /** All headers of the database, in some order. */
  ghost predicate HeadersOf(lsdb: Entries, db: Headers) {
    forall h :: h in db <==> exists k :: k in lsdb && lsdb[k].header == h
  }

  function AfterEmitting(inst: Instance, id: NeighborId, db: Headers, clock: u32): Instance
    requires id in inst.neighbors && id.iface in inst.ifaces
  {
    inst.(neighbors := inst.neighbors[id :=
      AfterEmission(inst.lsdb, inst.ifaces[id.iface].area, inst.neighbors[id], db, clock)])
  }

  ghost predicate Step(inst: Instance, ev: Event, inst': Instance) {
    match ev
    case NewNeighbor(id) =>
      id !in inst.neighbors && id.iface in inst.ifaces
      && inst' == inst.(neighbors := inst.neighbors[id := Tracked(NEWCOMER_FIELDS, [], [], {})])
    case Hello(id, seesUs, adjacent) =>
      id in inst.neighbors && var t := inst.neighbors[id];
      inst' == inst.(neighbors := inst.neighbors[id := t.(n := AfterHello(t.n, seesUs, adjacent))])
    case Expire(id) => inst' == inst.(neighbors := inst.neighbors - {id})
    case Dd(id, selfId, dd, ours, clock) =>
      id in inst.neighbors && var t := inst.neighbors[id];
      inst' == inst.(neighbors := inst.neighbors[id := t.(n := ProcessDd(selfId, id.router, t.n, dd, ours, clock))])
    case Emit(id, clock) =>
      id in inst.neighbors && id.iface in inst.ifaces && MayEmit(inst.neighbors[id].n)
      && exists db :: HeadersOf(inst.lsdb, db) && inst' == AfterEmitting(inst, id, db, clock)
    case Lsu(id, lsas) => inst' == AfterLsu(inst, id, lsas)
    case Originate(e) => inst' == inst.(lsdb := Inserted(inst.lsdb, e))
  }

  ghost predicate WellKeyed(lsdb: Entries) {
    forall k :: k in lsdb ==> lsdb[k].Key() == k
  }

  ghost predicate IsRun(run: seq<Instance>) {
    && |run| > 0 && run[0].neighbors == map[] && WellKeyed(run[0].lsdb)
    && (forall i :: 0 <= i < |run| - 1 ==> IsStep(run[i], run[i + 1]))
  }

  ghost predicate IsStep(inst: Instance, inst': Instance) {
    exists ev :: Step(inst, ev, inst')
  }

  // ---------------------------------------------------------------- the invariant

  /** Each described LSA that was not lost is still requested or is in the database under its scope. */
  ghost predicate LoadsWanted(inst: Instance, area: u32, t: Tracked) {
    forall h :: h in t.described && h !in t.lost ==> (exists r :: r in t.n.requestList && r.SameLsa(h)) || KeyUnder(area, h) in inst.lsdb
  }

  ghost predicate NeighborInv(inst: Instance, id: NeighborId)
    requires id in inst.neighbors
  {
    var t := inst.neighbors[id];
    && id.iface in inst.ifaces
    && (t.n.state == Full ==> t.n.requestList == [])
    && (t.n.state == Loading || t.n.state == Full ==> LoadsWanted(inst, inst.ifaces[id.iface].area, t))
    && (forall h :: h in t.wanted ==> h in t.described && h !in t.lost)
  }

  ghost predicate Inv(inst: Instance) {
    WellKeyed(inst.lsdb) && forall id :: id in inst.neighbors ==> NeighborInv(inst, id)
  }

  lemma {:induction false} WithoutMember(requests: Headers, h: LsaV3Header, r: LsaV3Header)
    ensures r in Without(requests, h) <==> r in requests && !r.SameLsa(h)
  {
    if requests != [] {
      var n := |requests| - 1;
      WithoutMember(requests[..n], h, r);
      assert requests == requests[..n] + [requests[n]];
    }
  }

  /** A request disappears only because an instance of its LSA arrived. */
  lemma {:induction false} WithoutAllMember(requests: Headers, arrived: seq<LsaV3Raw>, r: LsaV3Header)
    ensures r in WithoutAll(requests, arrived) <==> r in requests && forall a :: a in arrived ==> !r.SameLsa(a.header)
  {
    if arrived != [] {
      var n := |arrived| - 1;
      WithoutAllMember(requests, arrived[..n], r);
      WithoutMember(WithoutAll(requests, arrived[..n]), arrived[n].header, r);
      assert arrived == arrived[..n] + [arrived[n]];
    }
  }

  lemma {:induction false} InstalledKeys(lsdb: Entries, area: u32, arrived: seq<LsaV3Raw>)
    ensures var after := InstallAccepted(lsdb, area, arrived);
            && (forall k :: k in lsdb ==> k in after)
            && (forall a :: a in arrived ==> KeyUnder(area, a.header) in after)
            && (WellKeyed(lsdb) ==> WellKeyed(after))
  {
    if arrived != [] {
      var n := |arrived| - 1;
      InstalledKeys(lsdb, area, arrived[..n]);
      assert arrived == arrived[..n] + [arrived[n]];
      assert EntryFor(area, arrived[n]).Key() == KeyUnder(area, arrived[n].header);
    }
  }

  /** Wanted LSAs stay accounted for when the database grows. */
  lemma GrowingKeepsInv(inst: Instance, inst': Instance, id: NeighborId)
    requires id in inst.neighbors && NeighborInv(inst, id)
    requires id in inst'.neighbors && inst'.neighbors[id] == inst.neighbors[id] && inst'.ifaces == inst.ifaces
    requires forall k :: k in inst.lsdb ==> k in inst'.lsdb
    ensures NeighborInv(inst', id)
  {
  }

  lemma LsuKeepsInv(inst: Instance, id: NeighborId, lsas: seq<LsaV3Raw>)
    requires Inv(inst)
    ensures Inv(AfterLsu(inst, id, lsas))
  {
    var inst' := AfterLsu(inst, id, lsas);
    if id.iface in inst.ifaces {
      var iface := inst.ifaces[id.iface];
      var arrived := Accepted(iface, lsas);
      InstalledKeys(inst.lsdb, iface.area, arrived);
      hide Accepted, InstallAccepted;
      forall other | other in inst'.neighbors ensures NeighborInv(inst', other) {
        assert NeighborInv(inst, other);
        if other != id {
          GrowingKeepsInv(inst, inst', other);
        } else {
          LsuKeepsReceiver(inst, inst', id, arrived);
        }
      }
    }
  }

  lemma LsuKeepsReceiver(inst: Instance, inst': Instance, id: NeighborId, arrived: seq<LsaV3Raw>)
    requires id in inst.neighbors && NeighborInv(inst, id) && inst'.ifaces == inst.ifaces
    requires id in inst'.neighbors
    requires inst'.neighbors[id] == inst.neighbors[id].(n := LoadedNeighbor(inst.neighbors[id].n, arrived))
    requires forall k :: k in inst.lsdb ==> k in inst'.lsdb
    requires forall a :: a in arrived ==> KeyUnder(inst.ifaces[id.iface].area, a.header) in inst'.lsdb
    ensures NeighborInv(inst', id)
  {
    var t, t', area := inst.neighbors[id], inst'.neighbors[id], inst.ifaces[id.iface].area;
    forall r ensures r in t'.n.requestList <==> r in t.n.requestList && forall a :: a in arrived ==> !r.SameLsa(a.header) {
      WithoutAllMember(t.n.requestList, arrived, r);
    }
    hide WithoutAll;
    assert t.n.state == Full ==> t'.n.requestList == [] by {
      assert t'.n.requestList != [] ==> t'.n.requestList[0] in t'.n.requestList;
    }
    if t'.n.state == Loading || t'.n.state == Full {
      forall h | h in t'.described && h !in t'.lost && !exists r :: r in t'.n.requestList && r.SameLsa(h)
        ensures KeyUnder(area, h) in inst'.lsdb
      {
        if r :| r in t.n.requestList && r.SameLsa(h) {
          var a :| a in arrived && r.SameLsa(a.header);
          assert KeyUnder(area, h) == KeyUnder(area, a.header);
        }
      }
    }
  }

  /** Steps that touch one neighbor without loading anything. */
  lemma OneNeighborKeepsInv(inst: Instance, inst': Instance, id: NeighborId)
    requires Inv(inst) && inst'.lsdb == inst.lsdb && inst'.ifaces == inst.ifaces
    requires id in inst'.neighbors && NeighborInv(inst', id)
    requires forall other :: other in inst'.neighbors && other != id ==>
               other in inst.neighbors && inst'.neighbors[other] == inst.neighbors[other]
    ensures Inv(inst')
  {
    forall other | other in inst'.neighbors && other != id ensures NeighborInv(inst', other) {
      assert NeighborInv(inst, other);
      GrowingKeepsInv(inst, inst', other);
    }
  }

  /** A Hello or a Database Description never ends in Loading or Full unless it changed nothing that
      matters there. */
  lemma HelloKeepsNeighbor(n: Neighbor, seesUs: bool, adjacent: bool)
    ensures var n' := AfterHello(n, seesUs, adjacent);
            n'.state == Loading || n'.state == Full ==> n' == n
  {
  }

  lemma DdKeepsNeighbor(selfId: u32, peerId: u32, n: Neighbor, dd: DbDesc, ours: Headers, clock: u32)
    ensures var n' := ProcessDd(selfId, peerId, n, dd, ours, clock);
            n'.state == Loading || n'.state == Full ==> n' == n
  {
    var restarted := Restarted(selfId, peerId, n, dd, clock);
    assert restarted.state == Loading || restarted.state == Full ==> restarted == n;
    hide Restarted;
  }

  /** An emission reaches Loading or Full only at the end of an exchange, or was there already. */
  lemma EmissionEnds(n: Neighbor, db: Headers, clock: u32)
    ensures var n' := AfterEmit(n, db, clock);
            if n.state == Exchange && n'.state != Exchange then
              && n'.summaryRecv == n.summaryRecv && n'.requestList == Missing(db, n.summaryRecv)
              && (n'.state == Full ==> n'.requestList == [])
            else n'.state == n.state && n'.requestList == n.requestList
  {
    hide Missing;
  }

  /** Needed and hidden exclude each other and leave only what is present. */
  lemma HiddenMeans(lsdb: Entries, area: u32, db: Headers, h: LsaV3Header)
    ensures Hidden(lsdb, area, db, h) <==> KeyUnder(area, h) !in lsdb && !Needed(db, h)
  {
    NeededMeans(db, h);
    hide Needed;
    if !Needed(db, h) {
      var i: nat :| FoundAt(db, i, h) && h.lsSequenceNumber <= db[i].lsSequenceNumber;
      FoundInside(db, i, h);
    }
  }

  lemma FoundInside(db: Headers, i: nat, h: LsaV3Header)
    requires FoundAt(db, i, h)
    ensures i < |db| && db[i] in db && db[i].SameLsa(h)
  {
  }

  /**
   When an exchange ends, a described header is accounted for, requested or present under its scope, if and
   only if it is not lost; and what is lost was hidden by a header of the same LSA in another scope.
   */
  lemma ExchangeEndExact(lsdb: Entries, area: u32, t: Tracked, db: Headers, clock: u32, h: LsaV3Header)
    requires WellKeyed(lsdb) && HeadersOf(lsdb, db)
    requires t.n.state == Exchange && AfterEmit(t.n, db, clock).state != Exchange && h in t.n.summaryRecv
    ensures var t' := AfterEmission(lsdb, area, t, db, clock);
            && h in t'.described
            && (h in t'.n.requestList || KeyUnder(area, h) in lsdb <==> h !in t'.lost)
            && (t'.n.state == Full ==> (KeyUnder(area, h) in lsdb <==> h !in t'.lost))
            && (h in t'.lost ==> exists k :: k in lsdb && k.area != Scope(area, h.lsType) && lsdb[k].header.SameLsa(h)
                                   && lsdb[k].header.lsSequenceNumber >= h.lsSequenceNumber)
  {
    hide AfterEmit, Missing, Needed;
    EmissionEnds(t.n, db, clock);
    HiddenMeans(lsdb, area, db, h);
    MissingMember(db, t.n.summaryRecv, h);
    if Hidden(lsdb, area, db, h) {
      var i :| 0 <= i < |db| && FoundAt(db, i, h) && db[i].lsSequenceNumber >= h.lsSequenceNumber;
      FoundInside(db, i, h);
      var k :| k in lsdb && lsdb[k].header == db[i];
      assert lsdb[k].Key() == k;
    }
  }

  lemma EmissionKeepsInv(inst: Instance, id: NeighborId, db: Headers, clock: u32)
    requires Inv(inst) && id in inst.neighbors && id.iface in inst.ifaces && HeadersOf(inst.lsdb, db)
    ensures NeighborInv(AfterEmitting(inst, id, db, clock), id)
  {
    hide AfterEmit, Missing, Hidden, HeadersOf;
    assert NeighborInv(inst, id);
    var t, area := inst.neighbors[id], inst.ifaces[id.iface].area;
    EmissionEnds(t.n, db, clock);
    var t' := AfterEmission(inst.lsdb, area, t, db, clock);
    if t.n.state == Exchange && t'.n.state != Exchange {
      forall h ensures h in t'.wanted ==> h in t'.described && h !in t'.lost
               ensures h in t'.described && h !in t'.lost ==> h in t'.n.requestList || KeyUnder(area, h) in inst.lsdb
      {
        MissingMember(db, t.n.summaryRecv, h);
        HiddenMeans(inst.lsdb, area, db, h);
      }
      forall h | h in t'.described && h !in t'.lost && KeyUnder(area, h) !in inst.lsdb
        ensures exists r :: r in t'.n.requestList && r.SameLsa(h)
      {
        assert h.SameLsa(h);
      }
    }
  }

  lemma StepKeepsInv(inst: Instance, ev: Event, inst': Instance)
    requires Inv(inst) && Step(inst, ev, inst')
    ensures Inv(inst')
  {
    match ev
    case NewNeighbor(id) => OneNeighborKeepsInv(inst, inst', id);
    case Hello(id, seesUs, adjacent) =>
      assert NeighborInv(inst, id);
      HelloKeepsNeighbor(inst.neighbors[id].n, seesUs, adjacent);
      OneNeighborKeepsInv(inst, inst', id);
    case Expire(id) =>
      forall other | other in inst'.neighbors ensures NeighborInv(inst', other) {
        assert NeighborInv(inst, other);
      }
    case Dd(id, selfId, dd, ours, clock) =>
      assert NeighborInv(inst, id);
      DdKeepsNeighbor(selfId, id.router, inst.neighbors[id].n, dd, ours, clock);
      OneNeighborKeepsInv(inst, inst', id);
    case Emit(id, clock) =>
      var db :| HeadersOf(inst.lsdb, db) && inst' == AfterEmitting(inst, id, db, clock);
      EmissionKeepsInv(inst, id, db, clock);
      OneNeighborKeepsInv(inst, inst', id);
    case Lsu(id, lsas) => LsuKeepsInv(inst, id, lsas);
    case Originate(e) =>
      forall other | other in inst'.neighbors ensures NeighborInv(inst', other) {
        assert NeighborInv(inst, other);
        GrowingKeepsInv(inst, inst', other);
      }
  }

  lemma {:induction false} RunKeepsInv(run: seq<Instance>)
    requires IsRun(run)
    ensures Inv(run[|run| - 1])
  {
    var n := |run| - 1;
    if n > 0 {
      hide Inv, Step, NeighborInv;
      RunKeepsInv(run[..n]);
      assert IsStep(run[n - 1], run[n - 1 + 1]);
      var ev :| Step(run[n - 1], ev, run[n]);
      StepKeepsInv(run[n - 1], ev, run[n]);
    } else {
      assert Inv(run[0]);
    }
  }

  /**
   Loading completeness: in every reachable state a Full neighbor has nothing left to request, and every LSA it
   described is in the database under its scope unless it was lost when the exchange ended, which does not
   happen to any that was put on the request list.
   */
  lemma FullMeansLoaded(run: seq<Instance>, id: NeighborId)
    requires IsRun(run)
    requires id in run[|run| - 1].neighbors && run[|run| - 1].neighbors[id].n.state == Full
    ensures var inst := run[|run| - 1];
            && id.iface in inst.ifaces
            && inst.neighbors[id].n.requestList == []
            && var t, area := inst.neighbors[id], inst.ifaces[id.iface].area;
               && (forall h :: h in t.described && h !in t.lost ==> KeyUnder(area, h) in inst.lsdb)
               && (forall h :: h in t.wanted ==> KeyUnder(area, h) in inst.lsdb)
  {
    hide Step;
    RunKeepsInv(run);
    assert NeighborInv(run[|run| - 1], id);
  }

  // ---------------------------------------------------------------- what an update leaves in the database

  /** The area takes the LSA: all but Type 5 LSAs in stub and NSSA areas. */
  ghost predicate Takes(iface: Iface, l: LsaV3Raw) {
    l.header.lsType != AsExternal || iface.normalArea
  }

  /** The area of the interface, or no area for Type 5 LSAs. */
  ghost function ScopeOf(iface: Iface, l: LsaV3Raw): Option<u32> {
    if l.header.lsType == AsExternal then None else Some(iface.area)
  }

  ghost function KeyOf(iface: Iface, l: LsaV3Raw): LsaKeyV3 {
    LsaKeyV3(ScopeOf(iface, l), l.header.lsType, l.header.linkStateId, l.header.advertisingRouter)
  }

  /** The last LSA of its key that the area takes. */
  ghost predicate LastOfKey(iface: Iface, lsas: seq<LsaV3Raw>, i: nat) {
    && i < |lsas| && Takes(iface, lsas[i])
    && forall j :: i < j < |lsas| && Takes(iface, lsas[j]) ==> KeyOf(iface, lsas[j]) != KeyOf(iface, lsas[i])
  }

  /** The instance that arrived, with its bytes, under its scope. */
  ghost predicate HoldsArrived(lsdb: Entries, iface: Iface, l: LsaV3Raw) {
    KeyOf(iface, l) in lsdb && lsdb[KeyOf(iface, l)] == LsaEntryV3(l.header, l.raw, ScopeOf(iface, l))
  }

  ghost predicate Mentions(iface: Iface, lsas: seq<LsaV3Raw>, k: LsaKeyV3) {
    exists i :: 0 <= i < |lsas| && Takes(iface, lsas[i]) && KeyOf(iface, lsas[i]) == k
  }

  /**
   What an update leaves behind: of every key it mentions the last instance that arrived, whatever was held before, and
   everything else as it was.
   */
  lemma {:induction false} UpdateInstalls(lsdb: Entries, iface: Iface, lsas: seq<LsaV3Raw>)
    ensures var after := InstallAccepted(lsdb, iface.area, Accepted(iface, lsas));
            && (forall i :: 0 <= i < |lsas| && LastOfKey(iface, lsas, i) ==> HoldsArrived(after, iface, lsas[i]))
            && (forall k :: !Mentions(iface, lsas, k) ==> (k in after <==> k in lsdb) && (k in lsdb ==> after[k] == lsdb[k]))
  {
    if lsas != [] {
      var n := |lsas| - 1;
      var front, l := lsas[..n], lsas[n];
      UpdateInstalls(lsdb, iface, front);
      var before := InstallAccepted(lsdb, iface.area, Accepted(iface, front));
      var after := InstallAccepted(lsdb, iface.area, Accepted(iface, lsas));
      OneInstalled(lsdb, iface, lsas);
      hide InstallAccepted, Accepted, HoldsArrived, Takes, KeyOf;
      forall i | 0 <= i < |lsas| && LastOfKey(iface, lsas, i) ensures HoldsArrived(after, iface, lsas[i]) {
        if i < n {
          LastInFront(iface, lsas, i);
          assert HoldsArrived(before, iface, front[i]);
          if Takes(iface, l) {
            KeepsArrived(before, after, iface, lsas[i], l);
          }
        }
      }
      forall k | !Mentions(iface, lsas, k) ensures (k in after <==> k in lsdb) && (k in lsdb ==> after[k] == lsdb[k]) {
        NotMentioned(iface, lsas, k);
      }
    }
  }

  lemma LastInFront(iface: Iface, lsas: seq<LsaV3Raw>, i: nat)
    requires i < |lsas| - 1 && LastOfKey(iface, lsas, i)
    ensures LastOfKey(iface, lsas[..|lsas| - 1], i)
    ensures Takes(iface, lsas[|lsas| - 1]) ==> KeyOf(iface, lsas[|lsas| - 1]) != KeyOf(iface, lsas[i])
  {
    hide Takes, KeyOf;
  }

  lemma NotMentioned(iface: Iface, lsas: seq<LsaV3Raw>, k: LsaKeyV3)
    requires lsas != [] && !Mentions(iface, lsas, k)
    ensures !Mentions(iface, lsas[..|lsas| - 1], k)
    ensures Takes(iface, lsas[|lsas| - 1]) ==> KeyOf(iface, lsas[|lsas| - 1]) != k
  {
    hide Takes, KeyOf;
    var n := |lsas| - 1;
    assert forall i :: 0 <= i < n ==> lsas[..n][i] == lsas[i];
  }

  /** One more LSA: it is inserted if the area takes it. */
  lemma OneInstalled(lsdb: Entries, iface: Iface, lsas: seq<LsaV3Raw>)
    requires lsas != []
    ensures var n := |lsas| - 1;
            var l := lsas[n];
            var before := InstallAccepted(lsdb, iface.area, Accepted(iface, lsas[..n]));
            var after := InstallAccepted(lsdb, iface.area, Accepted(iface, lsas));
            if Takes(iface, l) then
              HoldsArrived(after, iface, l)
              && forall k :: k != KeyOf(iface, l) ==> (k in after <==> k in before) && (k in before ==> after[k] == before[k])
            else after == before
  {
    var n := |lsas| - 1;
    var front := Accepted(iface, lsas[..n]);
    assert (front + [lsas[n]])[..|front|] == front;
  }

  lemma KeepsArrived(before: Entries, after: Entries, iface: Iface, held: LsaV3Raw, l: LsaV3Raw)
    requires HoldsArrived(before, iface, held) && KeyOf(iface, held) != KeyOf(iface, l)
    requires forall k :: k != KeyOf(iface, l) ==> (k in after <==> k in before) && (k in before ==> after[k] == before[k])
    ensures HoldsArrived(after, iface, held)
  {
  }

  lemma {:induction false} LastExists(iface: Iface, lsas: seq<LsaV3Raw>, k: LsaKeyV3) returns (i: nat)
    requires Mentions(iface, lsas, k)
    ensures i < |lsas| && LastOfKey(iface, lsas, i) && KeyOf(iface, lsas[i]) == k
  {
    hide Takes, KeyOf;
    var n := |lsas| - 1;
    if Takes(iface, lsas[n]) && KeyOf(iface, lsas[n]) == k {
      i := n;
    } else {
      var j :| 0 <= j < |lsas| && Takes(iface, lsas[j]) && KeyOf(iface, lsas[j]) == k;
      assert lsas[..n][j] == lsas[j];
      i := LastExists(iface, lsas[..n], k);
    }
  }

  /** LSA by LSA: one that the area takes is accepted, in its place, any other is not. */
  lemma AcceptedSnoc(iface: Iface, lsas: seq<LsaV3Raw>, l: LsaV3Raw)
    ensures Accepted(iface, []) == []
    ensures Accepted(iface, lsas + [l]) == Accepted(iface, lsas) + (if Takes(iface, l) then [l] else [])
  {
    assert (lsas + [l])[..|lsas|] == lsas;
  }

  lemma {:induction false} AcceptedMember(iface: Iface, lsas: seq<LsaV3Raw>, l: LsaV3Raw)
    ensures l in Accepted(iface, lsas) <==> l in lsas && Takes(iface, l)
  {
    if lsas != [] {
      var n := |lsas| - 1;
      AcceptedMember(iface, lsas[..n], l);
      assert lsas == lsas[..n] + [lsas[n]];
    }
  }

  /** An LSA of the update answers the request. */
  ghost predicate Answered(iface: Iface, lsas: seq<LsaV3Raw>, r: LsaV3Header) {
    exists l :: l in lsas && Takes(iface, l) && l.header.lsType == r.lsType && l.header.linkStateId == r.linkStateId
      && l.header.advertisingRouter == r.advertisingRouter
  }

  /**
   What an update does to the neighbor it came from: exactly the answered requests are crossed off, the database then holds
   the last instance that arrived for each of them, and the neighbor goes from Loading to Full exactly if none is left.
   */
  lemma UpdateAnswers(inst: Instance, id: NeighborId, lsas: seq<LsaV3Raw>, r: LsaV3Header)
    requires id.iface in inst.ifaces && id in inst.neighbors
    ensures var iface, n := inst.ifaces[id.iface], inst.neighbors[id].n;
            var inst' := AfterLsu(inst, id, lsas);
            && id in inst'.neighbors && var n' := inst'.neighbors[id].n;
               && (r in n'.requestList <==> r in n.requestList && !Answered(iface, lsas, r))
               && (r in n.requestList && Answered(iface, lsas, r) ==>
                     exists i :: 0 <= i < |lsas| && LastOfKey(iface, lsas, i) && lsas[i].header.SameLsa(r)
                       && HoldsArrived(inst'.lsdb, iface, lsas[i]))
               && n'.state == (if n.state == Loading && n'.requestList == [] then Full else n.state)
               && n' == n.(requestList := n'.requestList, state := n'.state)
  {
    var iface, n := inst.ifaces[id.iface], inst.neighbors[id].n;
    var arrived := Accepted(iface, lsas);
    WithoutAllMember(n.requestList, arrived, r);
    UpdateInstalls(inst.lsdb, iface, lsas);
    forall l ensures l in arrived <==> l in lsas && Takes(iface, l) {
      AcceptedMember(iface, lsas, l);
    }
    hide WithoutAll, InstallAccepted, Accepted, HoldsArrived;
    forall a | a in arrived && r.SameLsa(a.header) ensures Answered(iface, lsas, r) {
    }
    if Answered(iface, lsas, r) {
      var l :| l in lsas && Takes(iface, l) && l.header.lsType == r.lsType && l.header.linkStateId == r.linkStateId
               && l.header.advertisingRouter == r.advertisingRouter;
      assert l in arrived && r.SameLsa(l.header);
      var j :| 0 <= j < |lsas| && lsas[j] == l;
      assert Mentions(iface, lsas, KeyOf(iface, l));
      var i := LastExists(iface, lsas, KeyOf(iface, l));
      assert lsas[i].header.SameLsa(r);
    }
  }

  // ---------------------------------------------------------------- a header hidden by another area

  /** An interface in area 1 and, in the database, an LSA of area 2. */
  function TwoAreas(e: LsaEntryV3): Instance {
    Instance(map[e.Key() := e], map[0 := Iface(1, true)], map[])
  }

  /** The neighbor is Full and has described an LSA that is not in the database under its scope. */
  predicate FullWithout(inst: Instance, id: NeighborId, h: LsaV3Header) {
    && id in inst.neighbors && id.iface in inst.ifaces
    && inst.neighbors[id].n.state == Full && h in inst.neighbors[id].described
    && KeyUnder(inst.ifaces[id.iface].area, h) !in inst.lsdb
  }

  lemma ExtendedRun(run: seq<Instance>, ev: Event, inst': Instance)
    requires IsRun(run) && Step(run[|run| - 1], ev, inst')
    ensures IsRun(run + [inst'])
  {
    var longer := run + [inst'];
    hide Step;
    forall i | 0 <= i < |longer| - 1 ensures IsStep(longer[i], longer[i + 1]) {
      if i < |run| - 1 {
        assert IsStep(run[i], run[i + 1]);
      }
    }
  }

  const OPENING_DD := DbDesc(true, true, true, 1, [])

  /** The neighbor after each event of a short exchange in which the peer describes one header. */
  lemma ShortExchange(h: LsaV3Header)
    ensures var n1 := AfterHello(NEWCOMER_FIELDS, true, true);
            var n2 := ProcessDd(1, 2, n1, OPENING_DD, [], 1);
            var n3 := ProcessDd(1, 2, n2, DbDesc(false, false, true, 1, [h]), [], 1);
            n3.state == Exchange && n3.peerDone && n3.summaryTx == [] && n3.summaryRecv == [h]
  {
    var n1 := AfterHello(NEWCOMER_FIELDS, true, true);
    assert n1.state == ExStart && n1.summaryRecv == [];
    var n2 := ProcessDd(1, 2, n1, OPENING_DD, [], 1);
    assert n2.state == Exchange && n2.summaryRecv == [] && n2.summaryTx == [];
    assert [] + [h] == [h];
  }

  /** With a header of the same LSA already held, the exchange ends in Full at once. */
  lemma EndsFull(n: Neighbor, o: LsaV3Header, h: LsaV3Header)
    requires n.state == Exchange && n.peerDone && n.summaryTx == [] && n.summaryRecv == [h]
    requires o.SameLsa(h) && o.lsSequenceNumber >= h.lsSequenceNumber
    ensures AfterEmit(n, [o], 1).state == Full && AfterEmit(n, [o], 1).summaryRecv == [h]
  {
    assert Missing([o], [h]) == [] by {
      assert [h][..0] == [];
      assert Find([o], h) == Some(o);
    }
    hide Missing;
  }

  /** A router in two areas: the LSA of the other area hides the one the neighbor describes, and the neighbor goes
      Full without it. */
  lemma OtherAreaHides(e: LsaEntryV3, h: LsaV3Header)
    requires e.area == Some(2) && e.header.SameLsa(h) && e.header.lsSequenceNumber >= h.lsSequenceNumber
    requires !h.lsType.AsExternal?
    ensures exists run: seq<Instance> :: IsRun(run) && run[0] == TwoAreas(e) && FullWithout(run[|run| - 1], NeighborId(0, 2), h)
  {
    hide AfterHello, ProcessDd, AfterEmit, Hidden, IsRun;
    var id := NeighborId(0, 2);
    var i0 := TwoAreas(e);
    StartsRun(e);
    var n1 := AfterHello(NEWCOMER_FIELDS, true, true);
    var n2 := ProcessDd(1, 2, n1, OPENING_DD, [], 1);
    var chunk := DbDesc(false, false, true, 1, [h]);
    var n3 := ProcessDd(1, 2, n2, chunk, [], 1);
    ShortExchange(h);
    EndsFull(n3, e.header, h);
    var i1 := i0.(neighbors := map[id := Tracked(NEWCOMER_FIELDS, [], [], {})]);
    ExtendedRun([i0], NewNeighbor(id), i1);
    var i2 := i0.(neighbors := map[id := Tracked(n1, [], [], {})]);
    ExtendedRun([i0] + [i1], Hello(id, true, true), i2);
    var i3 := i0.(neighbors := map[id := Tracked(n2, [], [], {})]);
    ExtendedRun([i0] + [i1] + [i2], Dd(id, 1, OPENING_DD, [], 1), i3);
    var i4 := i0.(neighbors := map[id := Tracked(n3, [], [], {})]);
    ExtendedRun([i0] + [i1] + [i2] + [i3], Dd(id, 1, chunk, [], 1), i4);
    var i5 := AfterEmitting(i4, id, [e.header], 1);
    assert HeadersOf(i4.lsdb, [e.header]) by { OnlyHeader(e); }
    ExtendedRun([i0] + [i1] + [i2] + [i3] + [i4], Emit(id, 1), i5);
    var run := [i0] + [i1] + [i2] + [i3] + [i4] + [i5];
    assert run[0] == i0 && run[|run| - 1] == i5 && FullWithout(i5, id, h);
  }

  lemma StartsRun(e: LsaEntryV3)
    ensures IsRun([TwoAreas(e)])
  {
  }

  lemma OnlyHeader(e: LsaEntryV3)
    ensures HeadersOf(TwoAreas(e).lsdb, [e.header])
  {
    assert e.Key() in TwoAreas(e).lsdb;
  }
}

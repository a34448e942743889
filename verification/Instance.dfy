/**
 LSU processing and flooding of src/instance.rs (sections 13 and 13.3 of RFC 2328) for the
 interfaces of one area.
 */
module Instance {
  import opened Numbers
  import opened LsaTypes
  import opened LinkStateDatabase

  datatype NeighborState = Down | Attempt | Init | TwoWay | ExStart | Exchange | Loading | Full {
    predicate ExchangeOrAbove() {
      Exchange? || Loading? || Full?
    }
  }

  datatype Interface = Interface(down: bool, neighbors: map<u32, NeighborState>)

  /** Packets queued for transmission, in the order the source pushes them. */
  datatype Response =
    | Reply(iface: nat, lsas: seq<Lsa>)
    | Acknowledge(iface: nat, headers: seq<LsaHeader>)
    | Flood(iface: nat, lsas: seq<Lsa>)

  // ---------------------------------------------------------------- receiving

  /** The area database and the AS-wide database of Type 5 LSAs. */
  datatype Store = Store(area: Entries, external: Entries) {
    function Slot(t: LsaType): Entries {
      if t.AsExternal? then external else area
    }

    predicate Holds(key: LsaKey) {
      key in Slot(key.lsType)
    }

    function Held(key: LsaKey): Lsa
      requires Holds(key)
    {
      Slot(key.lsType)[key].lsa
    }

    function Install(routerId: u32, lsa: Lsa): Store {
      if lsa.header.lsType.AsExternal? then this.(external := Installed(external, routerId, lsa))
      else this.(area := Installed(area, routerId, lsa))
    }

    ghost predicate Valid() {
      && WellKeyed(area) && WellKeyed(external)
      && (forall k :: k in area ==> !k.lsType.AsExternal?)
      && (forall k :: k in external ==> k.lsType.AsExternal?)
    }
  }

  /** What has come out of an LSU so far: the databases, and what is to be sent. */
  datatype Outcome = Outcome(
    store: Store, acks: seq<LsaHeader>, changed: seq<Lsa>, replies: seq<Lsa>, spf: bool)

  /** Type 5 LSAs stay out of stub areas. */
  predicate Carried(stub: bool, t: LsaType) {
    !(stub && t.AsExternal?)
  }

  predicate TriggersSpf(t: LsaType) {
    t.Router? || t.Network? || t.SummaryNetwork?
  }

  /** One LSA of an LSU. The newer copy sent back for an older one is looked up in the area
      database only, so there is none for a Type 5 LSA. */
  function ReceiveOne(stub: bool, routerId: u32, o: Outcome, lsa: Lsa): Outcome {
    if !Carried(stub, lsa.header.lsType) then o
    else
      var store := o.store.Install(routerId, lsa);
      match Verdict(o.store.Slot(lsa.header.lsType), lsa)
      case New | Updated =>
        Outcome(store, o.acks + [lsa.header], o.changed + [lsa], o.replies, o.spf || TriggersSpf(lsa.header.lsType))
      case Duplicate => o.(store := store, acks := o.acks + [lsa.header])
      case Older =>
        if lsa.Key() in o.store.area then o.(store := store, replies := o.replies + [o.store.area[lsa.Key()].lsa])
        else o.(store := store)
  }

  function Receive(stub: bool, routerId: u32, store: Store, lsas: seq<Lsa>): Outcome {
    if lsas == [] then Outcome(store, [], [], [], false)
    else ReceiveOne(stub, routerId, Receive(stub, routerId, store, lsas[..|lsas| - 1]), lsas[|lsas| - 1])
  }

  // ---------------------------------------------------------------- flooding

  predicate Eligible(iface: Interface, fromRouter: u32) {
    exists id :: id in iface.neighbors && iface.neighbors[id].ExchangeOrAbove() && id != fromRouter
  }

  /** The LSAs that may enter the area. */
  function Admitted(stub: bool, lsas: seq<Lsa>): seq<Lsa> {
    if lsas == [] then []
    else
      var front := Admitted(stub, lsas[..|lsas| - 1]);
      var last := lsas[|lsas| - 1];
      if Carried(stub, last.header.lsType) then front + [last] else front
  }

  predicate Floods(ifaces: seq<Interface>, idx: nat, input: Option<nat>, fromRouter: u32, admitted: seq<Lsa>)
    requires idx < |ifaces|
  {
    !ifaces[idx].down && Some(idx) != input && Eligible(ifaces[idx], fromRouter) && admitted != []
  }

  /** One LSU for each interface below `n` that is up, is not the input, and has someone to tell. */
  function FloodOut(ifaces: seq<Interface>, stub: bool, input: Option<nat>, fromRouter: u32, lsas: seq<Lsa>,
                    n: nat): seq<Response>
    requires n <= |ifaces|
  {
    if n == 0 then []
    else
      FloodOut(ifaces, stub, input, fromRouter, lsas, n - 1)
      + if Floods(ifaces, n - 1, input, fromRouter, Admitted(stub, lsas)) then [Flood(n - 1, Admitted(stub, lsas))]
        else []
  }

  function Replies(idx: nat, lsas: seq<Lsa>): (r: seq<Response>)
    ensures |r| == |lsas|
  {
    seq(|lsas|, i requires 0 <= i < |lsas| => Reply(idx, [lsas[i]]))
  }

  /** Everything `process_lsu` sends: the replies, the acknowledgment, then the flood. */
  function Responses(ifaces: seq<Interface>, stub: bool, idx: nat, fromRouter: u32, o: Outcome): seq<Response> {
    Replies(idx, o.replies)
    + (if o.acks == [] then [] else [Acknowledge(idx, o.acks)])
    + (if o.changed == [] then [] else FloodOut(ifaces, stub, Some(idx), fromRouter, o.changed, |ifaces|))
  }

  class OspfInstance {
    const routerId: u32
    const areaIsStub: bool
    const areaLsdb: Lsdb
    const asExternalLsdb: Lsdb
    var interfaces: seq<Interface>

    ghost predicate Valid() {
      areaLsdb != asExternalLsdb && areaLsdb.routerId == routerId && asExternalLsdb.routerId == routerId
    }

    ghost function CurrentStore(): Store
      reads areaLsdb, asExternalLsdb
    {
      Store(areaLsdb.entries, asExternalLsdb.entries)
    }

    constructor (routerId: u32, areaIsStub: bool, interfaces: seq<Interface>)
      ensures Valid() && fresh(areaLsdb) && fresh(asExternalLsdb)
      ensures CurrentStore() == Store(map[], map[]) && this.interfaces == interfaces
      ensures this.routerId == routerId && this.areaIsStub == areaIsStub
    {
      this.routerId := routerId;
      this.areaIsStub := areaIsStub;
      this.interfaces := interfaces;
      this.areaLsdb := new Lsdb(routerId);
      this.asExternalLsdb := new Lsdb(routerId);
    }

    /** Type 5 LSAs live in the AS-wide database, every other type in the area database. */
    method InstallOne(lsa: Lsa) returns (result: InstallResult)
      requires Valid()
      modifies areaLsdb, asExternalLsdb
      ensures CurrentStore() == old(CurrentStore()).Install(routerId, lsa)
      ensures result == Verdict(old(CurrentStore()).Slot(lsa.header.lsType), lsa)
      ensures result.Older? ==> CurrentStore() == old(CurrentStore())
    {
      if lsa.header.lsType.AsExternal? {
        result := asExternalLsdb.Install(lsa);
      } else {
        result := areaLsdb.Install(lsa);
      }
    }

    /** `process_lsu`: install, acknowledge, answer older copies with ours, flood what changed. */
    method ProcessLsu(ifaceIdx: nat, fromRouter: u32, lsas: seq<Lsa>) returns (responses: seq<Response>, spf: bool)
      requires Valid()
      modifies areaLsdb, asExternalLsdb
      ensures var o := Receive(areaIsStub, routerId, old(CurrentStore()), lsas);
              && CurrentStore() == o.store
              && responses == Responses(interfaces, areaIsStub, ifaceIdx, fromRouter, o)
              && spf == o.spf
    {
      hide Verdict, Installed, FloodOut, Store.Install;
      ghost var start := CurrentStore();
      var acks: seq<LsaHeader> := [];
      var toFlood: seq<Lsa> := [];
      ghost var answered: seq<Lsa> := [];
      responses, spf := [], false;
      for i := 0 to |lsas|
        invariant Receive(areaIsStub, routerId, start, lsas[..i])
                  == Outcome(CurrentStore(), acks, toFlood, answered, spf)
        invariant responses == Replies(ifaceIdx, answered)
      {
        assert lsas[..i + 1][..i] == lsas[..i];
        var lsa := lsas[i];
        if lsa.header.lsType.AsExternal? && areaIsStub {
          continue;
        }
        var result := InstallOne(lsa);
        match result
        case New | Updated =>
          acks := acks + [lsa.header];
          spf := spf || TriggersSpf(lsa.header.lsType);
          toFlood := toFlood + [lsa];
        case Duplicate =>
          acks := acks + [lsa.header];
        case Older =>
          if lsa.Key() in areaLsdb.entries {
            var ours := areaLsdb.entries[lsa.Key()].lsa;
            responses := responses + [Reply(ifaceIdx, [ours])];
            answered := answered + [ours];
          }
      }
      assert lsas[..|lsas|] == lsas;
      if acks != [] {
        responses := responses + [Acknowledge(ifaceIdx, acks)];
      }
      if toFlood != [] {
        var floods := FloodLsasToOthers(Some(ifaceIdx), fromRouter, toFlood);
        responses := responses + floods;
      }
    }

    /** `flood_lsas_to_others`. */
    method FloodLsasToOthers(input: Option<nat>, fromRouter: u32, lsas: seq<Lsa>) returns (responses: seq<Response>)
      ensures responses == FloodOut(interfaces, areaIsStub, input, fromRouter, lsas, |interfaces|)
    {
      responses := [];
      for idx := 0 to |interfaces|
        invariant responses == FloodOut(interfaces, areaIsStub, input, fromRouter, lsas, idx)
      {
        var iface := interfaces[idx];
        if iface.down {
          continue;
        }
        if Some(idx) == input {
          continue;
        }
        if !Eligible(iface, fromRouter) {
          continue;
        }
        var filtered := FilterAdmitted(lsas);
        if filtered == [] {
          continue;
        }
        responses := responses + [Flood(idx, filtered)];
      }
    }

    method FilterAdmitted(lsas: seq<Lsa>) returns (filtered: seq<Lsa>)
      ensures filtered == Admitted(areaIsStub, lsas)
    {
      filtered := [];
      for i := 0 to |lsas|
        invariant filtered == Admitted(areaIsStub, lsas[..i])
      {
        assert lsas[..i + 1][..i] == lsas[..i];
        if !areaIsStub || !lsas[i].header.lsType.AsExternal? {
          filtered := filtered + [lsas[i]];
        }
      }
      assert lsas[..|lsas|] == lsas;
    }

    /** The stale-self-LSA recovery at the head of `process_dd`. */
    method RecoverSelfLsas(listed: seq<LsaHeader>) returns (bumpedAny: bool)
      requires Valid()
      modifies areaLsdb, asExternalLsdb
      ensures areaLsdb.entries == Recovered(old(areaLsdb.entries), routerId, ListedIn(listed, false))
      ensures asExternalLsdb.entries == Recovered(old(asExternalLsdb.entries), routerId, ListedIn(listed, true))
      ensures LiftedBy(old(areaLsdb.entries), routerId, listed, false, areaLsdb.entries)
      ensures LiftedBy(old(asExternalLsdb.entries), routerId, listed, true, asExternalLsdb.entries)
      ensures bumpedAny <==> areaLsdb.entries != old(areaLsdb.entries) || asExternalLsdb.entries != old(asExternalLsdb.entries)
    {
      bumpedAny := false;
      for i := 0 to |listed|
        invariant areaLsdb.entries == Recovered(old(areaLsdb.entries), routerId, ListedIn(listed[..i], false))
        invariant asExternalLsdb.entries == Recovered(old(asExternalLsdb.entries), routerId, ListedIn(listed[..i], true))
        invariant bumpedAny <==> areaLsdb.entries != old(areaLsdb.entries) || asExternalLsdb.entries != old(asExternalLsdb.entries)
      {
        assert listed[..i + 1][..i] == listed[..i];
        var h := listed[i];
        ghost var mine := ListedIn(listed[..i], h.lsType.AsExternal?);
        assert (mine + [h])[..|mine|] == mine;
        if h.advertisingRouter != routerId {
          continue;
        }
        BumpStep(old(areaLsdb.entries), routerId, ListedIn(listed[..i], false), h.Key(), h.lsSequenceNumber);
        BumpStep(old(asExternalLsdb.entries), routerId, ListedIn(listed[..i], true), h.Key(), h.lsSequenceNumber);
        hide Bumped;
        var bumped;
        if h.lsType.AsExternal? {
          bumped := asExternalLsdb.BumpSeq(h.Key(), h.lsSequenceNumber);
        } else {
          bumped := areaLsdb.BumpSeq(h.Key(), h.lsSequenceNumber);
        }
        bumpedAny := bumpedAny || bumped;
      }
      assert listed[..|listed|] == listed;
      ListedLifts(old(areaLsdb.entries), routerId, listed, false);
      ListedLifts(old(asExternalLsdb.entries), routerId, listed, true);
    }
  }

  lemma {:induction false} ListedMember(listed: seq<LsaHeader>, external: bool, h: LsaHeader)
    ensures h in ListedIn(listed, external) <==> h in listed && (h.lsType == AsExternal) == external
  {
    if listed != [] {
      var n := |listed| - 1;
      ListedMember(listed[..n], external, h);
      assert listed == listed[..n] + [listed[n]];
    }
  }

  lemma ListedLifts(entries: Entries, routerId: u32, listed: seq<LsaHeader>, external: bool)
    ensures LiftedBy(entries, routerId, listed, external, Recovered(entries, routerId, ListedIn(listed, external)))
  {
    hide Recovered, ListedIn;
    var mine := ListedIn(listed, external);
    forall h ensures h in mine <==> h in listed && (h.lsType == AsExternal) == external {
      ListedMember(listed, external, h);
    }
    RecoveredLifts(entries, routerId, mine, external);
    var after := Recovered(entries, routerId, mine);
    forall k | k in entries ensures LiftedAt(entries[k], routerId, listed, external, k, after[k]) {
      assert LiftedAt(entries[k], routerId, mine, external, k, after[k]);
    }
  }

  /** The headers of a Database Description that belong to one of the two databases. */
  function ListedIn(listed: seq<LsaHeader>, external: bool): seq<LsaHeader> {
    if listed == [] then []
    else
      var front := ListedIn(listed[..|listed| - 1], external);
      var last := listed[|listed| - 1];
      if last.lsType.AsExternal? == external then front + [last] else front
  }
}

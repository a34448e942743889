/**
 Reliable flooding over a network of routers (section 13 of RFC 2328): routers on point-to-point
 links in one area, channels that lose nothing but may reorder, and the LSU processing of
 `Instance` at every router.
 */
module Flooding {
  import opened Numbers
  import opened LsaTypes
  import opened LinkStateDatabase
  import opened Instance
  import ExternalReconciliation

  /** One end of a point-to-point link: the router and port at the far end. */
  datatype Port = Port(peer: nat, peerPort: nat, state: NeighborState)

  datatype Topology = Topology(ids: seq<u32>, ports: seq<seq<Port>>, stub: bool) {
    ghost predicate Valid() {
      && |ids| == |ports|
      && (forall u, v :: 0 <= u < v < |ids| ==> ids[u] != ids[v])
      && (forall u, i :: 0 <= u < |ports| && 0 <= i < |ports[u]| ==> PortValid(u, i))
    }

    /** The far end points back, and the neighbor there is in Exchange or above. */
    ghost predicate PortValid(u: nat, i: nat)
      requires u < |ports| && i < |ports[u]|
    {
      var p := ports[u][i];
      && p.state.ExchangeOrAbove() && p.peer < |ports| && p.peer != u
      && p.peerPort < |ports[p.peer]|
      && ports[p.peer][p.peerPort].peer == u && ports[p.peer][p.peerPort].peerPort == i
    }

    function Interfaces(u: nat): (ifaces: seq<Interface>)
      requires Valid() && u < |ports|
      ensures |ifaces| == |ports[u]|
    {
      seq(|ports[u]|, i requires 0 <= i < |ports[u]| =>
        assert PortValid(u, i);
        Interface(false, map[ids[ports[u][i].peer] := ports[u][i].state]))
    }
  }

  datatype Packet = Packet(src: nat, dst: nat, port: nat, lsas: seq<Lsa>)

  datatype Origination = Origination(router: nat, lsa: Lsa)

  /** The databases, the LSUs in flight, the history of originations, and the floors: of every key whose instance
      some router has changed on its own without telling anyone, and since then the first originated header above
      all there was, if any. */
  datatype Net = Net(stores: seq<Store>, inFlight: seq<Packet>, originated: set<Origination>,
                     floors: map<LsaKey, Option<LsaHeader>>)

  ghost predicate PacketValid(topo: Topology, p: Packet) {
    && p.src < |topo.ports| && p.dst < |topo.ports|
    && p.port < |topo.ports[p.dst]| && topo.ports[p.dst][p.port].peer == p.src
  }

  ghost predicate Shape(topo: Topology, s: Net) {
    && topo.Valid() && |s.stores| == |topo.ports|
    && (forall u :: 0 <= u < |s.stores| ==> s.stores[u].Valid())
    && (forall j :: 0 <= j < |s.inFlight| ==> PacketValid(topo, s.inFlight[j]))
  }

  /** LSUs put on the wire for a list of responses; acknowledgments are ignored by receivers. */
  function Transmit(topo: Topology, u: nat, responses: seq<Response>): seq<Packet>
    requires u < |topo.ports|
  {
    if responses == [] then []
    else
      var front := Transmit(topo, u, responses[..|responses| - 1]);
      var last := responses[|responses| - 1];
      if last.Acknowledge? || last.iface >= |topo.ports[u]| then front
      else
        var p := topo.ports[u][last.iface];
        front + [Packet(u, p.peer, p.peerPort, last.lsas)]
  }

  ghost predicate Initial(topo: Topology, s: Net) {
    && topo.Valid() && |s.stores| == |topo.ports| && s.inFlight == [] && s.originated == {} && s.floors == map[]
    && (forall u :: 0 <= u < |s.stores| ==> s.stores[u] == Store(map[], map[]))
  }

  /** What the receiver of packet `j` makes of it. */
  function ReceiptOf(topo: Topology, s: Net, j: nat): Outcome
    requires Shape(topo, s) && j < |s.inFlight|
  {
    var p := s.inFlight[j];
    Receive(topo.stub, topo.ids[p.dst], s.stores[p.dst], p.lsas)
  }

  function SentOnReceipt(topo: Topology, s: Net, j: nat): seq<Packet>
    requires Shape(topo, s) && j < |s.inFlight|
  {
    var p := s.inFlight[j];
    Transmit(topo, p.dst,
             Responses(topo.Interfaces(p.dst), topo.stub, p.port, topo.ids[p.src], ReceiptOf(topo, s, j)))
  }

  /** Any packet in flight may be delivered next. */
  function Deliver(topo: Topology, s: Net, j: nat): Net
    requires Shape(topo, s) && j < |s.inFlight|
  {
    s.(stores := s.stores[s.inFlight[j].dst := ReceiptOf(topo, s, j).store],
       inFlight := s.inFlight[..j] + s.inFlight[j + 1..] + SentOnReceipt(topo, s, j))
  }

  function SentOnOrigination(topo: Topology, u: nat, lsa: Lsa): seq<Packet>
    requires topo.Valid() && u < |topo.ports|
  {
    Transmit(topo, u, FloodOut(topo.Interfaces(u), topo.stub, None, topo.ids[u], [lsa], |topo.ports[u]|))
  }

  /** The LSA outranks all instances of its key that are held or in flight. */
  predicate Tops(s: Net, lsa: Lsa) {
    && (forall v :: 0 <= v < |s.stores| && s.stores[v].Holds(lsa.Key()) ==>
          !AtLeast(s.stores[v].Held(lsa.Key()).header, lsa.header))
    && (forall i, j :: 0 <= i < |s.inFlight| && 0 <= j < |s.inFlight[i].lsas| && s.inFlight[i].lsas[j].Key() == lsa.Key() ==>
          !AtLeast(s.inFlight[i].lsas[j].header, lsa.header))
  }

  function FloorsAfter(s: Net, lsa: Lsa): map<LsaKey, Option<LsaHeader>> {
    if lsa.Key() in s.floors && Tops(s, lsa) then s.floors[lsa.Key() := Some(lsa.header)] else s.floors
  }

  function InstallAndFlood(topo: Topology, s: Net, u: nat, lsa: Lsa): Net
    requires Shape(topo, s) && u < |topo.ports|
  {
    Net(s.stores[u := s.stores[u].Install(topo.ids[u], lsa)],
        s.inFlight + SentOnOrigination(topo, u, lsa),
        s.originated + {Origination(u, lsa)}, s.floors)
  }

  /** Originate then flood: the LSA goes out whatever the outcome of installing it was. */
  function Originate(topo: Topology, s: Net, u: nat, lsa: Lsa): Net
    requires Shape(topo, s) && u < |topo.ports|
  {
    InstallAndFlood(topo, s, u, lsa).(floors := FloorsAfter(s, lsa))
  }

  /** Our own Type 5 LSA, still live: what a call that no longer keeps its id withdraws. */
  predicate Withdrawable(topo: Topology, s: Net, u: nat, k: LsaKey) {
    && u < |s.stores| && u < |topo.ids| && k in s.stores[u].external && k.advertisingRouter == topo.ids[u]
    && ExternalReconciliation.IsExternal(s.stores[u].external[k].lsa) && ExternalReconciliation.Live(s.stores[u].external[k])
  }

  /** The withdrawal is installed and not flooded: the call hands back the kept LSAs only. */
  function Withdraw(topo: Topology, s: Net, u: nat, k: LsaKey): Net
    requires Withdrawable(topo, s, u, k)
  {
    var gone := ExternalReconciliation.Withdrawal(s.stores[u].external[k].lsa);
    s.(stores := s.stores[u := s.stores[u].Install(topo.ids[u], gone)], floors := s.floors[k := None])
  }

  /** The restart bump of one of our own LSAs, which is not flooded either. */
  function Bump(s: Net, u: nat, k: LsaKey, newSeq: i32): Net
    requires u < |s.stores|
  {
    var store := s.stores[u];
    var bumped := if k.lsType.AsExternal? then store.(external := Bumped(store.external, k, newSeq))
                  else store.(area := Bumped(store.area, k, newSeq));
    s.(stores := s.stores[u := bumped], floors := s.floors[k := None])
  }

  ghost predicate DeliverStep(topo: Topology, s: Net, s': Net) {
    Shape(topo, s) && exists j :: 0 <= j < |s.inFlight| && s' == Deliver(topo, s, j)
  }

  ghost predicate OriginateStep(topo: Topology, s: Net, s': Net) {
    Shape(topo, s) && exists u, lsa :: 0 <= u < |topo.ports| && s' == Originate(topo, s, u, lsa)
  }

  ghost predicate LocalStep(topo: Topology, s: Net, s': Net) {
    || (exists u, k :: Withdrawable(topo, s, u, k) && s' == Withdraw(topo, s, u, k))
    || (exists u, k, newSeq :: 0 <= u < |s.stores| && s' == Bump(s, u, k, newSeq))
  }

  ghost predicate IsRun(topo: Topology, run: seq<Net>) {
    && |run| > 0 && Initial(topo, run[0])
    && (forall i :: 0 <= i < |run| - 1 ==> IsStep(topo, run[i], run[i + 1]))
  }

  ghost predicate IsStep(topo: Topology, s: Net, s': Net) {
    DeliverStep(topo, s, s') || OriginateStep(topo, s, s') || LocalStep(topo, s, s')
  }

  // ---------------------------------------------------------------- one router

  ghost predicate Dominates(store: Store, h: LsaHeader) {
    store.Holds(h.Key()) && AtLeast(store.Held(h.Key()).header, h)
  }

  /** Installing covers the offered LSA and loses no rank. */
  lemma InstallDominates(store: Store, routerId: u32, lsa: Lsa, h: LsaHeader)
    requires store.Valid()
    ensures var after := store.Install(routerId, lsa);
            && Dominates(after, lsa.header)
            && (Dominates(store, h) ==> Dominates(after, h))
  {
  }

  /** Installing changes a key only to the offered LSA. */
  lemma InstallEffect(store: Store, routerId: u32, lsa: Lsa)
    requires store.Valid()
    ensures var after := store.Install(routerId, lsa);
            && after.Valid()
            && Dominates(after, lsa.header)
            && (forall h :: Dominates(store, h) ==> Dominates(after, h))
            && (forall k :: after.Holds(k) ==> (store.Holds(k) && after.Held(k) == store.Held(k)) || after.Held(k) == lsa)
  {
    forall h ensures Dominates(store.Install(routerId, lsa), lsa.header)
             ensures Dominates(store, h) ==> Dominates(store.Install(routerId, lsa), h)
    {
      InstallDominates(store, routerId, lsa, h);
    }
    hide Dominates, IsMoreRecentThan;
  }

  lemma InstallVerdict(store: Store, routerId: u32, lsa: Lsa)
    requires store.Valid()
    ensures var after := store.Install(routerId, lsa);
            if Verdict(store.Slot(lsa.header.lsType), lsa).Changed() then after.Holds(lsa.Key()) && after.Held(lsa.Key()) == lsa
            else after == store
  {
    hide IsMoreRecentThan;
  }

  lemma AreaCopy(store: Store, k: LsaKey)
    requires store.Valid() && k in store.area
    ensures store.Holds(k) && store.Held(k) == store.area[k].lsa
    ensures store.Held(k).Key() == k && Dominates(store, store.Held(k).header)
  {
  }

  /** What receiving an LSU does to a router's databases and which LSAs it will send. */
  ghost predicate ReceiptEffect(stub: bool, store: Store, lsas: seq<Lsa>, o: Outcome) {
    && o.store.Valid()
    && (forall h :: Dominates(store, h) ==> Dominates(o.store, h))
    && (forall l :: l in lsas && Carried(stub, l.header.lsType) ==> Dominates(o.store, l.header))
    && (forall l :: l in o.changed ==> l in lsas && Carried(stub, l.header.lsType) && Dominates(o.store, l.header))
    && (forall l :: l in o.replies ==> Dominates(o.store, l.header))
    && (forall l :: l in o.replies ==> l in lsas || (store.Holds(l.Key()) && store.Held(l.Key()) == l))
    && (forall k :: o.store.Holds(k) ==>
          (store.Holds(k) && o.store.Held(k) == store.Held(k)) || o.store.Held(k) in o.changed)
  }

  lemma {:induction false} ReceiveEffect(stub: bool, routerId: u32, store: Store, lsas: seq<Lsa>)
    requires store.Valid()
    ensures ReceiptEffect(stub, store, lsas, Receive(stub, routerId, store, lsas))
  {
    if lsas != [] {
      var n := |lsas| - 1;
      ReceiveEffect(stub, routerId, store, lsas[..n]);
      ReceiveOneEffect(stub, routerId, store, lsas[..n], Receive(stub, routerId, store, lsas[..n]), lsas[n]);
      assert lsas[..n] + [lsas[n]] == lsas;
    }
  }

  lemma ReceiveOneEffect(stub: bool, routerId: u32, store: Store, lsas: seq<Lsa>, o: Outcome, lsa: Lsa)
    requires ReceiptEffect(stub, store, lsas, o)
    ensures ReceiptEffect(stub, store, lsas + [lsa], ReceiveOne(stub, routerId, o, lsa))
  {
    hide Dominates, Verdict, Installed, Store.Install, Store.Valid, Store.Slot;
    var o' := ReceiveOne(stub, routerId, o, lsa);
    if Carried(stub, lsa.header.lsType) {
      InstallEffect(o.store, routerId, lsa);
      InstallVerdict(o.store, routerId, lsa);
      assert o'.store == o.store.Install(routerId, lsa);
      if lsa.Key() in o.store.area {
        AreaCopy(o.store, lsa.Key());
      }
    }
  }

  lemma ReceiveKeepsValid(stub: bool, routerId: u32, store: Store, lsas: seq<Lsa>)
    requires store.Valid()
    ensures Receive(stub, routerId, store, lsas).store.Valid()
  {
    ReceiveEffect(stub, routerId, store, lsas);
  }

  /** Every LSA of an LSU is accounted for: acknowledged, or answered with a newer copy unless it is of
      Type 5; SPF is asked for exactly when a change calls for it. */
  ghost predicate Accounted(stub: bool, lsas: seq<Lsa>, o: Outcome) {
    && (forall l :: l in lsas && Carried(stub, l.header.lsType) ==>
          l.header in o.acks || l.header.lsType.AsExternal? || AnsweredNewer(o.replies, l))
    && (forall l :: l in o.changed ==> l.header in o.acks)
    && (o.spf <==> exists l :: l in o.changed && TriggersSpf(l.header.lsType))
  }

  ghost predicate AnsweredNewer(replies: seq<Lsa>, l: Lsa) {
    exists r :: r in replies && r.Key() == l.Key() && Newer(r.header, l.header)
  }

  /** There are no other acknowledgments and answers. */
  ghost predicate Justified(stub: bool, lsas: seq<Lsa>, o: Outcome) {
    && (forall h :: h in o.acks ==> exists l :: l in lsas && l.header == h && Carried(stub, l.header.lsType))
    && (forall r :: r in o.replies ==>
          !r.header.lsType.AsExternal? && exists l :: l in lsas && r.Key() == l.Key() && Newer(r.header, l.header))
  }

  lemma {:induction false} ReceiveAnswers(stub: bool, routerId: u32, store: Store, lsas: seq<Lsa>)
    requires store.Valid()
    ensures Accounted(stub, lsas, Receive(stub, routerId, store, lsas))
    ensures Justified(stub, lsas, Receive(stub, routerId, store, lsas))
  {
    if lsas != [] {
      var n := |lsas| - 1;
      hide Accounted, Justified, ReceiveOne;
      ReceiveAnswers(stub, routerId, store, lsas[..n]);
      ReceiveKeepsValid(stub, routerId, store, lsas[..n]);
      var o := Receive(stub, routerId, store, lsas[..n]);
      ReceiveOneAccounted(stub, routerId, lsas[..n], o, lsas[n]);
      ReceiveOneJustified(stub, routerId, lsas[..n], o, lsas[n]);
      assert lsas[..n] + [lsas[n]] == lsas;
    }
  }

  lemma ReceiveOneAccounted(stub: bool, routerId: u32, lsas: seq<Lsa>, o: Outcome, lsa: Lsa)
    requires Accounted(stub, lsas, o) && o.store.Valid()
    ensures Accounted(stub, lsas + [lsa], ReceiveOne(stub, routerId, o, lsa))
  {
    hide Store.Install, Verdict, Newer, Store.Valid, Store.Slot, Store.Holds, Store.Held;
    var o' := ReceiveOne(stub, routerId, o, lsa);
    if Carried(stub, lsa.header.lsType) && Verdict(o.store.Slot(lsa.header.lsType), lsa).Older? {
      OlderIsAnswered(o.store, lsa);
      if lsa.Key() in o.store.area {
        assert o'.replies[|o.replies|] == o.store.area[lsa.Key()].lsa;
        assert AnsweredNewer(o'.replies, lsa);
      }
    }
    forall l | AnsweredNewer(o.replies, l) ensures AnsweredNewer(o'.replies, l) {
      var r :| r in o.replies && r.Key() == l.Key() && Newer(r.header, l.header);
      assert r in o'.replies;
    }
    hide AnsweredNewer;
    if o'.changed != o.changed {
      assert o'.changed == o.changed + [lsa] && lsa in o'.changed;
    }
  }

  lemma ReceiveOneJustified(stub: bool, routerId: u32, lsas: seq<Lsa>, o: Outcome, lsa: Lsa)
    requires Justified(stub, lsas, o) && o.store.Valid()
    ensures Justified(stub, lsas + [lsa], ReceiveOne(stub, routerId, o, lsa))
  {
    hide Store.Install, Verdict, Newer, Store.Valid, Store.Slot, Store.Holds, Store.Held;
    var all := lsas + [lsa];
    assert lsa in all && forall l :: l in lsas ==> l in all;
    if Carried(stub, lsa.header.lsType) && Verdict(o.store.Slot(lsa.header.lsType), lsa).Older? {
      OlderIsAnswered(o.store, lsa);
    }
  }

  lemma OlderIsAnswered(store: Store, lsa: Lsa)
    requires store.Valid() && Verdict(store.Slot(lsa.header.lsType), lsa).Older?
    ensures lsa.Key() in store.area <==> !lsa.header.lsType.AsExternal?
    ensures lsa.Key() in store.area ==>
              var held := store.area[lsa.Key()].lsa;
              held.Key() == lsa.Key() && !held.header.lsType.AsExternal? && Newer(held.header, lsa.header)
  {
  }

  // ---------------------------------------------------------------- what goes on the wire

  lemma {:induction false} AdmittedMember(stub: bool, lsas: seq<Lsa>, l: Lsa)
    ensures l in Admitted(stub, lsas) <==> l in lsas && Carried(stub, l.header.lsType)
  {
    if lsas != [] {
      var n := |lsas| - 1;
      AdmittedMember(stub, lsas[..n], l);
      assert lsas == lsas[..n] + [lsas[n]];
    }
  }

  lemma {:induction false} FloodOutMember(ifaces: seq<Interface>, stub: bool, input: Option<nat>, fromRouter: u32,
                                          lsas: seq<Lsa>, n: nat)
    requires n <= |ifaces|
    ensures var out := FloodOut(ifaces, stub, input, fromRouter, lsas, n);
            && (forall r :: r in out ==>
                  && r.Flood? && r.iface < n && r.lsas == Admitted(stub, lsas)
                  && Floods(ifaces, r.iface, input, fromRouter, r.lsas))
            && (forall idx :: 0 <= idx < n && Floods(ifaces, idx, input, fromRouter, Admitted(stub, lsas)) ==>
                  Flood(idx, Admitted(stub, lsas)) in out)
  {
    if n > 0 {
      FloodOutMember(ifaces, stub, input, fromRouter, lsas, n - 1);
    }
  }

  ghost predicate OnWire(topo: Topology, u: nat, r: Response) {
    u < |topo.ports| && !r.Acknowledge? && r.iface < |topo.ports[u]|
  }

  function PacketFor(topo: Topology, u: nat, r: Response): Packet
    requires OnWire(topo, u, r)
  {
    Packet(u, topo.ports[u][r.iface].peer, topo.ports[u][r.iface].peerPort, r.lsas)
  }

  lemma {:induction false} TransmitMember(topo: Topology, u: nat, responses: seq<Response>)
    requires u < |topo.ports|
    ensures forall r :: r in responses && OnWire(topo, u, r) ==> PacketFor(topo, u, r) in Transmit(topo, u, responses)
    ensures forall q :: q in Transmit(topo, u, responses) ==>
              exists r :: r in responses && OnWire(topo, u, r) && q == PacketFor(topo, u, r)
  {
    if responses != [] {
      var n := |responses| - 1;
      TransmitMember(topo, u, responses[..n]);
      assert responses == responses[..n] + [responses[n]];
      forall q | q in Transmit(topo, u, responses)
        ensures exists r :: r in responses && OnWire(topo, u, r) && q == PacketFor(topo, u, r)
      {
        if q in Transmit(topo, u, responses[..n]) {
          var r :| r in responses[..n] && OnWire(topo, u, r) && q == PacketFor(topo, u, r);
          assert r in responses;
        } else {
          assert OnWire(topo, u, responses[n]) && q == PacketFor(topo, u, responses[n]);
        }
      }
    }
  }

  lemma EligiblePort(topo: Topology, u: nat, i: nat, fromRouter: u32)
    requires topo.Valid() && u < |topo.ports| && i < |topo.ports[u]|
    requires topo.ports[u][i].peer < |topo.ids| && topo.ids[topo.ports[u][i].peer] != fromRouter
    ensures Eligible(topo.Interfaces(u)[i], fromRouter)
  {
    assert topo.PortValid(u, i);
    assert topo.ids[topo.ports[u][i].peer] in topo.Interfaces(u)[i].neighbors;
  }

  /** The LSUs router `u` sends: only over its own ports, carrying only what it was given to send. */
  ghost predicate SendsOnly(topo: Topology, u: nat, lsas: set<Lsa>, sent: seq<Packet>) {
    forall q :: q in sent ==>
      PacketValid(topo, q) && q.src == u && (forall l :: l in q.lsas ==> l in lsas)
  }

  /** Every carried LSA of `lsas` goes to every neighbor except possibly `from`. */
  ghost predicate SendsAll(topo: Topology, u: nat, from: nat, lsas: seq<Lsa>, sent: seq<Packet>)
    requires u < |topo.ports|
  {
    forall i, l :: 0 <= i < |topo.ports[u]| && topo.ports[u][i].peer != from && l in lsas && Carried(topo.stub, l.header.lsType)
      ==> exists q :: q in sent && q.dst == topo.ports[u][i].peer && l in q.lsas
  }

  ghost function Elements(lsas: seq<Lsa>): set<Lsa> {
    set l | l in lsas
  }

  /** Flooding reaches every neighbor but the one the LSAs came from. */
  lemma FloodReaches(topo: Topology, u: nat, input: Option<nat>, from: nat, lsas: seq<Lsa>, others: seq<Response>)
    requires topo.Valid() && u < |topo.ports| && from < |topo.ports|
    requires input.Some? ==> input.value < |topo.ports[u]| && topo.ports[u][input.value].peer == from
    ensures var floods := FloodOut(topo.Interfaces(u), topo.stub, input, topo.ids[from], lsas, |topo.ports[u]|);
            SendsAll(topo, u, from, lsas, Transmit(topo, u, others + floods))
  {
    var ifaces := topo.Interfaces(u);
    var admitted := Admitted(topo.stub, lsas);
    var floods := FloodOut(ifaces, topo.stub, input, topo.ids[from], lsas, |topo.ports[u]|);
    FloodOutMember(ifaces, topo.stub, input, topo.ids[from], lsas, |topo.ports[u]|);
    TransmitMember(topo, u, others + floods);
    forall i, l | 0 <= i < |topo.ports[u]| && topo.ports[u][i].peer != from && l in lsas && Carried(topo.stub, l.header.lsType)
      ensures exists q :: q in Transmit(topo, u, others + floods) && q.dst == topo.ports[u][i].peer && l in q.lsas
    {
      AdmittedMember(topo.stub, lsas, l);
      assert topo.PortValid(u, i);
      EligiblePort(topo, u, i, topo.ids[from]);
      assert Floods(ifaces, i, input, topo.ids[from], admitted);
      var r := Flood(i, admitted);
      assert r in others + floods;
      assert PacketFor(topo, u, r) in Transmit(topo, u, others + floods);
    }
  }

  /** Transmitting over valid ports yields valid packets. */
  lemma TransmitSendsOnly(topo: Topology, u: nat, responses: seq<Response>, lsas: set<Lsa>)
    requires topo.Valid() && u < |topo.ports|
    requires forall r :: r in responses && !r.Acknowledge? ==> forall l :: l in r.lsas ==> l in lsas
    ensures SendsOnly(topo, u, lsas, Transmit(topo, u, responses))
  {
    TransmitMember(topo, u, responses);
    forall q | q in Transmit(topo, u, responses)
      ensures PacketValid(topo, q) && q.src == u && (forall l :: l in q.lsas ==> l in lsas)
    {
      var r :| r in responses && OnWire(topo, u, r) && q == PacketFor(topo, u, r);
      assert topo.PortValid(u, r.iface);
    }
  }

  lemma ReceiptSends(topo: Topology, s: Net, j: nat)
    requires Shape(topo, s) && j < |s.inFlight|
    ensures var p := s.inFlight[j];
            var o := ReceiptOf(topo, s, j);
            && SendsOnly(topo, p.dst, Elements(o.changed) + Elements(o.replies), SentOnReceipt(topo, s, j))
            && SendsAll(topo, p.dst, p.src, o.changed, SentOnReceipt(topo, s, j))
  {
    var p := s.inFlight[j];
    var o := ReceiptOf(topo, s, j);
    var ifaces := topo.Interfaces(p.dst);
    var responses := Responses(ifaces, topo.stub, p.port, topo.ids[p.src], o);
    var n := |topo.ports[p.dst]|;
    FloodOutMember(ifaces, topo.stub, Some(p.port), topo.ids[p.src], o.changed, n);
    forall r | r in responses && !r.Acknowledge?
      ensures forall l :: l in r.lsas ==> l in Elements(o.changed) + Elements(o.replies)
    {
      forall l | l in r.lsas ensures l in Elements(o.changed) + Elements(o.replies) {
        AdmittedMember(topo.stub, o.changed, l);
      }
    }
    TransmitSendsOnly(topo, p.dst, responses, Elements(o.changed) + Elements(o.replies));
    if o.changed != [] {
      var others := Replies(p.port, o.replies) + (if o.acks == [] then [] else [Acknowledge(p.port, o.acks)]);
      FloodReaches(topo, p.dst, Some(p.port), p.src, o.changed, others);
    }
  }

  lemma OriginationSends(topo: Topology, u: nat, lsa: Lsa)
    requires topo.Valid() && u < |topo.ports|
    ensures SendsOnly(topo, u, {lsa}, SentOnOrigination(topo, u, lsa))
    ensures SendsAll(topo, u, u, [lsa], SentOnOrigination(topo, u, lsa))
  {
    var floods := FloodOut(topo.Interfaces(u), topo.stub, None, topo.ids[u], [lsa], |topo.ports[u]|);
    FloodOutMember(topo.Interfaces(u), topo.stub, None, topo.ids[u], [lsa], |topo.ports[u]|);
    forall l ensures l in Admitted(topo.stub, [lsa]) ==> l == lsa {
      AdmittedMember(topo.stub, [lsa], l);
    }
    TransmitSendsOnly(topo, u, floods, {lsa});
    FloodReaches(topo, u, None, u, [lsa], []);
    assert [] + floods == floods;
  }

  // ---------------------------------------------------------------- the invariant

  ghost predicate Pending(s: Net, v: nat, h: LsaHeader) {
    exists q, l :: q in s.inFlight && q.dst == v && l in q.lsas && l.Key() == h.Key() && AtLeast(l.header, h)
  }

  /** A router holds at least what it has sent. */
  ghost predicate SendersCovered(s: Net) {
    forall q :: q in s.inFlight ==> SenderCovered(s, q)
  }

  ghost predicate SenderCovered(s: Net, q: Packet) {
    q.src < |s.stores| && forall l :: l in q.lsas ==> Dominates(s.stores[q.src], l.header)
  }

  /** Instances that spread in the regular way: of keys left alone, or from the floor upwards. */
  predicate Counts(s: Net, h: LsaHeader) {
    h.Key() in s.floors ==> s.floors[h.Key()].Some? && AtLeast(h, s.floors[h.Key()].value)
  }

  lemma CountsUpwards(s: Net, h: LsaHeader, higher: LsaHeader)
    requires Counts(s, h) && higher.Key() == h.Key() && AtLeast(higher, h)
    ensures Counts(s, higher)
  {
  }

  /** Across every link, the far end holds or is being sent at least what the near end holds and counts. */
  ghost predicate LinksCovered(topo: Topology, s: Net)
    requires Shape(topo, s)
  {
    forall u, i, k :: 0 <= u < |s.stores| && 0 <= i < |topo.ports[u]| ==> LinkCovered(topo, s, u, i, k)
  }

  ghost predicate LinkCovered(topo: Topology, s: Net, u: nat, i: nat, k: LsaKey)
    requires Shape(topo, s) && u < |s.stores| && i < |topo.ports[u]|
  {
    assert topo.PortValid(u, i);
    var v := topo.ports[u][i].peer;
    Carried(topo.stub, k.lsType) && s.stores[u].Holds(k) && Counts(s, s.stores[u].Held(k).header) ==>
      Dominates(s.stores[v], s.stores[u].Held(k).header) || Pending(s, v, s.stores[u].Held(k).header)
  }

  ghost predicate WasOriginated(s: Net, l: Lsa) {
    exists o :: o in s.originated && o.lsa == l
  }

  ghost predicate Known(s: Net, l: Lsa) {
    Counts(s, l.header) ==> WasOriginated(s, l)
  }

  /** A floor was originated. */
  ghost predicate FloorOriginated(s: Net, k: LsaKey)
    requires k in s.floors
  {
    s.floors[k].Some? ==> exists o :: o in s.originated && o.lsa.Key() == k && o.lsa.header == s.floors[k].value
  }

  /** Nothing that counts is held or sent that was not originated; an originator holds at least what it
      originated. */
  ghost predicate HistoryKept(s: Net) {
    && (forall u, k :: 0 <= u < |s.stores| && s.stores[u].Holds(k) ==> Known(s, s.stores[u].Held(k)))
    && (forall q, l :: q in s.inFlight && l in q.lsas ==> Known(s, l))
    && (forall o :: o in s.originated ==> o.router < |s.stores| && Dominates(s.stores[o.router], o.lsa.header))
    && (forall k :: k in s.floors ==> FloorOriginated(s, k))
  }

  ghost predicate Inv(topo: Topology, s: Net) {
    Shape(topo, s) && SendersCovered(s) && LinksCovered(topo, s) && HistoryKept(s)
  }

  lemma InitialInv(topo: Topology, s: Net)
    requires Initial(topo, s)
    ensures Inv(topo, s)
  {
    forall u, i, k | 0 <= u < |s.stores| && 0 <= i < |topo.ports[u]|
      ensures LinkCovered(topo, s, u, i, k)
    {
    }
  }

  /** How the network looks after router `u` took over `store` and sent `sent`; both kinds of step
      have this form. */
  ghost predicate Moves(topo: Topology, s: Net, s': Net, u: nat, store: Store, sent: seq<Packet>) {
    && Shape(topo, s) && u < |s.stores| && store.Valid()
    && (forall h :: Dominates(s.stores[u], h) ==> Dominates(store, h))
    && s'.stores == s.stores[u := store]
    && s.originated <= s'.originated && s.floors == s'.floors
    && (forall q :: q in sent ==> q in s'.inFlight)
    && (forall q :: q in s'.inFlight ==> q in s.inFlight || q in sent)
    && (forall q :: q in s.inFlight && q !in s'.inFlight ==>
          q.dst == u && forall l :: l in q.lsas && Carried(topo.stub, l.header.lsType) ==> Dominates(store, l.header))
  }

  lemma DominatesTransitive(store: Store, a: LsaHeader, b: LsaHeader)
    requires Dominates(store, a) && a.Key() == b.Key() && AtLeast(a, b)
    ensures Dominates(store, b)
  {
  }

  /** A link whose near end did not change what it holds stays covered. */
  lemma LinkStaysCovered(topo: Topology, s: Net, s': Net, u: nat, store: Store, sent: seq<Packet>, a: nat, i: nat, k: LsaKey)
    requires Moves(topo, s, s', u, store, sent) && Shape(topo, s')
    requires a < |s.stores| && i < |topo.ports[a]| && LinkCovered(topo, s, a, i, k)
    requires s'.stores[a].Holds(k) ==> s.stores[a].Holds(k) && s.stores[a].Held(k) == s'.stores[a].Held(k)
    ensures LinkCovered(topo, s', a, i, k)
  {
    assert topo.PortValid(a, i);
    var v := topo.ports[a][i].peer;
    if Carried(topo.stub, k.lsType) && s'.stores[a].Holds(k) && Counts(s', s'.stores[a].Held(k).header) {
      var h := s'.stores[a].Held(k).header;
      assert h.Key() == k;
      if !Dominates(s.stores[v], h) {
        var q, l :| q in s.inFlight && q.dst == v && l in q.lsas && l.Key() == h.Key() && AtLeast(l.header, h);
        if q !in s'.inFlight {
          DominatesTransitive(store, l.header, h);
        }
      }
    }
  }

  /** A link whose near end just installed an LSA is covered: the far end is sent it, or is the router
      it came from and so holds at least as much already. */
  lemma NewlyCovered(topo: Topology, s: Net, s': Net, u: nat, store: Store, sent: seq<Packet>, i: nat, k: LsaKey,
                     from: nat, changed: seq<Lsa>)
    requires Moves(topo, s, s', u, store, sent) && Shape(topo, s')
    requires i < |topo.ports[u]| && store.Holds(k) && store.Held(k) in changed
    requires SendsAll(topo, u, from, changed, sent)
    requires from != u ==> from < |s.stores| && Dominates(s.stores[from], store.Held(k).header)
    ensures LinkCovered(topo, s', u, i, k)
  {
    assert topo.PortValid(u, i);
    var v := topo.ports[u][i].peer;
    var l := store.Held(k);
    assert l.Key() == k;
    if Carried(topo.stub, k.lsType) && v != from {
      var q :| q in sent && q.dst == v && l in q.lsas;
      assert Pending(s', v, l.header);
    }
  }

  /** Every step of this form keeps the invariant. */
  lemma MoveKeepsInv(topo: Topology, s: Net, s': Net, u: nat, store: Store, sent: seq<Packet>, from: nat,
                     changed: seq<Lsa>, may: set<Lsa>)
    requires Inv(topo, s) && Moves(topo, s, s', u, store, sent)
    requires SendsOnly(topo, u, may, sent) && SendsAll(topo, u, from, changed, sent)
    requires forall l :: l in may ==> Dominates(store, l.header) && Known(s', l)
    requires forall l :: l in changed ==> Known(s', l)
    requires forall l :: l in changed && from != u ==> from < |s.stores| && Dominates(s.stores[from], l.header)
    requires forall k :: store.Holds(k) ==>
               (s.stores[u].Holds(k) && store.Held(k) == s.stores[u].Held(k)) || store.Held(k) in changed
    requires forall o :: o in s'.originated && o !in s.originated ==> o.router == u && Dominates(store, o.lsa.header)
    ensures Inv(topo, s')
  {
    assert Shape(topo, s') by {
      forall j | 0 <= j < |s'.inFlight| ensures PacketValid(topo, s'.inFlight[j]) {
        assert s'.inFlight[j] in s'.inFlight;
      }
    }
    forall a, i, k | 0 <= a < |s'.stores| && 0 <= i < |topo.ports[a]| ensures LinkCovered(topo, s', a, i, k) {
      assert LinkCovered(topo, s, a, i, k);
      if a == u && store.Holds(k) && !(s.stores[u].Holds(k) && store.Held(k) == s.stores[u].Held(k)) {
        NewlyCovered(topo, s, s', u, store, sent, i, k, from, changed);
      } else {
        LinkStaysCovered(topo, s, s', u, store, sent, a, i, k);
      }
    }
    MoveKeepsSenders(topo, s, s', u, store, sent, may);
    MoveKeepsHistory(topo, s, s', u, store, sent, changed, may);
  }

  lemma MoveKeepsSenders(topo: Topology, s: Net, s': Net, u: nat, store: Store, sent: seq<Packet>, may: set<Lsa>)
    requires SendersCovered(s) && Moves(topo, s, s', u, store, sent) && SendsOnly(topo, u, may, sent)
    requires forall l :: l in may ==> Dominates(store, l.header)
    ensures SendersCovered(s')
  {
    hide Dominates, Shape, PacketValid;
    forall q | q in s'.inFlight ensures SenderCovered(s', q) {
      if q in sent {
        assert q.src == u;
      } else {
        assert SenderCovered(s, q);
      }
    }
  }

  lemma MoveKeepsHistory(topo: Topology, s: Net, s': Net, u: nat, store: Store, sent: seq<Packet>,
                         changed: seq<Lsa>, may: set<Lsa>)
    requires HistoryKept(s) && Moves(topo, s, s', u, store, sent) && SendsOnly(topo, u, may, sent)
    requires forall l :: l in may ==> Known(s', l)
    requires forall l :: l in changed ==> Known(s', l)
    requires forall k :: store.Holds(k) ==>
               (s.stores[u].Holds(k) && store.Held(k) == s.stores[u].Held(k)) || store.Held(k) in changed
    requires forall o :: o in s'.originated && o !in s.originated ==> o.router == u && Dominates(store, o.lsa.header)
    ensures HistoryKept(s')
  {
    hide Dominates, Shape, Known, Counts, FloorOriginated, PacketValid, Store.Valid, Store.Holds, Store.Held;
    forall l | Known(s, l) ensures Known(s', l) {
      SameFloorsCount(s, s', l.header);
      KnownKept(s, s', l);
    }
    forall k | k in s'.floors ensures FloorOriginated(s', k) {
      FloorKept(s, s', k);
    }
    forall a, k | 0 <= a < |s'.stores| && s'.stores[a].Holds(k) ensures Known(s', s'.stores[a].Held(k)) {
      if a != u {
        assert s'.stores[a] == s.stores[a];
      }
    }
    forall q, l | q in s'.inFlight && l in q.lsas ensures Known(s', l) {
      if q in sent {
        assert l in may;
      }
    }
  }

  lemma KnownKept(s: Net, s': Net, l: Lsa)
    requires Known(s, l) && s.originated <= s'.originated && (Counts(s', l.header) ==> Counts(s, l.header))
    ensures Known(s', l)
  {
    if Counts(s, l.header) {
      var o :| o in s.originated && o.lsa == l;
      assert o in s'.originated;
    }
  }

  lemma SameFloorsCount(s: Net, s': Net, h: LsaHeader)
    requires s.floors == s'.floors
    ensures Counts(s, h) <==> Counts(s', h)
  {
  }

  lemma FloorKept(s: Net, s': Net, k: LsaKey)
    requires k in s.floors && FloorOriginated(s, k) && s.originated <= s'.originated
    requires k in s'.floors && s'.floors[k] == s.floors[k]
    ensures FloorOriginated(s', k)
  {
    if s.floors[k].Some? {
      var o :| o in s.originated && o.lsa.Key() == k && o.lsa.header == s.floors[k].value;
      assert o in s'.originated;
    }
  }

  lemma DeliverMoves(topo: Topology, s: Net, j: nat)
    requires Shape(topo, s) && j < |s.inFlight|
    ensures Moves(topo, s, Deliver(topo, s, j), s.inFlight[j].dst, ReceiptOf(topo, s, j).store, SentOnReceipt(topo, s, j))
  {
    hide SentOnReceipt, Receive, Dominates, Topology.PortValid;
    var p := s.inFlight[j];
    assert PacketValid(topo, p);
    ReceiveEffect(topo.stub, topo.ids[p.dst], s.stores[p.dst], p.lsas);
    assert s.inFlight == s.inFlight[..j] + [p] + s.inFlight[j + 1..];
  }

  /** What the sender of packet `j` and the history say about the LSAs its receiver handles. */
  lemma ReceiptCovered(topo: Topology, s: Net, j: nat)
    requires Inv(topo, s) && j < |s.inFlight|
    ensures var p := s.inFlight[j];
            var o := ReceiptOf(topo, s, j);
            && (forall l :: l in o.changed ==> Known(s, l) && Dominates(s.stores[p.src], l.header))
            && (forall l :: l in o.replies ==> Known(s, l))
            && (forall l :: l in o.changed || l in o.replies ==> Dominates(o.store, l.header))
  {
    hide Receive, Dominates, LinksCovered, Known, Topology.PortValid;
    var p := s.inFlight[j];
    assert PacketValid(topo, p) && p in s.inFlight;
    ReceiveEffect(topo.stub, topo.ids[p.dst], s.stores[p.dst], p.lsas);
  }

  lemma DeliverKeepsInv(topo: Topology, s: Net, j: nat)
    requires Inv(topo, s) && j < |s.inFlight|
    ensures Inv(topo, Deliver(topo, s, j))
  {
    hide SentOnReceipt, Receive, Dominates, LinksCovered, Known, Moves, SendsOnly, SendsAll;
    var s' := Deliver(topo, s, j);
    var p := s.inFlight[j];
    var o := ReceiptOf(topo, s, j);
    assert PacketValid(topo, p) && topo.PortValid(p.dst, p.port);
    DeliverMoves(topo, s, j);
    ReceiveEffect(topo.stub, topo.ids[p.dst], s.stores[p.dst], p.lsas);
    ReceiptSends(topo, s, j);
    ReceiptCovered(topo, s, j);
    forall l | Known(s, l) ensures Known(s', l) {
      KnownKept(s, s', l);
    }
    MoveKeepsInv(topo, s, s', p.dst, o.store, SentOnReceipt(topo, s, j), p.src, o.changed,
                 Elements(o.changed) + Elements(o.replies));
  }

  lemma FloodMoves(topo: Topology, s: Net, u: nat, lsa: Lsa)
    requires Shape(topo, s) && u < |topo.ports|
    ensures Moves(topo, s, InstallAndFlood(topo, s, u, lsa), u, s.stores[u].Install(topo.ids[u], lsa),
                  SentOnOrigination(topo, u, lsa))
  {
    hide Dominates, Store.Install, SentOnOrigination, Topology.PortValid;
    InstallEffect(s.stores[u], topo.ids[u], lsa);
  }

  lemma FloodKeepsInv(topo: Topology, s: Net, u: nat, lsa: Lsa)
    requires Inv(topo, s) && u < |topo.ports|
    ensures Inv(topo, InstallAndFlood(topo, s, u, lsa))
  {
    hide Dominates, Store.Install, SentOnOrigination, Moves, SendsOnly, SendsAll, LinksCovered, Counts, FloorOriginated, Topology.PortValid;
    var s' := InstallAndFlood(topo, s, u, lsa);
    var store := s.stores[u].Install(topo.ids[u], lsa);
    InstallEffect(s.stores[u], topo.ids[u], lsa);
    OriginationSends(topo, u, lsa);
    FloodMoves(topo, s, u, lsa);
    assert Origination(u, lsa) in s'.originated;
    MoveKeepsInv(topo, s, s', u, store, SentOnOrigination(topo, u, lsa), u, [lsa], {lsa});
  }

  /** From the LSA upwards there is nothing but the LSA itself, held by `u` and on its way to the neighbors of `u`. */
  ghost predicate OnTop(topo: Topology, s: Net, u: nat, lsa: Lsa) {
    && u < |s.stores| && u < |topo.ports|
    && (forall v :: 0 <= v < |s.stores| && s.stores[v].Holds(lsa.Key()) && AtLeast(s.stores[v].Held(lsa.Key()).header, lsa.header) ==>
          v == u && s.stores[v].Held(lsa.Key()) == lsa)
    && (forall q, l :: q in s.inFlight && l in q.lsas && l.Key() == lsa.Key() && AtLeast(l.header, lsa.header) ==> l == lsa)
    && SendsAll(topo, u, u, [lsa], s.inFlight)
    && Origination(u, lsa) in s.originated
  }

  lemma ToppedIsOnTop(topo: Topology, s: Net, u: nat, lsa: Lsa)
    requires Shape(topo, s) && u < |topo.ports| && Tops(s, lsa)
    ensures OnTop(topo, InstallAndFlood(topo, s, u, lsa), u, lsa)
  {
    hide Store.Install, SentOnOrigination, Topology.PortValid, PacketValid, AtLeast;
    var s' := InstallAndFlood(topo, s, u, lsa);
    InstallEffect(s.stores[u], topo.ids[u], lsa);
    OriginationSends(topo, u, lsa);
    forall v | 0 <= v < |s'.stores| && v != u && s'.stores[v].Holds(lsa.Key())
      ensures !AtLeast(s'.stores[v].Held(lsa.Key()).header, lsa.header)
    {
      assert s'.stores[v] == s.stores[v];
    }
    forall q, l | q in s.inFlight && l in q.lsas && l.Key() == lsa.Key() ensures !AtLeast(l.header, lsa.header) {
      var i :| 0 <= i < |s.inFlight| && s.inFlight[i] == q;
      var j :| 0 <= j < |q.lsas| && q.lsas[j] == l;
      assert s.inFlight[i].lsas[j] == l;
    }
    SendsAllIn(topo, u, [lsa], SentOnOrigination(topo, u, lsa), s'.inFlight);
  }

  lemma SendsAllIn(topo: Topology, u: nat, lsas: seq<Lsa>, sent: seq<Packet>, more: seq<Packet>)
    requires u < |topo.ports| && SendsAll(topo, u, u, lsas, sent) && forall q :: q in sent ==> q in more
    ensures SendsAll(topo, u, u, lsas, more)
  {
  }

  /** An LSA above everything takes the key up again. */
  lemma RenewKeepsInv(topo: Topology, s: Net, u: nat, lsa: Lsa)
    requires Inv(topo, s) && OnTop(topo, s, u, lsa)
    ensures Inv(topo, s.(floors := s.floors[lsa.Key() := Some(lsa.header)]))
  {
    hide Dominates, Pending, SendsAll, WasOriginated, AtLeast, PacketValid, Topology.Valid, Store.Valid;
    var k := lsa.Key();
    var s' := s.(floors := s.floors[k := Some(lsa.header)]);
    assert Shape(topo, s');
    forall q | q in s'.inFlight ensures SenderCovered(s', q) {
      assert SenderCovered(s, q);
    }
    forall a, i, j | 0 <= a < |s'.stores| && 0 <= i < |topo.ports[a]| ensures LinkCovered(topo, s', a, i, j) {
      assert LinkCovered(topo, s, a, i, j);
      RenewKeepsLink(topo, s, u, lsa, a, i, j);
    }
    RenewKeepsHistory(topo, s, u, lsa);
  }

  lemma RenewKeepsLink(topo: Topology, s: Net, u: nat, lsa: Lsa, a: nat, i: nat, j: LsaKey)
    requires Shape(topo, s) && OnTop(topo, s, u, lsa)
    requires a < |s.stores| && i < |topo.ports[a]| && LinkCovered(topo, s, a, i, j)
    ensures var s' := s.(floors := s.floors[lsa.Key() := Some(lsa.header)]);
            Shape(topo, s') && LinkCovered(topo, s', a, i, j)
  {
    hide Dominates, AtLeast, PacketValid;
    var s' := s.(floors := s.floors[lsa.Key() := Some(lsa.header)]);
    assert Shape(topo, s');
    assert topo.PortValid(a, i);
    var v := topo.ports[a][i].peer;
    if Carried(topo.stub, j.lsType) && s.stores[a].Holds(j) && Counts(s', s.stores[a].Held(j).header) {
      HeldKey(s.stores[a], j);
      var h := s.stores[a].Held(j).header;
      if j == lsa.Key() {
        assert a == u && s.stores[a].Held(j) == lsa;
        assert lsa in [lsa];
        var q :| q in s.inFlight && q.dst == v && lsa in q.lsas;
        assert AtLeast(h, h) by { AtLeastItself(h); }
        assert Pending(s', v, h);
      } else {
        assert Counts(s, h);
      }
    }
  }

  lemma AtLeastItself(h: LsaHeader)
    ensures AtLeast(h, h)
  {
  }

  lemma RenewKeepsHistory(topo: Topology, s: Net, u: nat, lsa: Lsa)
    requires Inv(topo, s) && OnTop(topo, s, u, lsa)
    ensures HistoryKept(s.(floors := s.floors[lsa.Key() := Some(lsa.header)]))
  {
    hide SendersCovered, LinksCovered, SendsAll, Dominates, AtLeast;
    var k := lsa.Key();
    var s' := s.(floors := s.floors[k := Some(lsa.header)]);
    assert WasOriginated(s', lsa);
    forall l | Known(s, l) && (l.Key() == k && AtLeast(l.header, lsa.header) ==> l == lsa) ensures Known(s', l) {
      if l != lsa {
        KnownKept(s, s', l);
      }
    }
    forall a, j | 0 <= a < |s'.stores| && s'.stores[a].Holds(j) ensures Known(s', s'.stores[a].Held(j)) {
      HeldKey(s.stores[a], j);
      assert Known(s, s.stores[a].Held(j));
    }
    forall j | j in s'.floors ensures FloorOriginated(s', j) {
      if j != k {
        FloorKept(s, s', j);
      }
    }
  }

  lemma OriginateKeepsInv(topo: Topology, s: Net, u: nat, lsa: Lsa)
    requires Inv(topo, s) && u < |topo.ports|
    ensures Inv(topo, Originate(topo, s, u, lsa))
  {
    hide InstallAndFlood, OnTop, Tops, Shape, SendersCovered, LinksCovered, HistoryKept;
    FloodKeepsInv(topo, s, u, lsa);
    var s' := InstallAndFlood(topo, s, u, lsa);
    FloodKeepsFloors(topo, s, u, lsa);
    if lsa.Key() in s.floors && Tops(s, lsa) {
      ToppedIsOnTop(topo, s, u, lsa);
      RenewKeepsInv(topo, s', u, lsa);
    } else {
      assert s'.(floors := s.floors) == s';
    }
  }

  lemma FloodKeepsFloors(topo: Topology, s: Net, u: nat, lsa: Lsa)
    requires Shape(topo, s) && u < |topo.ports|
    ensures InstallAndFlood(topo, s, u, lsa).floors == s.floors
  {
  }

  // ---------------------------------------------------------------- changes that are not flooded

  /** A change of one key at one router that loses no rank keeps the invariant for all other keys. */
  lemma TouchKeepsInv(topo: Topology, s: Net, u: nat, store: Store, k: LsaKey)
    requires Inv(topo, s) && u < |s.stores| && store.Valid()
    requires forall h :: Dominates(s.stores[u], h) ==> Dominates(store, h)
    requires forall j :: j != k && store.Holds(j) ==> s.stores[u].Holds(j) && store.Held(j) == s.stores[u].Held(j)
    ensures Inv(topo, s.(stores := s.stores[u := store], floors := s.floors[k := None]))
  {
    hide Dominates, Store.Valid, WasOriginated, Topology.Valid, PacketValid;
    var s' := s.(stores := s.stores[u := store], floors := s.floors[k := None]);
    forall q | q in s'.inFlight ensures SenderCovered(s', q) {
      assert SenderCovered(s, q);
    }
    forall a, i, j | 0 <= a < |s'.stores| && 0 <= i < |topo.ports[a]| ensures LinkCovered(topo, s', a, i, j) {
      assert LinkCovered(topo, s, a, i, j);
      TouchKeepsLink(topo, s, u, store, k, a, i, j);
    }
    TouchKeepsHistory(s, u, store, k);
  }

  lemma TouchKeepsLink(topo: Topology, s: Net, u: nat, store: Store, k: LsaKey, a: nat, i: nat, j: LsaKey)
    requires Shape(topo, s) && u < |s.stores| && store.Valid()
    requires forall h :: Dominates(s.stores[u], h) ==> Dominates(store, h)
    requires forall j :: j != k && store.Holds(j) ==> s.stores[u].Holds(j) && store.Held(j) == s.stores[u].Held(j)
    requires a < |s.stores| && i < |topo.ports[a]| && LinkCovered(topo, s, a, i, j)
    ensures var s' := s.(stores := s.stores[u := store], floors := s.floors[k := None]);
            Shape(topo, s') && LinkCovered(topo, s', a, i, j)
  {
    hide Dominates, Store.Valid, Pending;
    assert topo.PortValid(a, i);
    var s' := s.(stores := s.stores[u := store], floors := s.floors[k := None]);
    assert Shape(topo, s');
    if s'.stores[a].Holds(j) {
      HeldKey(s'.stores[a], j);
    }
    if j != k && s'.stores[a].Holds(j) {
      var h := s.stores[a].Held(j).header;
      var v := topo.ports[a][i].peer;
      assert s'.stores[a].Held(j).header == h;
      if Pending(s, v, h) {
        PendingSame(s, s', v, h);
      }
    }
  }

  lemma PendingSame(s: Net, s': Net, v: nat, h: LsaHeader)
    requires Pending(s, v, h) && s'.inFlight == s.inFlight
    ensures Pending(s', v, h)
  {
  }

  lemma TouchKeepsHistory(s: Net, u: nat, store: Store, k: LsaKey)
    requires HistoryKept(s) && u < |s.stores| && store.Valid()
    requires forall h :: Dominates(s.stores[u], h) ==> Dominates(store, h)
    requires forall j :: j != k && store.Holds(j) ==> s.stores[u].Holds(j) && store.Held(j) == s.stores[u].Held(j)
    ensures HistoryKept(s.(stores := s.stores[u := store], floors := s.floors[k := None]))
  {
    var s' := s.(stores := s.stores[u := store], floors := s.floors[k := None]);
    forall l | Known(s, l) ensures Known(s', l) {
      KnownKept(s, s', l);
    }
    forall j | j in s'.floors ensures FloorOriginated(s', j) {
      if j != k {
        FloorKept(s, s', j);
      }
    }
    forall a, j | 0 <= a < |s'.stores| && s'.stores[a].Holds(j) ensures Known(s', s'.stores[a].Held(j)) {
      if a == u && j == k {
        HeldKey(store, k);
      }
    }
    hide Known, Dominates;
  }

  lemma HeldKey(store: Store, k: LsaKey)
    requires store.Valid() && store.Holds(k)
    ensures store.Held(k).Key() == k
  {
  }

  lemma WithdrawKeepsInv(topo: Topology, s: Net, u: nat, k: LsaKey)
    requires Inv(topo, s) && Withdrawable(topo, s, u, k)
    ensures Inv(topo, Withdraw(topo, s, u, k))
  {
    hide Dominates, Store.Install, SendersCovered, LinksCovered, HistoryKept, ExternalReconciliation.Withdrawal;
    var l := s.stores[u].external[k].lsa;
    var gone := ExternalReconciliation.Withdrawal(l);
    WithdrawalKey(s.stores[u], k);
    InstallEffect(s.stores[u], topo.ids[u], gone);
    var store := s.stores[u].Install(topo.ids[u], gone);
    forall j | j != k && store.Holds(j) ensures s.stores[u].Holds(j) && store.Held(j) == s.stores[u].Held(j) {
      HeldKey(store, j);
    }
    TouchKeepsInv(topo, s, u, store, k);
  }

  lemma WithdrawalKey(store: Store, k: LsaKey)
    requires store.Valid() && k in store.external && ExternalReconciliation.IsExternal(store.external[k].lsa)
    ensures ExternalReconciliation.Withdrawal(store.external[k].lsa).Key() == k
  {
    hide ExternalReconciliation.Withdrawal;
    ExternalReconciliation.WithdrawalHeader(store.external[k].lsa);
  }

  lemma BumpKeepsInv(topo: Topology, s: Net, u: nat, k: LsaKey, newSeq: i32)
    requires Inv(topo, s) && u < |s.stores|
    ensures Inv(topo, Bump(s, u, k, newSeq))
  {
    hide SendersCovered, LinksCovered, HistoryKept, Dominates;
    var store := Bump(s, u, k, newSeq).stores[u];
    BumpEffect(s.stores[u], k, newSeq);
    TouchKeepsInv(topo, s, u, store, k);
  }

  lemma BumpEffect(store: Store, k: LsaKey, newSeq: i32)
    requires store.Valid()
    ensures var after := if k.lsType.AsExternal? then store.(external := Bumped(store.external, k, newSeq))
                         else store.(area := Bumped(store.area, k, newSeq));
            && after.Valid()
            && (forall h :: Dominates(store, h) ==> Dominates(after, h))
            && (forall j :: j != k && after.Holds(j) ==> store.Holds(j) && after.Held(j) == store.Held(j))
  {
  }

  lemma {:induction false} RunKeepsInv(topo: Topology, run: seq<Net>)
    requires IsRun(topo, run)
    ensures Inv(topo, run[|run| - 1])
  {
    hide Inv, Initial, IsStep;
    var n := |run| - 1;
    if n == 0 {
      InitialInv(topo, run[0]);
    } else {
      RunKeepsInv(topo, run[..n]);
      var s, s' := run[n - 1], run[n];
      assert IsStep(topo, run[n - 1], run[n - 1 + 1]);
      StepKeepsInv(topo, s, s');
    }
  }

  lemma StepKeepsInv(topo: Topology, s: Net, s': Net)
    requires Inv(topo, s) && IsStep(topo, s, s')
    ensures Inv(topo, s')
  {
    hide Inv, Deliver, Originate, Withdraw, Bump, Shape, Withdrawable;
    if DeliverStep(topo, s, s') {
      var j :| 0 <= j < |s.inFlight| && s' == Deliver(topo, s, j);
      DeliverKeepsInv(topo, s, j);
    } else if OriginateStep(topo, s, s') {
      var u, lsa :| 0 <= u < |topo.ports| && s' == Originate(topo, s, u, lsa);
      OriginateKeepsInv(topo, s, u, lsa);
    } else if u, k :| Withdrawable(topo, s, u, k) && s' == Withdraw(topo, s, u, k) {
      WithdrawKeepsInv(topo, s, u, k);
    } else {
      var u, k, newSeq :| 0 <= u < |s.stores| && s' == Bump(s, u, k, newSeq);
      BumpKeepsInv(topo, s, u, k, newSeq);
    }
  }

  // ---------------------------------------------------------------- agreement

  ghost predicate IsPath(topo: Topology, path: seq<nat>) {
    && |path| > 0 && (forall x :: 0 <= x < |path| ==> path[x] < |topo.ports|)
    && (forall x :: 0 <= x < |path| - 1 ==> Adjacent(topo, path[x], path[x + 1]))
  }

  ghost predicate Adjacent(topo: Topology, u: nat, v: nat) {
    u < |topo.ports| && exists i :: 0 <= i < |topo.ports[u]| && topo.ports[u][i].peer == v
  }

  ghost predicate Reaches(topo: Topology, u: nat, v: nat) {
    exists path :: IsPath(topo, path) && path[0] == u && path[|path| - 1] == v
  }

  ghost predicate Connected(topo: Topology) {
    forall u, v :: 0 <= u < |topo.ports| && 0 <= v < |topo.ports| ==> Reaches(topo, u, v)
  }

  predicate Settled(s: Net, k: LsaKey) {
    k in s.floors ==> s.floors[k].Some?
  }

  /** With nothing in flight, rank spreads along every path. */
  lemma {:induction false} QuiescentPath(topo: Topology, s: Net, path: seq<nat>, h: LsaHeader)
    requires Inv(topo, s) && s.inFlight == [] && IsPath(topo, path) && |s.stores| == |topo.ports|
    requires Carried(topo.stub, h.lsType) && Counts(s, h) && Dominates(s.stores[path[0]], h)
    ensures Dominates(s.stores[path[|path| - 1]], h)
  {
    hide Dominates, Inv, Adjacent;
    var n := |path| - 1;
    if n > 0 {
      assert Adjacent(topo, path[n - 1], path[n - 1 + 1]);
      QuiescentPath(topo, s, path[..n], h);
      QuiescentLink(topo, s, path[n - 1], path[n], h);
    }
  }

  /** With nothing in flight, a neighbor holds at least as much. */
  lemma QuiescentLink(topo: Topology, s: Net, u: nat, v: nat, h: LsaHeader)
    requires Inv(topo, s) && s.inFlight == [] && Adjacent(topo, u, v)
    requires Carried(topo.stub, h.lsType) && Counts(s, h) && u < |s.stores| && Dominates(s.stores[u], h)
    ensures v < |s.stores| && Dominates(s.stores[v], h)
  {
    hide SendersCovered, HistoryKept, AtLeast;
    var i :| 0 <= i < |topo.ports[u]| && topo.ports[u][i].peer == v;
    assert topo.PortValid(u, i);
    assert LinkCovered(topo, s, u, i, h.Key());
    HeldKey(s.stores[u], h.Key());
    CountsUpwards(s, h, s.stores[u].Held(h.Key()).header);
    DominatesTransitive(s.stores[v], s.stores[u].Held(h.Key()).header, h);
  }

  lemma QuiescentDominates(topo: Topology, s: Net, u: nat, v: nat, k: LsaKey)
    requires Inv(topo, s) && s.inFlight == [] && Connected(topo)
    requires u < |s.stores| && v < |s.stores| && Carried(topo.stub, k.lsType) && s.stores[u].Holds(k)
    requires Counts(s, s.stores[u].Held(k).header)
    ensures Dominates(s.stores[v], s.stores[u].Held(k).header)
  {
    HeldKey(s.stores[u], k);
    assert Reaches(topo, u, v);
    var path :| IsPath(topo, path) && path[0] == u && path[|path| - 1] == v;
    QuiescentPath(topo, s, path, s.stores[u].Held(k).header);
  }

  /**
   Flooding agreement: in every run, once no LSU is in flight, all routers of a connected area hold
   the same instance of every key that the area carries and that is settled: no router has withdrawn or bumped
   it on its own, or an LSA above all there was has been originated since. It is one of the newest ever originated.
   */
  lemma FloodingAgreement(topo: Topology, run: seq<Net>, u: nat, v: nat, k: LsaKey)
    requires IsRun(topo, run) && Connected(topo) && run[|run| - 1].inFlight == []
    requires u < |topo.ports| && v < |topo.ports| && Carried(topo.stub, k.lsType) && Settled(run[|run| - 1], k)
    ensures var s := run[|run| - 1];
            && |s.stores| == |topo.ports|
            && (s.stores[u].Holds(k) <==> exists o :: o in s.originated && o.lsa.Key() == k)
            && (s.stores[u].Holds(k) ==>
                  && s.stores[v].Holds(k)
                  && SameInstance(s.stores[u].Held(k).header, s.stores[v].Held(k).header)
                  && WasOriginated(s, s.stores[u].Held(k))
                  && (forall o :: o in s.originated && o.lsa.Key() == k ==>
                        AtLeast(s.stores[u].Held(k).header, o.lsa.header)))
  {
    hide Inv, Connected, WasOriginated, Initial, IsStep, Store.Holds, Store.Held, AtLeast, SameInstance, Settled;
    RunKeepsInv(topo, run);
    SameStores(topo, run[|run| - 1]);
    AgreementAt(topo, run[|run| - 1], u, v, k);
  }

  lemma SameStores(topo: Topology, s: Net)
    requires Inv(topo, s)
    ensures |s.stores| == |topo.ports|
  {
  }

  /** What was originated and counts has reached everyone. */
  lemma OriginationReached(topo: Topology, s: Net, u: nat, o: Origination)
    requires Inv(topo, s) && s.inFlight == [] && Connected(topo) && u < |s.stores|
    requires Carried(topo.stub, o.lsa.header.lsType) && Counts(s, o.lsa.header) && o in s.originated
    ensures Dominates(s.stores[u], o.lsa.header)
  {
    hide LinksCovered, SendersCovered, Connected, AtLeast, WasOriginated, Counts;
    assert Dominates(s.stores[o.router], o.lsa.header);
    HeldKey(s.stores[o.router], o.lsa.Key());
    CountsUpwards(s, o.lsa.header, s.stores[o.router].Held(o.lsa.Key()).header);
    QuiescentDominates(topo, s, o.router, u, o.lsa.Key());
    DominatesTransitive(s.stores[u], s.stores[o.router].Held(o.lsa.Key()).header, o.lsa.header);
  }

  /** So has everything originated under a settled key, or something above it. */
  lemma SettledReached(topo: Topology, s: Net, u: nat, o: Origination)
    requires Inv(topo, s) && s.inFlight == [] && Connected(topo) && u < |s.stores|
    requires Carried(topo.stub, o.lsa.header.lsType) && Settled(s, o.lsa.Key()) && o in s.originated
    ensures Dominates(s.stores[u], o.lsa.header)
  {
    if Counts(s, o.lsa.header) {
      OriginationReached(topo, s, u, o);
    } else {
      var floor := FloorReached(topo, s, u, o.lsa.Key());
      assert AtLeast(floor, o.lsa.header);
      hide Inv, Connected;
      DominatesTransitive(s.stores[u], floor, o.lsa.header);
    }
  }

  lemma FloorReached(topo: Topology, s: Net, u: nat, k: LsaKey) returns (floor: LsaHeader)
    requires Inv(topo, s) && s.inFlight == [] && Connected(topo) && u < |s.stores|
    requires Carried(topo.stub, k.lsType) && k in s.floors && s.floors[k].Some?
    ensures floor == s.floors[k].value && floor.Key() == k && Dominates(s.stores[u], floor)
  {
    hide LinksCovered, SendersCovered, Connected, Dominates, WasOriginated;
    assert FloorOriginated(s, k);
    floor := s.floors[k].value;
    var o :| o in s.originated && o.lsa.Key() == k && o.lsa.header == floor;
    OriginationReached(topo, s, u, o);
  }

  /** What is held under a settled key counts. */
  lemma HeldCounts(topo: Topology, s: Net, u: nat, k: LsaKey)
    requires Inv(topo, s) && s.inFlight == [] && Connected(topo)
    requires Carried(topo.stub, k.lsType) && Settled(s, k) && u < |s.stores| && s.stores[u].Holds(k)
    ensures Counts(s, s.stores[u].Held(k).header) && s.stores[u].Held(k).Key() == k
  {
    assert s.stores[u].Valid();
    HeldKey(s.stores[u], k);
    if k in s.floors {
      var floor := FloorReached(topo, s, u, k);
    }
  }

  lemma HeldWasOriginated(topo: Topology, s: Net, u: nat, k: LsaKey)
    requires Inv(topo, s) && u < |s.stores| && s.stores[u].Holds(k) && Counts(s, s.stores[u].Held(k).header)
    ensures WasOriginated(s, s.stores[u].Held(k))
  {
    hide LinksCovered, SendersCovered, Dominates, WasOriginated, Counts;
    assert Known(s, s.stores[u].Held(k));
  }

  lemma AgreementAt(topo: Topology, s: Net, u: nat, v: nat, k: LsaKey)
    requires Inv(topo, s) && s.inFlight == [] && Connected(topo) && |s.stores| == |topo.ports|
    requires u < |s.stores| && v < |s.stores| && Carried(topo.stub, k.lsType) && Settled(s, k)
    ensures s.stores[u].Holds(k) <==> exists o :: o in s.originated && o.lsa.Key() == k
    ensures s.stores[u].Holds(k) ==>
              && s.stores[v].Holds(k)
              && SameInstance(s.stores[u].Held(k).header, s.stores[v].Held(k).header)
              && WasOriginated(s, s.stores[u].Held(k))
              && (forall o :: o in s.originated && o.lsa.Key() == k ==>
                    AtLeast(s.stores[u].Held(k).header, o.lsa.header))
  {
    hide Inv, Connected, Store.Holds, Store.Held, Settled, Counts;
    forall o | o in s.originated && o.lsa.Key() == k
      ensures s.stores[u].Holds(k) && AtLeast(s.stores[u].Held(k).header, o.lsa.header)
    {
      SettledReached(topo, s, u, o);
    }
    if s.stores[u].Holds(k) {
      HeldCounts(topo, s, u, k);
      HeldWasOriginated(topo, s, u, k);
      QuiescentDominates(topo, s, u, v, k);
      HeldCounts(topo, s, v, k);
      QuiescentDominates(topo, s, v, u, k);
    }
  }

  /** The condition on the key is needed: a Type 5 LSA originated in a stub area never leaves its
      originator. */
  lemma UncarriedKeysDiverge(topo: Topology, s: Net, u: nat, v: nat, lsa: Lsa)
    requires Initial(topo, s) && u < |topo.ports| && v < |topo.ports| && u != v
    requires !Carried(topo.stub, lsa.header.lsType)
    ensures Shape(topo, s)
    ensures var s' := Originate(topo, s, u, lsa);
            && IsRun(topo, [s, s']) && s'.inFlight == []
            && s'.stores[u].Holds(lsa.Key()) && !s'.stores[v].Holds(lsa.Key())
  {
    InitialInv(topo, s);
    OriginationSends(topo, u, lsa);
    var sent := SentOnOrigination(topo, u, lsa);
    var n := |topo.ports[u]|;
    NothingFlooded(topo.Interfaces(u), topo.stub, topo.ids[u], lsa, n);
    var s' := Originate(topo, s, u, lsa);
    assert OriginateStep(topo, s, s');
  }

  lemma {:induction false} NothingFlooded(ifaces: seq<Interface>, stub: bool, id: u32, lsa: Lsa, n: nat)
    requires n <= |ifaces| && !Carried(stub, lsa.header.lsType)
    ensures FloodOut(ifaces, stub, None, id, [lsa], n) == []
  {
    assert [lsa][..0] == [];
    assert Admitted(stub, [lsa]) == [];
    if n > 0 {
      NothingFlooded(ifaces, stub, id, lsa, n - 1);
    }
  }

  /** The condition on changes is needed: once a network has come to rest, withdrawing a Type 5 LSA below the
      maximum sequence number makes its originator disagree with everyone else, with nothing in flight. */
  lemma WithdrawalDiverges(topo: Topology, run: seq<Net>, u: nat, v: nat, k: LsaKey)
    requires IsRun(topo, run) && Connected(topo) && run[|run| - 1].inFlight == [] && !topo.stub
    requires u < |topo.ports| && v < |topo.ports| && u != v && Settled(run[|run| - 1], k)
    requires Withdrawable(topo, run[|run| - 1], u, k)
    requires run[|run| - 1].stores[u].external[k].lsa.header.lsSequenceNumber < MAX_SEQUENCE_NUMBER
    ensures var s' := Withdraw(topo, run[|run| - 1], u, k);
            && IsRun(topo, run + [s']) && s'.inFlight == [] && |s'.stores| == |topo.ports|
            && s'.stores[u].Holds(k) && s'.stores[v].Holds(k)
            && !SameInstance(s'.stores[u].Held(k).header, s'.stores[v].Held(k).header)
  {
    hide Withdraw, Inv, Connected, Initial, DeliverStep, OriginateStep, WasOriginated, Withdrawable, Shape, Settled;
    var s := run[|run| - 1];
    var s' := Withdraw(topo, s, u, k);
    RunKeepsInv(topo, run);
    InvShape(topo, s);
    WithdrawnRank(topo, s, u, k);
    FloodingAgreement(topo, run, u, v, k);
    assert LocalStep(topo, s, s');
    hide LocalStep;
    var longer := run + [s'];
    forall i | 0 <= i < |longer| - 1 ensures IsStep(topo, longer[i], longer[i + 1]) {
      assert i < |run| - 1 ==> IsStep(topo, run[i], run[i + 1]);
    }
  }

  /** The next origination of the withdrawn LSA, numbered above what its originator holds, settles the key again. */
  lemma RenewalSettles(topo: Topology, run: seq<Net>, u: nat, k: LsaKey, lsa: Lsa)
    requires IsRun(topo, run) && Connected(topo) && run[|run| - 1].inFlight == [] && !topo.stub
    requires u < |topo.ports| && Settled(run[|run| - 1], k) && Withdrawable(topo, run[|run| - 1], u, k) && lsa.Key() == k
    requires run[|run| - 1].stores[u].external[k].lsa.header.lsSequenceNumber < MAX_SEQUENCE_NUMBER
    requires lsa.header.lsSequenceNumber > run[|run| - 1].stores[u].external[k].lsa.header.lsSequenceNumber + 1
    ensures var s' := Withdraw(topo, run[|run| - 1], u, k);
            Shape(topo, s') && Settled(Originate(topo, s', u, lsa), k)
  {
    hide Withdraw, Inv, Connected, Initial, IsStep, WasOriginated, Withdrawable, InstallAndFlood;
    var s := run[|run| - 1];
    var s' := Withdraw(topo, s, u, k);
    RunKeepsInv(topo, run);
    InvShape(topo, s);
    WithdrawKeepsInv(topo, s, u, k);
    InvShape(topo, s');
    WithdrawnRank(topo, s, u, k);
    WithdrawnHeld(topo, s, u, k);
    forall v | 0 <= v < |s'.stores| && s'.stores[v].Holds(k) ensures !AtLeast(s'.stores[v].Held(k).header, lsa.header) {
      if v != u {
        FloodingAgreement(topo, run, u, v, k);
      }
    }
    assert Tops(s', lsa);
  }

  lemma WithdrawnHeld(topo: Topology, s: Net, u: nat, k: LsaKey)
    requires Shape(topo, s) && Withdrawable(topo, s, u, k)
    ensures s.stores[u].Holds(k) && s.stores[u].Held(k) == s.stores[u].external[k].lsa
    ensures k in Withdraw(topo, s, u, k).floors
  {
    hide ExternalReconciliation.Withdrawal, PacketValid, Topology.Valid;
  }

  lemma InvShape(topo: Topology, s: Net)
    requires Inv(topo, s)
    ensures Shape(topo, s)
  {
  }

  /** The originator ends one sequence number ahead, the others stay where they are. */
  lemma WithdrawnRank(topo: Topology, s: Net, u: nat, k: LsaKey)
    requires Shape(topo, s) && Withdrawable(topo, s, u, k)
    requires s.stores[u].external[k].lsa.header.lsSequenceNumber < MAX_SEQUENCE_NUMBER
    ensures var s' := Withdraw(topo, s, u, k);
            && k.lsType.AsExternal? && s.stores[u].Holds(k) && s'.stores[u].Holds(k)
            && s'.stores[u].Held(k).header.lsSequenceNumber == s.stores[u].Held(k).header.lsSequenceNumber + 1
            && s'.inFlight == s.inFlight && |s'.stores| == |s.stores|
            && forall v :: 0 <= v < |s.stores| && v != u ==> s'.stores[v] == s.stores[v]
  {
    hide ExternalReconciliation.Withdrawal, PacketValid, Topology.Valid;
    var l := s.stores[u].external[k].lsa;
    ExternalReconciliation.WithdrawalHeader(l);
    WithdrawalInstalled(s.stores[u], topo.ids[u], k, ExternalReconciliation.Withdrawal(l));
  }

  lemma WithdrawalInstalled(store: Store, routerId: u32, k: LsaKey, gone: Lsa)
    requires store.Valid() && k in store.external && gone.Key() == k
    requires gone.header.lsSequenceNumber > store.external[k].lsa.header.lsSequenceNumber
    ensures k.lsType.AsExternal? && store.Holds(k) && store.Held(k) == store.external[k].lsa
    ensures var after := store.Install(routerId, gone); after.Holds(k) && after.Held(k) == gone
  {
  }
}

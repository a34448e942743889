/**
 Flooding stops: without further originations the number of LSUs delivered, including the newer
 copies sent back for older ones, is bounded by a budget computed from the state.
 */
module FloodingTermination {
  import opened Numbers
  import opened LsaTypes
  import opened LinkStateDatabase
  import opened Instance
  import opened Flooding

  // ---------------------------------------------------------------- the budget

  /** The LSAs of the universe newer than `l`, under the same key. */
  ghost function Above(all: set<Lsa>, l: Lsa): set<Lsa> {
    set x | x in all && x.Key() == l.Key() && Newer(x.header, l.header)
  }

  /** An LSA in flight may be answered by a newer copy, that one by a newer still, and so on. */
  ghost function Weight(all: set<Lsa>, l: Lsa): nat {
    2 * |Above(all, l)| + 2
  }

  ghost function ListWeight(all: set<Lsa>, lsas: seq<Lsa>): nat {
    if lsas == [] then 0 else ListWeight(all, lsas[..|lsas| - 1]) + Weight(all, lsas[|lsas| - 1])
  }

  ghost function Load(all: set<Lsa>, packets: seq<Packet>): nat {
    if packets == [] then 0
    else Load(all, packets[..|packets| - 1]) + 1 + ListWeight(all, packets[|packets| - 1].lsas)
  }

  predicate Improves(store: Store, l: Lsa) {
    !store.Holds(l.Key()) || Newer(l.header, store.Held(l.Key()).header)
  }

  /** The LSAs of the universe a router would still install. */
  ghost function Better(all: set<Lsa>, store: Store): set<Lsa> {
    set x | x in all && Improves(store, x)
  }

  ghost function Room(all: set<Lsa>, stores: seq<Store>): nat {
    if stores == [] then 0 else Room(all, stores[..|stores| - 1]) + |Better(all, stores[|stores| - 1])|
  }

  function TotalPorts(ports: seq<seq<Port>>): nat {
    if ports == [] then 0 else TotalPorts(ports[..|ports| - 1]) + |ports[|ports| - 1]|
  }

  /** What one installation can cost: an LSU on every port. */
  ghost function PerInstall(topo: Topology, all: set<Lsa>): nat {
    TotalPorts(topo.ports) * (2 * |all| + 3)
  }

  ghost function Budget(topo: Topology, all: set<Lsa>, s: Net): nat {
    PerInstall(topo, all) * Room(all, s.stores) + Load(all, s.inFlight)
  }

  // ---------------------------------------------------------------- the universe

  ghost predicate StoreWithin(all: set<Lsa>, store: Store) {
    forall k :: store.Holds(k) ==> store.Held(k) in all
  }

  ghost predicate Within(all: set<Lsa>, s: Net) {
    && (forall u :: 0 <= u < |s.stores| ==> StoreWithin(all, s.stores[u]))
    && (forall q, l :: q in s.inFlight && l in q.lsas ==> l in all)
  }

  ghost function StoredLsas(stores: seq<Store>): set<Lsa> {
    if stores == [] then {}
    else
      var last := stores[|stores| - 1];
      StoredLsas(stores[..|stores| - 1])
      + (set k | k in last.area :: last.area[k].lsa) + (set k | k in last.external :: last.external[k].lsa)
  }

  ghost function FlyingLsas(packets: seq<Packet>): set<Lsa> {
    if packets == [] then {} else FlyingLsas(packets[..|packets| - 1]) + Elements(packets[|packets| - 1].lsas)
  }

  /** Every LSA present anywhere in the network. */
  ghost function Universe(s: Net): set<Lsa> {
    StoredLsas(s.stores) + FlyingLsas(s.inFlight)
  }

  lemma {:induction false} StoredLsasCover(stores: seq<Store>, u: nat)
    requires u < |stores|
    ensures StoreWithin(StoredLsas(stores), stores[u])
  {
    var n := |stores| - 1;
    if u < n {
      StoredLsasCover(stores[..n], u);
    }
  }

  lemma {:induction false} FlyingLsasCover(packets: seq<Packet>, q: Packet, l: Lsa)
    requires q in packets && l in q.lsas
    ensures l in FlyingLsas(packets)
  {
    var n := |packets| - 1;
    if q != packets[n] {
      assert packets == packets[..n] + [packets[n]];
      FlyingLsasCover(packets[..n], q, l);
    }
  }

  lemma UniverseCovers(s: Net)
    ensures Within(Universe(s), s)
  {
    forall u | 0 <= u < |s.stores| ensures StoreWithin(Universe(s), s.stores[u]) {
      StoredLsasCover(s.stores, u);
    }
    forall q, l | q in s.inFlight && l in q.lsas ensures l in Universe(s) {
      FlyingLsasCover(s.inFlight, q, l);
    }
  }

  // ---------------------------------------------------------------- one router

  lemma StrictSubsetSmaller<T>(a: set<T>, b: set<T>, x: T)
    requires a <= b && x in b && x !in a
    ensures |a| < |b|
  {
    assert b == (b - a) + a;
    assert x in b - a;
  }

  lemma SubsetSmaller<T>(a: set<T>, b: set<T>)
    requires a <= b
    ensures |a| <= |b|
  {
    assert b == (b - a) + a;
  }

  lemma NewerTransitive(a: LsaHeader, b: LsaHeader, c: LsaHeader)
    requires Newer(a, b) && Newer(b, c)
    ensures Newer(a, c)
  {
  }

  /** Installing an LSA of the universe leaves strictly less to install. */
  lemma InstallShrinksBetter(all: set<Lsa>, store: Store, routerId: u32, lsa: Lsa)
    requires store.Valid() && lsa in all && Verdict(store.Slot(lsa.header.lsType), lsa).Changed()
    ensures |Better(all, store.Install(routerId, lsa))| < |Better(all, store)|
  {
    var after := store.Install(routerId, lsa);
    InstallVerdict(store, routerId, lsa);
    forall x | x in Better(all, after) ensures x in Better(all, store) {
      if x.Key() == lsa.Key() && store.Holds(lsa.Key()) {
        NewerTransitive(x.header, lsa.header, store.Held(lsa.Key()).header);
      }
    }
    StrictSubsetSmaller(Better(all, after), Better(all, store), lsa);
  }

  /** The copy sent back weighs less than the older LSA that asked for it. */
  lemma ReplyIsLighter(all: set<Lsa>, older: Lsa, ours: Lsa)
    requires ours in all && ours.Key() == older.Key() && Newer(ours.header, older.header)
    ensures 1 + Weight(all, ours) <= Weight(all, older)
  {
    forall x | x in Above(all, ours) ensures x in Above(all, older) {
      NewerTransitive(x.header, ours.header, older.header);
    }
    StrictSubsetSmaller(Above(all, ours), Above(all, older), ours);
  }

  /** What processing an LSU spends: room for each installation, and the LSU's own weight for the
      copies sent back. */
  ghost predicate Spends(all: set<Lsa>, store: Store, lsas: seq<Lsa>, o: Outcome) {
    && o.store.Valid() && StoreWithin(all, o.store)
    && |Better(all, o.store)| + |o.changed| <= |Better(all, store)|
    && ListWeight(all, o.replies) + |o.replies| <= ListWeight(all, lsas)
    && (forall l :: l in o.changed || l in o.replies ==> l in all)
  }

  lemma ReceiveOneSpends(all: set<Lsa>, stub: bool, routerId: u32, store: Store, lsas: seq<Lsa>, o: Outcome, lsa: Lsa)
    requires Spends(all, store, lsas, o) && lsa in all
    ensures Spends(all, store, lsas + [lsa], ReceiveOne(stub, routerId, o, lsa))
  {
    hide Better, Weight, Verdict, Store.Install, Newer, Dominates;
    assert (lsas + [lsa])[..|lsas|] == lsas;
    if Carried(stub, lsa.header.lsType) {
      InstallEffect(o.store, routerId, lsa);
      InstallVerdict(o.store, routerId, lsa);
      match Verdict(o.store.Slot(lsa.header.lsType), lsa)
      case New | Updated => InstallShrinksBetter(all, o.store, routerId, lsa);
      case Duplicate =>
      case Older =>
        OlderIsAnswered(o.store, lsa);
        if lsa.Key() in o.store.area {
          var ours := o.store.Held(lsa.Key());
          ReplyIsLighter(all, lsa, ours);
          assert (o.replies + [ours])[..|o.replies|] == o.replies;
        }
    }
  }

  lemma {:induction false} ReceiveSpends(all: set<Lsa>, stub: bool, routerId: u32, store: Store, lsas: seq<Lsa>)
    requires store.Valid() && StoreWithin(all, store)
    requires forall l :: l in lsas ==> l in all
    ensures Spends(all, store, lsas, Receive(stub, routerId, store, lsas))
  {
    if lsas != [] {
      var n := |lsas| - 1;
      ReceiveSpends(all, stub, routerId, store, lsas[..n]);
      ReceiveOneSpends(all, stub, routerId, store, lsas[..n], Receive(stub, routerId, store, lsas[..n]), lsas[n]);
      assert lsas[..n] + [lsas[n]] == lsas;
    }
  }

  // ---------------------------------------------------------------- what is sent

  lemma {:induction false} LoadConcat(all: set<Lsa>, a: seq<Packet>, b: seq<Packet>)
    ensures Load(all, a + b) == Load(all, a) + Load(all, b)
  {
    if b == [] {
      assert a + b == a;
    } else {
      var n := |b| - 1;
      assert (a + b)[..|a + b| - 1] == a + b[..n];
      LoadConcat(all, a, b[..n]);
    }
  }

  lemma {:induction false} TransmitConcat(topo: Topology, u: nat, a: seq<Response>, b: seq<Response>)
    requires u < |topo.ports|
    ensures Transmit(topo, u, a + b) == Transmit(topo, u, a) + Transmit(topo, u, b)
  {
    if b == [] {
      assert a + b == a;
    } else {
      var n := |b| - 1;
      assert (a + b)[..|a + b| - 1] == a + b[..n];
      TransmitConcat(topo, u, a, b[..n]);
    }
  }

  lemma {:induction false} RepliesLoad(all: set<Lsa>, topo: Topology, u: nat, port: nat, lsas: seq<Lsa>)
    requires u < |topo.ports|
    ensures Load(all, Transmit(topo, u, Replies(port, lsas))) <= ListWeight(all, lsas) + |lsas|
  {
    if lsas != [] {
      var n := |lsas| - 1;
      RepliesLoad(all, topo, u, port, lsas[..n]);
      assert Replies(port, lsas)[..n] == Replies(port, lsas[..n]);
      SingleWeight(all, lsas[n]);
    }
  }

  lemma SingleWeight(all: set<Lsa>, l: Lsa)
    ensures ListWeight(all, [l]) == Weight(all, l)
  {
    assert [l][..0] == [];
  }

  lemma AboveBounded(all: set<Lsa>, l: Lsa)
    ensures |Above(all, l)| <= |all|
  {
    SubsetSmaller(Above(all, l), all);
  }

  lemma {:induction false} AdmittedWeight(all: set<Lsa>, stub: bool, lsas: seq<Lsa>)
    ensures ListWeight(all, Admitted(stub, lsas)) <= |lsas| * (2 * |all| + 2)
  {
    if lsas != [] {
      hide Above;
      var n := |lsas| - 1;
      var front := Admitted(stub, lsas[..n]);
      AdmittedWeight(all, stub, lsas[..n]);
      AboveBounded(all, lsas[n]);
      assert (front + [lsas[n]])[..|front|] == front;
      MulStep(|lsas|, 2 * |all| + 2);
    }
  }

  lemma {:induction false} FloodLoad(all: set<Lsa>, topo: Topology, u: nat, ifaces: seq<Interface>, input: Option<nat>,
                                     fromRouter: u32, lsas: seq<Lsa>, n: nat)
    requires u < |topo.ports| && n <= |ifaces|
    ensures Load(all, Transmit(topo, u, FloodOut(ifaces, topo.stub, input, fromRouter, lsas, n)))
            <= n * (1 + ListWeight(all, Admitted(topo.stub, lsas)))
  {
    hide ListWeight, Admitted, Floods, Transmit, Load;
    if n > 0 {
      FloodLoad(all, topo, u, ifaces, input, fromRouter, lsas, n - 1);
      var admitted := Admitted(topo.stub, lsas);
      var front := FloodOut(ifaces, topo.stub, input, fromRouter, lsas, n - 1);
      MulStep(n, 1 + ListWeight(all, admitted));
      if Floods(ifaces, n - 1, input, fromRouter, admitted) {
        OneMoreLoad(all, topo, u, front, Flood(n - 1, admitted));
      } else {
        assert front + [] == front;
      }
    } else {
      NothingLoads(all, topo, u);
    }
  }

  lemma OneMoreLoad(all: set<Lsa>, topo: Topology, u: nat, front: seq<Response>, r: Response)
    requires u < |topo.ports| && !r.Acknowledge?
    ensures Load(all, Transmit(topo, u, front + [r])) <= Load(all, Transmit(topo, u, front)) + 1 + ListWeight(all, r.lsas)
  {
    assert (front + [r])[..|front|] == front;
  }

  lemma {:induction false} PortsBound(ports: seq<seq<Port>>, u: nat)
    requires u < |ports|
    ensures |ports[u]| <= TotalPorts(ports)
  {
    if u < |ports| - 1 {
      PortsBound(ports[..|ports| - 1], u);
    }
  }

  /** Flooding `c` changed LSAs costs at most `c` installations' worth. */
  lemma FloodCost(n: nat, total: nat, c: nat, weight: nat, cap: nat)
    requires n <= total && c >= 1 && weight <= c * cap
    ensures n * (1 + weight) <= total * (cap + 1) * c
  {
    assert 1 + weight <= c * (cap + 1);
    calc {
      n * (1 + weight);
    <= { MulMonotone(n, total, 1 + weight); }
      total * (1 + weight);
    <= { MulMonotone(1 + weight, c * (cap + 1), total); }
      total * (c * (cap + 1));
      total * (cap + 1) * c;
    }
  }

  lemma MulMonotone(a: nat, b: nat, m: nat)
    requires a <= b
    ensures a * m <= b * m && m * a <= m * b
  {
  }

  /** Acknowledgments weigh nothing; the other parts add up. */
  lemma PartsLoad(all: set<Lsa>, topo: Topology, u: nat, replies: seq<Response>, acks: seq<Response>, floods: seq<Response>)
    requires u < |topo.ports| && (acks == [] || (|acks| == 1 && acks[0].Acknowledge?))
    ensures Load(all, Transmit(topo, u, replies + acks + floods))
            == Load(all, Transmit(topo, u, replies)) + Load(all, Transmit(topo, u, floods))
  {
    TransmitConcat(topo, u, replies + acks, floods);
    TransmitConcat(topo, u, replies, acks);
    LoadConcat(all, Transmit(topo, u, replies + acks), Transmit(topo, u, floods));
    assert Transmit(topo, u, acks) == [] by {
      assert acks != [] ==> acks[..0] == [];
    }
    assert Transmit(topo, u, replies) + [] == Transmit(topo, u, replies);
  }

  lemma FloodsLoad(all: set<Lsa>, topo: Topology, u: nat, ifaces: seq<Interface>, input: Option<nat>, fromRouter: u32,
                   changed: seq<Lsa>)
    requires u < |topo.ports| && |ifaces| == |topo.ports[u]| && changed != []
    ensures Load(all, Transmit(topo, u, FloodOut(ifaces, topo.stub, input, fromRouter, changed, |ifaces|)))
            <= PerInstall(topo, all) * |changed|
  {
    hide Load, Transmit, FloodOut, ListWeight;
    FloodLoad(all, topo, u, ifaces, input, fromRouter, changed, |ifaces|);
    AdmittedWeight(all, topo.stub, changed);
    PortsBound(topo.ports, u);
    FloodCost(|ifaces|, TotalPorts(topo.ports), |changed|, ListWeight(all, Admitted(topo.stub, changed)), 2 * |all| + 2);
  }

  /** The load a delivery puts on the wire. */
  lemma SentLoad(topo: Topology, all: set<Lsa>, s: Net, j: nat)
    requires Shape(topo, s) && j < |s.inFlight|
    ensures var o := ReceiptOf(topo, s, j);
            Load(all, SentOnReceipt(topo, s, j))
            <= ListWeight(all, o.replies) + |o.replies| + PerInstall(topo, all) * |o.changed|
  {
    hide Receive, ListWeight, Load, PerInstall, Replies, FloodOut, Topology.PortValid, Topology.Interfaces;
    var p := s.inFlight[j];
    assert PacketValid(topo, p);
    var o := ReceiptOf(topo, s, j);
    var u := p.dst;
    var acks := if o.acks == [] then [] else [Acknowledge(p.port, o.acks)];
    var ifaces := topo.Interfaces(u);
    RepliesLoad(all, topo, u, p.port, o.replies);
    if o.changed == [] {
      PartsLoad(all, topo, u, Replies(p.port, o.replies), acks, []);
      NothingLoads(all, topo, u);
    } else {
      PartsLoad(all, topo, u, Replies(p.port, o.replies), acks,
                FloodOut(ifaces, topo.stub, Some(p.port), topo.ids[p.src], o.changed, |ifaces|));
      FloodsLoad(all, topo, u, ifaces, Some(p.port), topo.ids[p.src], o.changed);
    }
  }

  lemma NothingLoads(all: set<Lsa>, topo: Topology, u: nat)
    requires u < |topo.ports|
    ensures Load(all, Transmit(topo, u, [])) == 0
  {
  }

  lemma {:induction false} RoomAfterUpdate(all: set<Lsa>, stores: seq<Store>, u: nat, store: Store)
    requires u < |stores|
    ensures Room(all, stores[u := store]) + |Better(all, stores[u])| == Room(all, stores) + |Better(all, store)|
  {
    var n := |stores| - 1;
    if u == n {
      assert stores[u := store][..n] == stores[..n];
    } else {
      assert stores[u := store][..n] == stores[..n][u := store];
      RoomAfterUpdate(all, stores[..n], u, store);
    }
  }

  // ---------------------------------------------------------------- the theorem

  lemma BudgetArithmetic(per: nat, room: nat, room': nat, c: nat, load: nat, load': nat)
    requires room' + c <= room && load' + 1 <= load + per * c
    ensures per * room' + load' < per * room + load
  {
    calc {
      per * room' + per * c;
      per * (room' + c);
    <= { MulMonotone(room' + c, room, per); }
      per * room;
    }
  }

  lemma RemovedLoad(all: set<Lsa>, packets: seq<Packet>, j: nat)
    requires j < |packets|
    ensures Load(all, packets[..j] + packets[j + 1..]) + 1 + ListWeight(all, packets[j].lsas) == Load(all, packets)
  {
    LoadConcat(all, packets[..j], packets[j + 1..]);
    LoadConcat(all, packets[..j + 1], packets[j + 1..]);
    assert packets == packets[..j + 1] + packets[j + 1..];
    assert packets[..j + 1][..j] == packets[..j];
  }

  /** Every delivery spends at least one unit of the budget and brings in no new LSA. */
  lemma DeliverSpends(topo: Topology, all: set<Lsa>, s: Net, j: nat)
    requires Shape(topo, s) && Within(all, s) && j < |s.inFlight|
    ensures Budget(topo, all, Deliver(topo, s, j)) < Budget(topo, all, s)
  {
    hide SentOnReceipt, Receive, ListWeight, Better, PerInstall, Topology.PortValid;
    var p := s.inFlight[j];
    var o := ReceiptOf(topo, s, j);
    assert PacketValid(topo, p) && p in s.inFlight;
    ReceiveSpends(all, topo.stub, topo.ids[p.dst], s.stores[p.dst], p.lsas);
    SentLoad(topo, all, s, j);
    RoomAfterUpdate(all, s.stores, p.dst, o.store);
    RemovedLoad(all, s.inFlight, j);
    LoadConcat(all, s.inFlight[..j] + s.inFlight[j + 1..], SentOnReceipt(topo, s, j));
    var s' := Deliver(topo, s, j);
    BudgetArithmetic(PerInstall(topo, all), Room(all, s.stores), Room(all, s'.stores), |o.changed|,
                     Load(all, s.inFlight), Load(all, s'.inFlight));
  }

  lemma DeliverStaysWithin(topo: Topology, all: set<Lsa>, s: Net, j: nat)
    requires Shape(topo, s) && Within(all, s) && j < |s.inFlight|
    ensures Shape(topo, Deliver(topo, s, j)) && Within(all, Deliver(topo, s, j))
  {
    hide SentOnReceipt, Receive, Better, ListWeight, Topology.PortValid;
    var p := s.inFlight[j];
    var o := ReceiptOf(topo, s, j);
    assert PacketValid(topo, p) && p in s.inFlight;
    ReceiveSpends(all, topo.stub, topo.ids[p.dst], s.stores[p.dst], p.lsas);
    ReceiptSends(topo, s, j);
    var s' := Deliver(topo, s, j);
    forall i | 0 <= i < |s'.inFlight| ensures PacketValid(topo, s'.inFlight[i]) {
      assert s'.inFlight[i] in s.inFlight || s'.inFlight[i] in SentOnReceipt(topo, s, j);
    }
  }

  ghost predicate IsDeliveryRun(topo: Topology, run: seq<Net>) {
    && |run| > 0
    && (forall i :: 0 <= i < |run| - 1 ==> DeliverStep(topo, run[i], run[i + 1]))
  }

  lemma {:induction false} DeliveryRunSpends(topo: Topology, all: set<Lsa>, run: seq<Net>)
    requires IsDeliveryRun(topo, run) && Shape(topo, run[0]) && Within(all, run[0])
    ensures Shape(topo, run[|run| - 1]) && Within(all, run[|run| - 1])
    ensures Budget(topo, all, run[|run| - 1]) + |run| - 1 <= Budget(topo, all, run[0])
  {
    hide Budget, Within, Shape;
    var n := |run| - 1;
    if n > 0 {
      DeliveryRunSpends(topo, all, run[..n]);
      assert DeliverStep(topo, run[n - 1], run[n - 1 + 1]);
      var j :| 0 <= j < |run[n - 1].inFlight| && run[n] == Deliver(topo, run[n - 1], j);
      DeliverSpends(topo, all, run[n - 1], j);
      DeliverStaysWithin(topo, all, run[n - 1], j);
    }
  }

  /**
   Flooding termination: from any state, whatever the order of delivery, at most `Budget` LSUs are
   delivered before none is left.
   */
  lemma FloodingTerminates(topo: Topology, run: seq<Net>)
    requires IsDeliveryRun(topo, run) && Shape(topo, run[0])
    ensures |run| - 1 <= Budget(topo, Universe(run[0]), run[0])
  {
    UniverseCovers(run[0]);
    DeliveryRunSpends(topo, Universe(run[0]), run);
  }
}

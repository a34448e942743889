/**
 Designated-router election of src/instance_v3.rs (section 4.2.5 of RFC 5340, section 9.4 of
 RFC 2328): one election on an arbitrary view.
 */
module Election {
  import opened Numbers
  import opened OspfV3Types

  datatype Neighbor = Neighbor(priority: u8, dr: u32, bdr: u32, state: NeighborStateV3)

  datatype Candidate = Candidate(routerId: u32, priority: u8, declaredDr: u32, declaredBdr: u32) {
    predicate DeclaresDr() {
      declaredDr == routerId
    }

    predicate DeclaresBdr() {
      declaredBdr == routerId
    }
  }

  /** What a router knows of a segment: its own settings and declarations, and its neighbors by
      router id (packets carrying our own id are dropped before they get here). */
  datatype View = View(selfId: u32, priority: u8, dr: u32, bdr: u32, neighbors: map<u32, Neighbor>) {
    predicate Valid() {
      selfId !in neighbors
    }
  }

  datatype Roles = Roles(dr: u32, bdr: u32)

  datatype InterfaceState = Waiting | DR | Backup | DROther

  predicate Takes(n: Neighbor) {
    n.state.AtLeast(TwoWay) && n.priority > 0
  }

  function CandidateOf(id: u32, n: Neighbor): Candidate {
    Candidate(id, n.priority, n.dr, n.bdr)
  }

  /** Eligible neighbors and ourselves, with the declarations given for ourselves. */
  function Candidates(v: View, self: Roles): set<Candidate> {
    (set id | id in v.neighbors && Takes(v.neighbors[id]) :: CandidateOf(id, v.neighbors[id]))
    + if v.priority > 0 then {Candidate(v.selfId, v.priority, self.dr, self.bdr)} else {}
  }

  /** The order of `max_by`: self-declared BDRs first where that counts, then priority, then id. */
  predicate RanksBelow(byBdr: bool, a: Candidate, b: Candidate) {
    if byBdr && a.DeclaresBdr() != b.DeclaresBdr() then b.DeclaresBdr()
    else if a.priority != b.priority then a.priority < b.priority
    else a.routerId < b.routerId
  }

  ghost predicate IsBest(byBdr: bool, c: Candidate, among: set<Candidate>) {
    c in among && forall d :: d in among && d != c ==> RanksBelow(byBdr, d, c)
  }

  ghost predicate UniqueIds(cs: set<Candidate>) {
    forall c, d :: c in cs && d in cs && c.routerId == d.routerId ==> c == d
  }

  ghost function Best(byBdr: bool, among: set<Candidate>): Option<u32> {
    if exists c :: IsBest(byBdr, c, among) then
      var c :| IsBest(byBdr, c, among);
      Some(c.routerId)
    else None
  }

  function OrUnspecified(id: Option<u32>): u32 {
    if id.Some? then id.value else UNSPECIFIED
  }

  ghost function Declarers(cs: set<Candidate>): set<Candidate> {
    set c | c in cs && c.DeclaresDr()
  }

  ghost function Others(cs: set<Candidate>, dr: u32): set<Candidate> {
    set c | c in cs && c.routerId != dr
  }

  /** One iteration of the election loop. */
  ghost function Pass(cs: set<Candidate>): Roles {
    var bdr := Best(true, cs - Declarers(cs));
    var declarer := Best(false, Declarers(cs));
    var dr := OrUnspecified(if declarer.Some? then declarer else bdr);
    Roles(dr, if Some(dr) == bdr then OrUnspecified(Best(false, Others(cs, dr))) else OrUnspecified(bdr))
  }

  /** The result changed our own role, and we had one. */
  predicate Reruns(selfId: u32, declared: Roles, elected: Roles) {
    && (declared.dr == selfId || declared.bdr == selfId)
    && ((declared.dr == selfId) != (elected.dr == selfId) || (declared.bdr == selfId) != (elected.bdr == selfId))
  }

  ghost function FirstPass(v: View): Roles {
    Pass(Candidates(v, Roles(v.dr, v.bdr)))
  }

  ghost function Elect(v: View): Roles {
    var first := FirstPass(v);
    if Reruns(v.selfId, Roles(v.dr, v.bdr), first) then Pass(Candidates(v, first)) else first
  }

  function StateFor(selfId: u32, r: Roles): InterfaceState {
    if r.dr == selfId then DR else if r.bdr == selfId then Backup else DROther
  }

  // ---------------------------------------------------------------- the source's loops

  class InterfaceV3 {
    var priority: u8
    var dr: u32
    var bdr: u32
    var state: InterfaceState
    var neighbors: map<u32, Neighbor>

    ghost function ViewFrom(selfId: u32): View
      reads this
    {
      View(selfId, priority, dr, bdr, neighbors)
    }

    /** Collect the candidates in whatever order the neighbor table yields them. */
    method CollectCandidates(selfId: u32, self: Roles) returns (candidates: seq<Candidate>)
      ensures (set c | c in candidates) == Candidates(ViewFrom(selfId), self)
    {
      candidates := [];
      var left := neighbors.Keys;
      while left != {}
        invariant left <= neighbors.Keys
        invariant forall c :: c in candidates <==>
                    exists id :: id in neighbors.Keys - left && Takes(neighbors[id]) && c == CandidateOf(id, neighbors[id])
        decreases left
      {
        var id :| id in left;
        left := left - {id};
        if Takes(neighbors[id]) {
          candidates := candidates + [CandidateOf(id, neighbors[id])];
        }
      }
      if priority > 0 {
        candidates := candidates + [Candidate(selfId, priority, self.dr, self.bdr)];
      }
    }

    /** `dr_election`: at most two iterations, the second with our new declarations folded in. */
    method DrElection(selfId: u32)
      requires ViewFrom(selfId).Valid()
      modifies this`dr, this`bdr, this`state
      ensures Roles(dr, bdr) == Elect(old(ViewFrom(selfId)))
      ensures state == StateFor(selfId, Roles(dr, bdr))
      ensures state == DR <==> dr == selfId
      ensures state == Backup <==> dr != selfId && bdr == selfId
      ensures state == DROther <==> dr != selfId && bdr != selfId
    {
      hide Pass, Candidates;
      var declared := Roles(dr, bdr);
      var elected := RunPass(selfId, declared);
      if Reruns(selfId, declared, elected) {
        elected := RunPass(selfId, elected);
      }
      dr := elected.dr;
      bdr := elected.bdr;
      state := StateFor(selfId, elected);
    }

    /** The body of the election loop. */
    method RunPass(selfId: u32, self: Roles) returns (r: Roles)
      requires ViewFrom(selfId).Valid()
      ensures r == Pass(Candidates(ViewFrom(selfId), self))
    {
      var candidates := CollectCandidates(selfId, self);
      ghost var cs := Candidates(ViewFrom(selfId), self);
      CandidatesUnique(ViewFrom(selfId), self);
      hide Candidates, Best;
      assert forall c :: c in candidates <==> c in cs by {
        assert cs == set c | c in candidates;
      }
      var bdr := MaxBy(true, candidates, (c: Candidate) => !c.DeclaresDr(), cs - Declarers(cs));
      var declarer := MaxBy(false, candidates, (c: Candidate) => c.DeclaresDr(), Declarers(cs));
      var newDr := OrUnspecified(if declarer.Some? then declarer else bdr);
      var newBdr;
      if Some(newDr) == bdr {
        var next := MaxBy(false, candidates, (c: Candidate) => c.routerId != newDr, Others(cs, newDr));
        newBdr := OrUnspecified(next);
      } else {
        newBdr := OrUnspecified(bdr);
      }
      return Roles(newDr, newBdr);
    }
  }

  /** `filter(keep).max_by(order)` as a loop. */
  method MaxBy(byBdr: bool, candidates: seq<Candidate>, keep: Candidate -> bool, ghost among: set<Candidate>)
    returns (best: Option<u32>)
    requires UniqueIds(among)
    requires forall c :: c in candidates && keep(c) <==> c in among
    ensures best == Best(byBdr, among)
  {
    var top: Option<Candidate> := None;
    for i := 0 to |candidates|
      invariant top.None? ==> forall j :: 0 <= j < i ==> !keep(candidates[j])
      invariant top.Some? ==> top.value in among
      invariant top.Some? ==> forall j :: 0 <= j < i && keep(candidates[j]) && candidates[j] != top.value ==>
                    RanksBelow(byBdr, candidates[j], top.value)
    {
      var c := candidates[i];
      if keep(c) && (top.None? || RanksBelow(byBdr, top.value, c)) {
        top := Some(c);
      }
    }
    if top.Some? {
      assert IsBest(byBdr, top.value, among);
      BestIs(byBdr, top.value, among);
      best := Some(top.value.routerId);
    } else {
      assert among == {};
      best := None;
    }
  }

  // ---------------------------------------------------------------- maxima

  lemma BestIs(byBdr: bool, c: Candidate, among: set<Candidate>)
    requires IsBest(byBdr, c, among)
    ensures Best(byBdr, among) == Some(c.routerId)
  {
    assert forall d :: IsBest(byBdr, d, among) ==> d == c;
  }

  /** Distinct ids make the order total, so every non-empty set has a best candidate. */
  lemma {:induction false} BestExists(byBdr: bool, among: set<Candidate>) returns (c: Candidate)
    requires among != {} && UniqueIds(among)
    ensures IsBest(byBdr, c, among) && Best(byBdr, among) == Some(c.routerId)
    decreases among
  {
    var x :| x in among;
    c := x;
    if among != {x} {
      var b := BestExists(byBdr, among - {x});
      c := if RanksBelow(byBdr, b, x) then x else b;
      forall d | d in among && d != c ensures RanksBelow(byBdr, d, c) {
        assert d == x || d in among - {x};
        assert d.routerId != c.routerId;
      }
    }
    BestIs(byBdr, c, among);
  }

  lemma CandidatesUnique(v: View, self: Roles)
    requires v.Valid()
    ensures UniqueIds(Candidates(v, self))
  {
  }

  // ---------------------------------------------------------------- one election on any view

  /** Who a pass elects: the best self-declared DR if there is one; otherwise the best candidate by
      (declares itself BDR, priority, id), with the BDR re-elected from the rest. */
  ghost predicate PassElects(cs: set<Candidate>, r: Roles) {
    if cs == {} then r == Roles(UNSPECIFIED, UNSPECIFIED)
    else if Declarers(cs) != {} then
      && (exists c :: IsBest(false, c, Declarers(cs)) && c.routerId == r.dr)
      && (if cs - Declarers(cs) == {} then r.bdr == UNSPECIFIED
          else exists b :: IsBest(true, b, cs - Declarers(cs)) && b.routerId == r.bdr)
    else
      && (exists c :: IsBest(true, c, cs) && c.routerId == r.dr)
      && (if Others(cs, r.dr) == {} then r.bdr == UNSPECIFIED
          else exists b :: IsBest(false, b, Others(cs, r.dr)) && b.routerId == r.bdr)
  }

  lemma PassMeaning(cs: set<Candidate>)
    requires UniqueIds(cs)
    ensures PassElects(cs, Pass(cs))
  {
    hide Best;
    if Declarers(cs) != {} {
      var c := BestExists(false, Declarers(cs));
      if cs - Declarers(cs) != {} {
        var b := BestExists(true, cs - Declarers(cs));
        assert b.routerId != c.routerId;
      } else {
        NoBest(true, cs - Declarers(cs));
      }
    } else if cs != {} {
      NoBest(false, Declarers(cs));
      assert cs - Declarers(cs) == cs;
      var c := BestExists(true, cs);
      if Others(cs, c.routerId) != {} {
        var b := BestExists(false, Others(cs, c.routerId));
      } else {
        NoBest(false, Others(cs, c.routerId));
      }
    } else {
      NoBest(false, Declarers(cs));
      NoBest(true, cs - Declarers(cs));
    }
  }

  lemma NoBest(byBdr: bool, among: set<Candidate>)
    requires among == {}
    ensures Best(byBdr, among) == None
  {
  }

  /** A pass is determined by that description. */
  lemma PassUnique(cs: set<Candidate>, r: Roles)
    requires UniqueIds(cs) && PassElects(cs, r)
    ensures r == Pass(cs)
  {
    hide Pass;
    PassMeaning(cs);
  }

  /** Two candidate sets that differ at most in what the router `id` declares. */
  ghost predicate DifferOnlyAt(id: u32, cs: set<Candidate>, cs': set<Candidate>, me: Candidate, me': Candidate) {
    && UniqueIds(cs) && UniqueIds(cs') && me in cs && me' in cs'
    && me.routerId == id && me'.routerId == id && me.priority == me'.priority
    && (forall c: Candidate :: c.routerId != id ==> (c in cs <==> c in cs'))
  }

  /** A self-declared DR that wins still wins once the router `id` declares the winner. */
  lemma DeclaredDrKept(id: u32, cs: set<Candidate>, cs': set<Candidate>, me: Candidate, me': Candidate, c: Candidate)
    requires DifferOnlyAt(id, cs, cs', me, me')
    requires IsBest(false, c, Declarers(cs)) && me'.declaredDr == c.routerId
    ensures var c' := if c == me then me' else c;
            IsBest(false, c', Declarers(cs')) && c'.routerId == c.routerId
  {
    var c' := if c == me then me' else c;
    forall d | d in Declarers(cs') && d != c' ensures RanksBelow(false, d, c') {
      assert d.routerId != id;
      assert d in Declarers(cs);
    }
  }

  /** Without self-declared DRs the promoted candidate wins again, as DR or by the same order. */
  lemma PromotedKept(id: u32, cs: set<Candidate>, cs': set<Candidate>, me: Candidate, me': Candidate, c: Candidate)
    requires DifferOnlyAt(id, cs, cs', me, me') && Declarers(cs) == {}
    requires IsBest(true, c, cs) && me'.declaredDr == c.routerId
    requires me'.DeclaresBdr() ==> me.DeclaresBdr()
    ensures c == me ==> IsBest(false, me', Declarers(cs'))
    ensures c != me ==> Declarers(cs') == {} && IsBest(true, c, cs')
  {
    if c == me {
      forall d | d in cs' && d != me' ensures !d.DeclaresDr() {
        assert d.routerId != id;
        assert d in cs && d !in Declarers(cs);
      }
    } else {
      forall d | d in cs' ensures !d.DeclaresDr() && (d != c ==> RanksBelow(true, d, c)) {
        if d.routerId == id {
          assert d == me' && RanksBelow(true, me, c);
        } else {
          assert d in cs && d !in Declarers(cs);
        }
      }
    }
  }

  lemma CandidatesDiffer(v: View, self: Roles, self': Roles)
    requires v.Valid() && v.priority > 0
    ensures DifferOnlyAt(v.selfId, Candidates(v, self), Candidates(v, self'),
                         Candidate(v.selfId, v.priority, self.dr, self.bdr),
                         Candidate(v.selfId, v.priority, self'.dr, self'.bdr))
  {
    CandidatesUnique(v, self);
    CandidatesUnique(v, self');
  }

  /** Folding our new declarations in and running again does not change the DR. */
  lemma RerunKeepsDr(v: View)
    requires v.Valid()
    ensures Elect(v).dr == FirstPass(v).dr
  {
    hide Pass, Candidates, Best, IsBest, DifferOnlyAt;
    var declared := Roles(v.dr, v.bdr);
    var first := FirstPass(v);
    if Reruns(v.selfId, declared, first) {
      var cs, cs' := Candidates(v, declared), Candidates(v, first);
      CandidatesUnique(v, declared);
      CandidatesUnique(v, first);
      PassMeaning(cs);
      PassMeaning(cs');
      if v.priority == 0 {
        SelfNotEligible(v, declared, first);
      } else {
        var me, me' := Candidate(v.selfId, v.priority, v.dr, v.bdr), Candidate(v.selfId, v.priority, first.dr, first.bdr);
        CandidatesDiffer(v, declared, first);
        if Declarers(cs) != {} {
          var c :| IsBest(false, c, Declarers(cs)) && c.routerId == first.dr;
          DeclaredDrKept(v.selfId, cs, cs', me, me', c);
          DeclarerIsDr(cs', if c == me then me' else c);
        } else {
          var c :| IsBest(true, c, cs) && c.routerId == first.dr;
          assert me in cs && me !in Declarers(cs);
          PromotedKept(v.selfId, cs, cs', me, me', c);
          if c == me {
            DeclarerIsDr(cs', me');
          } else {
            PreferredIsDr(cs', c);
          }
        }
      }
    }
  }

  lemma DeclarerIsDr(cs: set<Candidate>, c: Candidate)
    requires UniqueIds(cs) && IsBest(false, c, Declarers(cs))
    ensures Pass(cs).dr == c.routerId
  {
    hide Best;
    BestIs(false, c, Declarers(cs));
  }

  lemma PreferredIsDr(cs: set<Candidate>, c: Candidate)
    requires UniqueIds(cs) && Declarers(cs) == {} && IsBest(true, c, cs)
    ensures Pass(cs).dr == c.routerId
  {
    hide Best;
    assert cs - Declarers(cs) == cs;
    BestIs(true, c, cs);
    NoBest(false, Declarers(cs));
  }

  lemma SelfNotEligible(v: View, self: Roles, self': Roles)
    requires v.priority == 0
    ensures Candidates(v, self) == Candidates(v, self')
  {
  }

  predicate EligibleId(v: View, id: u32) {
    || (id == v.selfId && v.priority > 0)
    || (id in v.neighbors && Takes(v.neighbors[id]))
  }

  /** Our declarations in the last pass. */
  ghost function LastDeclared(v: View): Roles {
    var declared := Roles(v.dr, v.bdr);
    if Reruns(v.selfId, declared, FirstPass(v)) then FirstPass(v) else declared
  }

  /**
   The DR is the highest (priority, id) among the eligible routers that declare themselves DR, even
   when the election is run again; without any, the highest (declares itself BDR, priority, id).
   */
  lemma ElectedDr(v: View)
    requires v.Valid()
    ensures var cs := Candidates(v, Roles(v.dr, v.bdr));
            if cs == {} then Elect(v).dr == UNSPECIFIED
            else if Declarers(cs) != {} then exists c :: IsBest(false, c, Declarers(cs)) && c.routerId == Elect(v).dr
            else exists c :: IsBest(true, c, cs) && c.routerId == Elect(v).dr
  {
    hide Pass, Candidates, Best, Elect;
    CandidatesUnique(v, Roles(v.dr, v.bdr));
    PassMeaning(Candidates(v, Roles(v.dr, v.bdr)));
    RerunKeepsDr(v);
  }

  /** The BDR is described by the last pass; DR and BDR are eligible and never the same router. */
  lemma ElectedRoles(v: View)
    requires v.Valid()
    ensures PassElects(Candidates(v, LastDeclared(v)), Elect(v))
    ensures Elect(v).dr != UNSPECIFIED ==> EligibleId(v, Elect(v).dr)
    ensures Elect(v).bdr != UNSPECIFIED ==> EligibleId(v, Elect(v).bdr) && Elect(v).bdr != Elect(v).dr
  {
    hide Pass, Best;
    var cs := Candidates(v, LastDeclared(v));
    CandidatesUnique(v, LastDeclared(v));
    PassMeaning(cs);
    assert Elect(v) == Pass(cs);
    assert forall c :: c in cs ==> EligibleId(v, c.routerId);
  }

  /** A newcomer that does not declare itself DR never displaces a self-declared one. */
  lemma IncumbentKept(v: View, id: u32, n: Neighbor)
    requires v.Valid() && id != v.selfId && id !in v.neighbors && n.dr != id
    requires Declarers(Candidates(v, Roles(v.dr, v.bdr))) != {}
    ensures Elect(v.(neighbors := v.neighbors[id := n])).dr == Elect(v).dr
  {
    hide Pass, Best, Elect;
    var v' := v.(neighbors := v.neighbors[id := n]);
    var self := Roles(v.dr, v.bdr);
    ElectedDr(v);
    ElectedDr(v');
    forall c ensures c in Declarers(Candidates(v', self)) <==> c in Declarers(Candidates(v, self)) {
      if c.routerId in v.neighbors {
        assert v'.neighbors[c.routerId] == v.neighbors[c.routerId];
      }
    }
  }

  // ---------------------------------------------------------------- the winners, spelled out

  /** Eligible on a view: in 2-Way or above with a non-zero priority, ourselves by our priority alone. */
  ghost predicate IsEligible(v: View, id: u32) {
    || (id == v.selfId && v.priority > 0)
    || (id in v.neighbors && v.neighbors[id].priority > 0
        && (v.neighbors[id].state == TwoWay || v.neighbors[id].state == ExStart || v.neighbors[id].state == Exchange
            || v.neighbors[id].state == Loading || v.neighbors[id].state == Full))
  }

  ghost function PriorityOf(v: View, id: u32): int {
    if id == v.selfId then v.priority else if id in v.neighbors then v.neighbors[id].priority else 0
  }

  ghost predicate ClaimsDr(v: View, id: u32) {
    IsEligible(v, id) && id == (if id == v.selfId then v.dr else v.neighbors[id].dr)
  }

  ghost predicate ClaimsBdr(v: View, id: u32) {
    IsEligible(v, id) && id == (if id == v.selfId then v.bdr else v.neighbors[id].bdr)
  }

  /** No higher priority, and among equal priorities no higher router id. */
  ghost predicate NotAbove(v: View, id: u32, winner: u32) {
    PriorityOf(v, id) < PriorityOf(v, winner) || (PriorityOf(v, id) == PriorityOf(v, winner) && id <= winner)
  }

  /** What a router contributes to the election. */
  ghost function Seen(v: View, id: u32): Candidate
    requires id == v.selfId || id in v.neighbors
  {
    if id == v.selfId then Candidate(id, v.priority, v.dr, v.bdr)
    else Candidate(id, v.neighbors[id].priority, v.neighbors[id].dr, v.neighbors[id].bdr)
  }

  lemma CandidatesAreSeen(v: View)
    requires v.Valid()
    ensures forall c :: c in Candidates(v, Roles(v.dr, v.bdr)) <==> IsEligible(v, c.routerId) && c == Seen(v, c.routerId)
    ensures forall id :: IsEligible(v, id) ==> Seen(v, id) in Candidates(v, Roles(v.dr, v.bdr))
  {
    forall id | id in v.neighbors ensures Takes(v.neighbors[id]) <==> IsEligible(v, id) {
    }
    forall id | IsEligible(v, id) ensures Seen(v, id) in Candidates(v, Roles(v.dr, v.bdr)) {
      if id != v.selfId {
        assert CandidateOf(id, v.neighbors[id]) == Seen(v, id);
      }
    }
  }

  /** Eligible, and not claiming to be DR where such claims rule out. */
  ghost predicate InRace(v: View, skipDr: bool, id: u32) {
    IsEligible(v, id) && !(skipDr && ClaimsDr(v, id))
  }

  /** Highest among those that claim to be BDR if there are any, otherwise among all in the race. */
  ghost predicate Prevails(v: View, skipDr: bool, winner: u32) {
    && InRace(v, skipDr, winner)
    && (forall id :: InRace(v, skipDr, id) && ClaimsBdr(v, id) ==> ClaimsBdr(v, winner))
    && (forall id :: InRace(v, skipDr, id) && (ClaimsBdr(v, id) || !ClaimsBdr(v, winner)) ==> NotAbove(v, id, winner))
  }

  /** What one pass over a view elects, with nothing said about how. */
  ghost predicate Elects(v: View, r: Roles) {
    if forall id :: !IsEligible(v, id) then r == Roles(0, 0)
    else if exists id :: ClaimsDr(v, id) then
      && ClaimsDr(v, r.dr) && (forall id :: ClaimsDr(v, id) ==> NotAbove(v, id, r.dr))
      && if forall id :: IsEligible(v, id) ==> ClaimsDr(v, id) then r.bdr == 0 else Prevails(v, true, r.bdr)
    else
      && Prevails(v, false, r.dr)
      && if forall id :: IsEligible(v, id) ==> id == r.dr then r.bdr == 0
         else IsEligible(v, r.bdr) && r.bdr != r.dr && forall id :: IsEligible(v, id) && id != r.dr ==> NotAbove(v, id, r.bdr)
  }

  lemma BestIsHighest(c: Candidate, among: set<Candidate>)
    requires IsBest(false, c, among)
    ensures forall d :: d in among ==> d.priority < c.priority || (d.priority == c.priority && d.routerId <= c.routerId)
  {
    forall d | d in among ensures d.priority < c.priority || (d.priority == c.priority && d.routerId <= c.routerId) {
      assert d != c ==> RanksBelow(false, d, c);
    }
  }

  lemma BestIsPreferred(c: Candidate, among: set<Candidate>)
    requires IsBest(true, c, among)
    ensures forall d :: d in among && d.declaredBdr == d.routerId ==> c.declaredBdr == c.routerId
    ensures forall d :: d in among && (d.declaredBdr == d.routerId || c.declaredBdr != c.routerId) ==>
              d.priority < c.priority || (d.priority == c.priority && d.routerId <= c.routerId)
  {
    forall d | d in among
      ensures d.declaredBdr == d.routerId ==> c.declaredBdr == c.routerId
      ensures (d.declaredBdr == d.routerId || c.declaredBdr != c.routerId) ==>
                d.priority < c.priority || (d.priority == c.priority && d.routerId <= c.routerId)
    {
      assert d != c ==> RanksBelow(true, d, c);
    }
  }

  /** Claims and candidates say the same. */
  lemma ClaimsAreDeclared(v: View, id: u32)
    requires v.Valid() && IsEligible(v, id)
    ensures var c, cs := Seen(v, id), Candidates(v, Roles(v.dr, v.bdr));
            && c in cs && c.routerId == id && c.priority == PriorityOf(v, id)
            && (ClaimsDr(v, id) <==> c in Declarers(cs)) && (ClaimsBdr(v, id) <==> c.declaredBdr == c.routerId)
  {
    CandidatesAreSeen(v);
    hide Candidates;
  }

  /** The candidates are the eligible routers with what they claim. */
  ghost predicate Translated(v: View, cs: set<Candidate>) {
    && (forall id :: IsEligible(v, id) ==>
          && (id == v.selfId || id in v.neighbors) && Seen(v, id) in cs && Seen(v, id).routerId == id
          && Seen(v, id).priority == PriorityOf(v, id)
          && (ClaimsDr(v, id) <==> Seen(v, id) in Declarers(cs)) && (ClaimsBdr(v, id) <==> Seen(v, id).declaredBdr == id))
    && (forall c :: c in cs ==>
          IsEligible(v, c.routerId) && (c.routerId == v.selfId || c.routerId in v.neighbors) && c == Seen(v, c.routerId))
    && (forall id :: ClaimsDr(v, id) ==> IsEligible(v, id))
  }

  lemma CandidatesTranslated(v: View)
    requires v.Valid()
    ensures Translated(v, Candidates(v, Roles(v.dr, v.bdr)))
  {
    hide Candidates, IsEligible, ClaimsDr, ClaimsBdr, PriorityOf, Seen, Declarers;
    var cs := Candidates(v, Roles(v.dr, v.bdr));
    forall id | IsEligible(v, id)
      ensures (id == v.selfId || id in v.neighbors) && Seen(v, id) in cs && Seen(v, id).routerId == id
      ensures Seen(v, id).priority == PriorityOf(v, id)
      ensures (ClaimsDr(v, id) <==> Seen(v, id) in Declarers(cs)) && (ClaimsBdr(v, id) <==> Seen(v, id).declaredBdr == id)
    {
      EligibleIsKnown(v, id);
      ClaimsAreDeclared(v, id);
    }
    forall c | c in cs
      ensures IsEligible(v, c.routerId) && (c.routerId == v.selfId || c.routerId in v.neighbors) && c == Seen(v, c.routerId)
    {
      CandidatesAreSeen(v);
      EligibleIsKnown(v, c.routerId);
    }
    forall id | ClaimsDr(v, id) ensures IsEligible(v, id) {
      ClaimantIsEligible(v, id);
    }
  }

  lemma ClaimantWins(v: View, cs: set<Candidate>, c: Candidate)
    requires Translated(v, cs) && IsBest(false, c, Declarers(cs))
    ensures ClaimsDr(v, c.routerId) && forall id :: ClaimsDr(v, id) ==> NotAbove(v, id, c.routerId)
  {
    hide IsEligible, ClaimsDr, ClaimsBdr, PriorityOf, Seen, IsBest;
    BestIn(false, c, Declarers(cs));
    BestIsHighest(c, Declarers(cs));
  }

  lemma PreferredPrevails(v: View, cs: set<Candidate>, skipDr: bool, b: Candidate)
    requires Translated(v, cs) && IsBest(true, b, if skipDr then cs - Declarers(cs) else cs)
    ensures Prevails(v, skipDr, b.routerId)
  {
    hide IsEligible, ClaimsDr, ClaimsBdr, PriorityOf, Seen, IsBest;
    var race := if skipDr then cs - Declarers(cs) else cs;
    BestIn(true, b, race);
    BestIsPreferred(b, race);
    assert forall id :: InRace(v, skipDr, id) ==> Seen(v, id) in race;
  }

  lemma NextWins(v: View, cs: set<Candidate>, dr: u32, b: Candidate)
    requires Translated(v, cs) && IsBest(false, b, Others(cs, dr))
    ensures IsEligible(v, b.routerId) && b.routerId != dr
    ensures forall id :: IsEligible(v, id) && id != dr ==> NotAbove(v, id, b.routerId)
  {
    hide IsEligible, ClaimsDr, ClaimsBdr, PriorityOf, Seen, IsBest;
    BestIn(false, b, Others(cs, dr));
    BestIsHighest(b, Others(cs, dr));
    assert forall id :: IsEligible(v, id) && id != dr ==> Seen(v, id) in Others(cs, dr);
  }

  /** A pass elects the highest, in the words of the view. */
  lemma TranslatedPass(v: View, cs: set<Candidate>, r: Roles)
    requires Translated(v, cs) && PassElects(cs, r)
    ensures Elects(v, r)
  {
    hide IsEligible, ClaimsDr, ClaimsBdr, NotAbove, Prevails, PriorityOf, Seen, IsBest;
    if cs == {} {
    } else if Declarers(cs) != {} {
      var c :| IsBest(false, c, Declarers(cs)) && c.routerId == r.dr;
      ClaimantWins(v, cs, c);
      assert IsEligible(v, c.routerId);
      if cs - Declarers(cs) != {} {
        var b :| IsBest(true, b, cs - Declarers(cs)) && b.routerId == r.bdr;
        PreferredPrevails(v, cs, true, b);
        BestIn(true, b, cs - Declarers(cs));
        assert IsEligible(v, b.routerId) && !ClaimsDr(v, b.routerId);
      } else {
        forall id | IsEligible(v, id) ensures ClaimsDr(v, id) {
          assert Seen(v, id) in cs;
          assert Seen(v, id) !in cs - Declarers(cs);
        }
      }
    } else {
      var c :| IsBest(true, c, cs) && c.routerId == r.dr;
      PreferredPrevails(v, cs, false, c);
      BestIn(true, c, cs);
      assert IsEligible(v, c.routerId);
      assert forall id :: !ClaimsDr(v, id);
      if Others(cs, r.dr) != {} {
        var b :| IsBest(false, b, Others(cs, r.dr)) && b.routerId == r.bdr;
        NextWins(v, cs, r.dr, b);
      } else {
        forall id | IsEligible(v, id) ensures id == r.dr {
          assert Seen(v, id) in cs;
          assert Seen(v, id) !in Others(cs, r.dr);
        }
      }
    }
  }

  lemma PassElectsHighest(v: View)
    requires v.Valid()
    ensures Elects(v, FirstPass(v))
  {
    hide Pass, Candidates, Elects, Translated, PassElects;
    CandidatesUnique(v, Roles(v.dr, v.bdr));
    PassMeaning(Candidates(v, Roles(v.dr, v.bdr)));
    CandidatesTranslated(v);
    TranslatedPass(v, Candidates(v, Roles(v.dr, v.bdr)), FirstPass(v));
  }

  lemma BestIn(byBdr: bool, c: Candidate, among: set<Candidate>)
    requires IsBest(byBdr, c, among)
    ensures c in among
  {
  }

  lemma EligibleIsKnown(v: View, id: u32)
    requires IsEligible(v, id)
    ensures id == v.selfId || id in v.neighbors
  {
  }

  lemma ClaimantIsEligible(v: View, id: u32)
    requires ClaimsDr(v, id)
    ensures IsEligible(v, id)
  {
  }

  /** The view with our own declarations replaced. */
  ghost function Declaring(v: View, self: Roles): View {
    v.(dr := self.dr, bdr := self.bdr)
  }

  /**
   The election in the words of the view. The DR is that of the first pass, so the highest (priority, id) among the
   eligible routers that claim to be DR, or without any the one that prevails. The BDR is that of the last pass: the
   first one, or one with our new roles declared, which is made exactly if we had a role and one of our roles changed.
   */
  lemma ElectionMeaning(v: View)
    requires v.Valid()
    ensures exists first :: Elects(v, first)
              && Elect(v).dr == first.dr
              && Elects(Declaring(v, if (v.dr == v.selfId || v.bdr == v.selfId)
                                        && ((v.dr == v.selfId) != (first.dr == v.selfId) || (v.bdr == v.selfId) != (first.bdr == v.selfId))
                                     then first else Roles(v.dr, v.bdr)), Elect(v))
  {
    hide Pass, Candidates, Elects;
    var first := FirstPass(v);
    PassElectsHighest(v);
    RerunKeepsDr(v);
    var w := Declaring(v, LastDeclared(v));
    RedeclaredCandidates(v, LastDeclared(v));
    PassElectsHighest(w);
    assert FirstPass(w) == Elect(v);
  }

  lemma RedeclaredCandidates(v: View, self: Roles)
    ensures Candidates(Declaring(v, self), self) == Candidates(v, self)
  {
  }
}

/** A whole broadcast segment electing in synchronous rounds. */
module Segment {
  import opened Numbers
  import opened OspfV3Types
  import opened Election

  datatype Member = Member(priority: u8, dr: u32, bdr: u32)

  /** Routers by id; everyone hears everyone's last Hello. */
  type Members = map<u32, Member>

  ghost predicate Valid(seg: Members) {
    UNSPECIFIED !in seg
  }

  /** What router `id` sees: all others at 2-Way, with the roles they declare. */
  function ViewOf(seg: Members, id: u32): View
    requires id in seg
  {
    View(id, seg[id].priority, seg[id].dr, seg[id].bdr,
         map r | r in seg && r != id :: Neighbor(seg[r].priority, seg[r].dr, seg[r].bdr, TwoWay))
  }

  /** One round: every router runs its election on what was declared before it. */
  ghost function Round(seg: Members): Members {
    map id | id in seg :: var r := Elect(ViewOf(seg, id)); Member(seg[id].priority, r.dr, r.bdr)
  }

  ghost function All(seg: Members): set<Candidate> {
    set id | id in seg && seg[id].priority > 0 :: Candidate(id, seg[id].priority, seg[id].dr, seg[id].bdr)
  }

  ghost predicate AgreeOnDr(seg: Members, dr: u32) {
    forall id :: id in seg ==> seg[id].dr == dr
  }

  ghost predicate AgreeOnBdr(seg: Members, bdr: u32) {
    forall id :: id in seg ==> seg[id].bdr == bdr
  }

  /** Every router starts its election from the same candidates. */
  lemma SameCandidates(seg: Members, id: u32)
    requires id in seg
    ensures var v := ViewOf(seg, id);
            v.Valid() && Candidates(v, Roles(v.dr, v.bdr)) == All(seg) && UniqueIds(All(seg))
  {
    var v := ViewOf(seg, id);
    var cs := Candidates(v, Roles(v.dr, v.bdr));
    forall c ensures c in cs <==> c in All(seg) {
      if c in All(seg) && c.routerId != id {
        assert c == CandidateOf(c.routerId, v.neighbors[c.routerId]);
      }
    }
  }

  /** After one round everyone names the same DR. */
  lemma FirstRoundAgreesOnDr(seg: Members)
    ensures AgreeOnDr(Round(seg), Pass(All(seg)).dr)
  {
    hide Pass, Elect, Candidates;
    forall id | id in seg ensures Elect(ViewOf(seg, id)).dr == Pass(All(seg)).dr {
      SameCandidates(seg, id);
      RerunKeepsDr(ViewOf(seg, id));
    }
  }

  /** A segment in which everyone names the same DR, an eligible member unless there is none, and no
      router names one router for both roles. */
  ghost predicate Settled(seg: Members, dr: u32) {
    && Valid(seg) && AgreeOnDr(seg, dr)
    && (if All(seg) == {} then dr == UNSPECIFIED else dr in seg && seg[dr].priority > 0)
    && (forall id :: id in seg && seg[id].bdr != UNSPECIFIED ==> seg[id].bdr != dr)
  }

  lemma PassNamesMember(seg: Members)
    ensures var dr := Pass(All(seg)).dr;
            if All(seg) == {} then dr == UNSPECIFIED else dr in seg && seg[dr].priority > 0
  {
    hide Pass;
    PassMeaning(All(seg));
  }

  lemma SamePrioritiesSameEligible(seg: Members, next: Members)
    requires seg.Keys == next.Keys && forall id :: id in seg ==> seg[id].priority == next[id].priority
    ensures All(seg) == {} <==> All(next) == {}
  {
    forall id | id in seg
      ensures seg[id].priority > 0 <==> Candidate(id, seg[id].priority, seg[id].dr, seg[id].bdr) in All(seg)
      ensures next[id].priority > 0 <==> Candidate(id, next[id].priority, next[id].dr, next[id].bdr) in All(next)
    {
    }
  }

  lemma RoundSettles(seg: Members)
    requires Valid(seg)
    ensures Settled(Round(seg), Pass(All(seg)).dr)
  {
    hide Pass, Elect, Candidates, All, ViewOf;
    FirstRoundAgreesOnDr(seg);
    PassNamesMember(seg);
    SamePrioritiesSameEligible(seg, Round(seg));
    forall id | id in seg
      ensures Round(seg)[id].bdr != UNSPECIFIED ==> Round(seg)[id].bdr != Pass(All(seg)).dr
    {
      SameCandidates(seg, id);
      ElectedRoles(ViewOf(seg, id));
    }
  }

  /** On a settled segment the DR is the only self-declared one. */
  lemma SettledDeclarers(seg: Members, dr: u32)
    requires Settled(seg, dr)
    ensures Declarers(All(seg)) == set c | c in All(seg) && c.routerId == dr
    ensures All(seg) != {} ==> Declarers(All(seg)) != {}
    ensures All(seg) - Declarers(All(seg)) == Others(All(seg), dr)
  {
    if All(seg) != {} {
      assert Candidate(dr, seg[dr].priority, seg[dr].dr, seg[dr].bdr) in Declarers(All(seg));
    }
  }

  /** What the first pass elects on a settled segment. */
  lemma SettledPass(seg: Members, dr: u32)
    requires Settled(seg, dr)
    ensures UniqueIds(All(seg))
    ensures Pass(All(seg)).dr == dr
    ensures All(seg) != {} ==> exists c :: IsBest(false, c, Declarers(All(seg))) && c.routerId == dr
    ensures if Others(All(seg), dr) == {} then Pass(All(seg)).bdr == UNSPECIFIED
            else exists b :: IsBest(true, b, Others(All(seg), dr)) && b.routerId == Pass(All(seg)).bdr
  {
    hide Pass;
    SettledDeclarers(seg, dr);
    PassMeaning(All(seg));
  }

  /** On a settled segment every router elects the outcome of the common first pass: a router that
      loses the BDR role runs again, and loses again. */
  lemma SettledElection(seg: Members, dr: u32, id: u32)
    requires Settled(seg, dr) && id in seg
    ensures Elect(ViewOf(seg, id)) == Pass(All(seg))
  {
    hide Pass, Best;
    var v := ViewOf(seg, id);
    var declared := Roles(v.dr, v.bdr);
    var first := FirstPass(v);
    SameCandidates(seg, id);
    SettledPass(seg, dr);
    SettledDeclarers(seg, dr);
    assert v.selfId == id && v.dr == dr && v.bdr == seg[id].bdr && id != UNSPECIFIED;
    if Reruns(id, declared, first) {
      hide Candidates, All, ViewOf, IsBest;
      assert first.bdr != UNSPECIFIED ==> first.bdr != dr by {
        OthersExcludes(All(seg), dr);
      }
      assert v.bdr == id && first.bdr != id && id != dr;
      if v.priority == 0 {
        SelfNotEligible(v, declared, first);
      } else {
        assert Candidate(id, v.priority, v.dr, v.bdr) in Others(All(seg), dr) by {
          SelfAmong(v, declared);
        }
        LosesAgain(v, dr, first);
      }
    }
  }

  lemma OthersExcludes(cs: set<Candidate>, dr: u32)
    ensures forall b :: IsBest(true, b, Others(cs, dr)) ==> b.routerId != dr
  {
  }

  lemma SelfAmong(v: View, self: Roles)
    requires v.priority > 0
    ensures Candidate(v.selfId, v.priority, self.dr, self.bdr) in Candidates(v, self)
  {
  }

  /** A router that named itself BDR but is not elected: with its claim withdrawn the outcome is the
      same. */
  lemma LosesAgain(v: View, dr: u32, first: Roles)
    requires v.Valid() && v.priority > 0 && v.dr == dr == first.dr && v.selfId != dr
    requires v.bdr == v.selfId && first.bdr != v.selfId
    requires var cs := Candidates(v, Roles(v.dr, v.bdr));
             && Declarers(cs) != {} && Declarers(cs) == (set c | c in cs && c.routerId == dr)
             && (exists b :: IsBest(true, b, Others(cs, dr)) && b.routerId == first.bdr)
             && (exists c :: IsBest(false, c, Declarers(cs)) && c.routerId == dr)
    ensures Pass(Candidates(v, first)) == first
  {
    hide Pass, Candidates, Best;
    var cs, cs' := Candidates(v, Roles(v.dr, v.bdr)), Candidates(v, first);
    var me, me' := Candidate(v.selfId, v.priority, v.dr, v.bdr), Candidate(v.selfId, v.priority, first.dr, first.bdr);
    CandidatesDiffer(v, Roles(v.dr, v.bdr), first);
    assert Declarers(cs') == Declarers(cs);
    assert cs' - Declarers(cs') == Others(cs', dr);
    var b :| IsBest(true, b, Others(cs, dr)) && b.routerId == first.bdr;
    assert me in Others(cs, dr) && RanksBelow(true, me, b);
    assert IsBest(true, b, Others(cs', dr));
    PassUnique(cs', first);
  }

  /** A second round on a settled segment makes everyone agree on the BDR as well. */
  lemma SettledRoundAgrees(seg: Members, dr: u32)
    requires Settled(seg, dr)
    ensures AgreeOnDr(Round(seg), dr) && AgreeOnBdr(Round(seg), Pass(All(seg)).bdr)
  {
    hide Pass, Elect, ViewOf, All;
    SettledPass(seg, dr);
    forall id | id in seg ensures Round(seg)[id].dr == dr && Round(seg)[id].bdr == Pass(All(seg)).bdr {
      SettledElection(seg, dr, id);
    }
  }

  /** Once everyone names the same eligible pair, elections change nothing. */
  lemma AgreedIsFixed(seg: Members, dr: u32, bdr: u32)
    requires Settled(seg, dr) && AgreeOnBdr(seg, bdr)
    requires if Others(All(seg), dr) == {} then bdr == UNSPECIFIED
             else bdr in seg && seg[bdr].priority > 0 && bdr != dr
    ensures Round(seg) == seg
  {
    hide Pass, Elect, ViewOf;
    SettledPass(seg, dr);
    if Others(All(seg), dr) != {} {
      var b := Candidate(bdr, seg[bdr].priority, dr, bdr);
      assert IsBest(true, b, Others(All(seg), dr));
    }
    assert Pass(All(seg)) == Roles(dr, bdr);
    forall id | id in seg ensures Round(seg)[id] == seg[id] {
      SettledElection(seg, dr, id);
    }
  }

  /**
   DR convergence. From any declarations, one round makes all routers name the same DR (the one the
   common candidates elect, see `Election.PassElects`), a second one the same BDR, and every later
   round leaves the segment as it is.
   */
  lemma Convergence(seg: Members)
    requires Valid(seg)
    ensures var one := Round(seg);
            var two := Round(one);
            var dr := Pass(All(seg)).dr;
            && PassElects(All(seg), Pass(All(seg)))
            && AgreeOnDr(one, dr) && AgreeOnDr(two, dr)
            && AgreeOnBdr(two, Pass(All(one)).bdr)
            && Round(two) == two
  {
    hide Pass, Elect, ViewOf, Candidates;
    var one := Round(seg);
    var two := Round(one);
    var dr := Pass(All(seg)).dr;
    PassMeaning(All(seg));
    RoundSettles(seg);
    SettledRoundAgrees(one, dr);
    RoundSettles(one);
    SettledPass(one, dr);
    var bdr := Pass(All(one)).bdr;
    OthersSame(one, two, dr);
    AgreedIsFixed(two, dr, bdr);
  }

  lemma OthersSame(seg: Members, next: Members, dr: u32)
    requires seg.Keys == next.Keys && forall id :: id in seg ==> seg[id].priority == next[id].priority
    ensures Others(All(seg), dr) == {} <==> Others(All(next), dr) == {}
    ensures forall c :: c in Others(All(seg), dr) ==> c.routerId in next && next[c.routerId].priority > 0 && c.routerId != dr
  {
    forall id | id in seg && id != dr
      ensures seg[id].priority > 0 <==> Candidate(id, seg[id].priority, seg[id].dr, seg[id].bdr) in Others(All(seg), dr)
      ensures next[id].priority > 0 <==> Candidate(id, next[id].priority, next[id].dr, next[id].bdr) in Others(All(next), dr)
    {
    }
  }
}

/**
 Neighbors that drop out of 2-Way and come back. Leaving 2-Way keeps `dd_summary_recv` and
 `dd_peer_done`, so the next exchange starts from leftovers: exactly which leftovers are harmless, what
 that means for an adjacency that flaps, and how packets in flight across a flap are lost.
 */
module StaleNeighbors {
  import opened Numbers
  import opened OspfV3Types
  import opened Adjacency
  import opened DatabaseExchange
  import opened ExchangeCompletion

  predicate Among(a: Headers, b: Headers) {
    forall h :: h in a ==> h in b
  }

  /** The leftovers are headers the peer will describe; a side that takes the peer for done already has
      all of them, the master counting the chunk that ends the negotiation. */
  predicate Harmless(cfg: Config, lo: Neighbor, hi: Neighbor) {
    && Among(lo.summaryRecv, cfg.hiSummary) && (lo.peerDone ==> Among(cfg.hiSummary, lo.summaryRecv))
    && Among(hi.summaryRecv, cfg.loSummary) && (hi.peerDone ==> Among(cfg.loSummary, hi.summaryRecv + cfg.FirstChunk()))
  }

  // ---------------------------------------------------------------- harmless leftovers

  lemma HarmlessIsCorrect(cfg: Config, run: seq<System>)
    requires IsExchange(cfg, run) && Harmless(cfg, run[0].lo, run[0].hi)
    ensures Correct(cfg, run[|run| - 1])
  {
    var s, lb, hb := run[|run| - 1], BaseOf(run[0].lo), BaseOf(run[0].hi);
    ExchangeKeepsInv(cfg, run);
    LeftHolds(cfg, lb, hb, s);
    hide Inv, Correct, Start;
    if Left(s.lo) {
      assert forall h :: h in lb.recv ==> h in s.lo.summaryRecv;
      assert SameElements(s.lo.summaryRecv, cfg.hiSummary);
    }
    if Left(s.hi) {
      assert forall h :: h in hb.recv ==> h in s.hi.summaryRecv;
      assert SameElements(s.hi.summaryRecv, cfg.loSummary);
    }
    RightSetIsCorrect(cfg, lb, hb, s);
  }

  // ---------------------------------------------------------------- harmful leftovers

  /** Leftovers stay on the lists, also those the peer does not describe. */
  lemma ForeignHeaderStays(cfg: Config, s: System) returns (acts: seq<Action>)
    requires cfg.Valid() && Start(s)
    requires !Among(s.lo.summaryRecv, cfg.hiSummary) || !Among(s.hi.summaryRecv, cfg.loSummary)
    ensures Possible(cfg, s, acts) && Quiet(acts) && !Correct(cfg, After(cfg, s, acts))
  {
    StartInv(cfg, s);
    NoOpening();
    acts := PlanCompletes(cfg, BaseOf(s.lo), BaseOf(s.hi), s);
    var t := After(cfg, s, acts);
    hide Possible, After, Quiet, Inv;
    if !Among(s.lo.summaryRecv, cfg.hiSummary) {
      var h :| h in s.lo.summaryRecv && h !in cfg.hiSummary;
      assert h in t.lo.summaryRecv;
    } else {
      var h :| h in s.hi.summaryRecv && h !in cfg.loSummary;
      assert h in t.hi.summaryRecv;
    }
  }

  /** Both sides in ExStart, nothing in flight, and the leftovers untouched. */
  predicate Ready(s: System, t: System) {
    && t.lo.state == ExStart && t.hi.state == ExStart && t.toLo == [] && t.toHi == []
    && BaseOf(t.lo) == BaseOf(s.lo) && BaseOf(t.hi) == BaseOf(s.hi)
  }

  /** The slave has taken the opening packet and has not answered yet. */
  predicate SlaveOpened(cfg: Config, s: System, t: System) {
    && t.lo.state == Exchange && t.lo.summaryTx == cfg.loSummary && BaseOf(t.lo) == BaseOf(s.lo)
    && t.hi.state == ExStart && BaseOf(t.hi) == BaseOf(s.hi) && t.toLo == [] && t.toHi == []
    && !t.lo.ddMaster && t.lo.ddSeq == t.hi.ddSeq != 0
  }

  lemma HellosReady(cfg: Config, s: System)
    requires Start(s)
    ensures var t := Next(cfg, Next(cfg, s, HelloHi(true, true)), HelloLo(true, true)); Ready(s, t)
  {
    ReadyNeighbor(s.lo);
    ReadyNeighbor(s.hi);
    hide AfterHello;
  }

  lemma ReadyNeighbor(n: Neighbor)
    requires !Exchanging(n)
    ensures var n' := AfterHello(n, true, true); n'.state == ExStart && BaseOf(n') == BaseOf(n)
  {
    hide NeighborStateV3.AtLeast;
    match n.state
    case Down =>
    case Init =>
    case TwoWay =>
    case ExStart =>
  }

  lemma SlaveOpens(selfId: u32, peerId: u32, n: Neighbor, dd: DbDesc, ours: Headers, clock: u32)
    requires selfId < peerId && n.state == ExStart && dd.OpensNegotiation()
    ensures ProcessDd(selfId, peerId, n, dd, ours, clock)
         == n.(state := Exchange, ddMaster := false, ddSeq := dd.sequence, summaryTx := ours, responsePending := true)
  {
    assert n.summaryRecv + [] == n.summaryRecv;
  }

  lemma OpeningTaken(cfg: Config, s: System, t: System)
    requires cfg.Valid() && Ready(s, t)
    ensures MayEmit(t.hi)
    ensures var one := Next(cfg, t, EmitHi(1));
            one.toLo != [] && SlaveOpened(cfg, s, Next(cfg, one, ReceiveLo(1)))
  {
    hide AfterEmit, Emitted, ProcessDd;
    EmitFacts(t.hi, cfg.hiDb, 1);
    var dd := Emitted(t.hi, 1);
    assert Next(cfg, t, EmitHi(1)).toLo == [dd] && [dd][1..] == [];
    SlaveOpens(cfg.loId, cfg.hiId, t.lo, dd, cfg.loSummary, 1);
  }

  lemma NoActions(cfg: Config, s: System)
    ensures Possible(cfg, s, []) && After(cfg, s, []) == s && Quiet([])
  {
  }

  const OPENING := [HelloHi(true, true), HelloLo(true, true), EmitHi(1), ReceiveLo(1)]

  /** The shortest way to the exchange: one opening packet, taken at once. */
  lemma Opened(cfg: Config, s: System)
    requires cfg.Valid() && Start(s)
    ensures Possible(cfg, s, OPENING) && Quiet(OPENING) && SlaveOpened(cfg, s, After(cfg, s, OPENING))
  {
    hide Next, Ready, SlaveOpened, Start, BaseOf, MayEmit, Possible, After, Quiet;
    var one := Next(cfg, s, HelloHi(true, true));
    var two := Next(cfg, one, HelloLo(true, true));
    HellosReady(cfg, s);
    OpeningTaken(cfg, s, two);
    NoActions(cfg, Next(cfg, Next(cfg, two, EmitHi(1)), ReceiveLo(1)));
    var three := Next(cfg, two, EmitHi(1));
    var four := Next(cfg, three, ReceiveLo(1));
    Prepended(cfg, three, ReceiveLo(1), []);
    assert [ReceiveLo(1)] + [] == [ReceiveLo(1)];
    Prepended(cfg, two, EmitHi(1), [ReceiveLo(1)]);
    assert [EmitHi(1)] + [ReceiveLo(1)] == [EmitHi(1), ReceiveLo(1)];
    Prepended(cfg, one, HelloLo(true, true), [EmitHi(1), ReceiveLo(1)]);
    assert [HelloLo(true, true)] + [EmitHi(1), ReceiveLo(1)] == [HelloLo(true, true), EmitHi(1), ReceiveLo(1)];
    Prepended(cfg, s, HelloHi(true, true), [HelloLo(true, true), EmitHi(1), ReceiveLo(1)]);
    assert [HelloHi(true, true)] + [HelloLo(true, true), EmitHi(1), ReceiveLo(1)] == OPENING;
  }

  /** A slave that takes the master for done sends its list and leaves. */
  lemma {:induction false} SlaveRushes(cfg: Config, s: System) returns (acts: seq<Action>)
    requires s.lo.state == Exchange && s.lo.peerDone
    ensures Possible(cfg, s, acts) && Quiet(acts)
    ensures var t := After(cfg, s, acts); Left(t.lo) && t.lo.summaryRecv == s.lo.summaryRecv
    decreases |s.lo.summaryTx|
  {
    var s' := Next(cfg, s, EmitLo(1));
    EmitFacts(s.lo, cfg.loDb, 1);
    EmitShrinks(s.lo, cfg.loDb, 1);
    hide AfterEmit, Emitted, ChunkSize;
    var rest := [];
    if !Left(s'.lo) {
      rest := SlaveRushes(cfg, s');
    }
    Prepended(cfg, s, EmitLo(1), rest);
    acts := [EmitLo(1)] + rest;
  }

  /** The same for the master. */
  lemma {:induction false} MasterRushes(cfg: Config, s: System) returns (acts: seq<Action>)
    requires s.hi.state == Exchange && s.hi.peerDone
    ensures Possible(cfg, s, acts) && Quiet(acts)
    ensures var t := After(cfg, s, acts); Left(t.hi) && t.hi.summaryRecv == s.hi.summaryRecv
    decreases |s.hi.summaryTx|
  {
    var s' := Next(cfg, s, EmitHi(1));
    EmitFacts(s.hi, cfg.hiDb, 1);
    EmitShrinks(s.hi, cfg.hiDb, 1);
    hide AfterEmit, Emitted, ChunkSize;
    var rest := [];
    if !Left(s'.hi) {
      rest := MasterRushes(cfg, s');
    }
    Prepended(cfg, s, EmitHi(1), rest);
    acts := [EmitHi(1)] + rest;
  }

  lemma SlaveMisses(cfg: Config, s: System) returns (acts: seq<Action>)
    requires cfg.Valid() && Start(s) && s.lo.peerDone && !Among(cfg.hiSummary, s.lo.summaryRecv)
    ensures Possible(cfg, s, acts) && Quiet(acts) && !Correct(cfg, After(cfg, s, acts))
  {
    Opened(cfg, s);
    var rest := SlaveRushes(cfg, After(cfg, s, OPENING));
    Appended(cfg, s, OPENING, rest);
    acts := OPENING + rest;
    hide Possible, After, Quiet, Start;
    var h :| h in cfg.hiSummary && h !in s.lo.summaryRecv;
    assert h !in After(cfg, s, acts).lo.summaryRecv;
  }

  lemma {:induction false} Appended(cfg: Config, s: System, first: seq<Action>, rest: seq<Action>)
    requires Possible(cfg, s, first) && Possible(cfg, After(cfg, s, first), rest)
    ensures Possible(cfg, s, first + rest) && After(cfg, s, first + rest) == After(cfg, After(cfg, s, first), rest)
    ensures Quiet(first) && Quiet(rest) ==> Quiet(first + rest)
    decreases |first|
  {
    if first == [] {
      assert [] + rest == rest;
    } else {
      hide Next, Enabled;
      assert (first + rest)[1..] == first[1..] + rest;
      Appended(cfg, Next(cfg, s, first[0]), first[1..], rest);
    }
  }

  lemma MasterAnswered(selfId: u32, peerId: u32, n: Neighbor, dd: DbDesc, ours: Headers, clock: u32)
    requires peerId < selfId && !dd.init && !dd.master
    requires (n.state == ExStart && dd.sequence == n.ddSeq) || (n.state == TwoWay && dd.sequence == clock)
    ensures var n' := ProcessDd(selfId, peerId, n, dd, ours, clock);
            && n'.state == Exchange && n'.ddMaster && n'.summaryTx == ours
            && n'.summaryRecv == n.summaryRecv + dd.headers && n'.peerDone == (n.peerDone || !dd.more)
  {
  }

  lemma ChunkTaken(cfg: Config, s: System, t: System)
    requires cfg.Valid() && SlaveOpened(cfg, s, t) && t.hi.peerDone
    ensures MayEmit(t.lo)
    ensures var one := Next(cfg, t, EmitLo(1));
            && one.toHi != []
            && var two := Next(cfg, one, ReceiveHi(1));
               two.hi.state == Exchange && two.hi.peerDone && two.hi.summaryRecv == s.hi.summaryRecv + cfg.FirstChunk()
  {
    hide AfterEmit, Emitted, ProcessDd;
    EmitFacts(t.lo, cfg.loDb, 1);
    var d := Emitted(t.lo, 1);
    assert Next(cfg, t, EmitLo(1)).toHi == [d];
    assert d.headers == cfg.loSummary[..|d.headers|];
    assert d.headers == cfg.FirstChunk();
    MasterAnswered(cfg.hiId, cfg.loId, t.hi, d, cfg.hiSummary, 1);
  }

  lemma MasterMisses(cfg: Config, s: System) returns (acts: seq<Action>)
    requires cfg.Valid() && Start(s) && s.hi.peerDone
    requires !Among(cfg.loSummary, s.hi.summaryRecv + cfg.FirstChunk())
    ensures Possible(cfg, s, acts) && Quiet(acts) && !Correct(cfg, After(cfg, s, acts))
  {
    Opened(cfg, s);
    var t := After(cfg, s, OPENING);
    ChunkTaken(cfg, s, t);
    hide Next, Possible, After, Quiet, Start;
    var one := Next(cfg, t, EmitLo(1));
    var two := Next(cfg, one, ReceiveHi(1));
    var rest := MasterRushes(cfg, two);
    Prepended(cfg, one, ReceiveHi(1), rest);
    Prepended(cfg, t, EmitLo(1), [ReceiveHi(1)] + rest);
    Appended(cfg, s, OPENING, [EmitLo(1)] + ([ReceiveHi(1)] + rest));
    acts := OPENING + ([EmitLo(1)] + ([ReceiveHi(1)] + rest));
    var h :| h in cfg.loSummary && h !in s.hi.summaryRecv + cfg.FirstChunk();
    assert h !in After(cfg, s, acts).hi.summaryRecv;
  }

  lemma HarmfulFails(cfg: Config, s: System) returns (run: seq<System>)
    requires cfg.Valid() && Start(s) && !Harmless(cfg, s.lo, s.hi)
    ensures IsExchange(cfg, run) && run[0] == s && !Correct(cfg, run[|run| - 1])
  {
    assert IsExchange(cfg, [s]);
    hide Among, Correct, IsExchange, Start, Possible, After, Quiet;
    var acts;
    if !Among(s.lo.summaryRecv, cfg.hiSummary) || !Among(s.hi.summaryRecv, cfg.loSummary) {
      acts := ForeignHeaderStays(cfg, s);
    } else if s.lo.peerDone && !Among(cfg.hiSummary, s.lo.summaryRecv) {
      acts := SlaveMisses(cfg, s);
    } else {
      acts := MasterMisses(cfg, s);
    }
    run := Followed(cfg, [s], acts);
    assert run[0] == [s][0];
  }

  ghost predicate AlwaysCorrect(cfg: Config, s: System) {
    forall run :: IsExchange(cfg, run) && run[0] == s ==> Correct(cfg, run[|run| - 1])
  }

  /** Every exchange that starts in `s` is correct if and only if the leftovers are harmless. */
  lemma LeftoversExact(cfg: Config, s: System)
    requires cfg.Valid() && Start(s)
    ensures AlwaysCorrect(cfg, s) <==> Harmless(cfg, s.lo, s.hi)
  {
    hide Correct, IsQuietStep, Harmless, Start;
    if Harmless(cfg, s.lo, s.hi) {
      forall run | IsExchange(cfg, run) && run[0] == s ensures Correct(cfg, run[|run| - 1]) {
        HarmlessIsCorrect(cfg, run);
      }
    } else {
      var run := HarmfulFails(cfg, s);
    }
  }

  // ---------------------------------------------------------------- flaps

  /** Both sides have seen a 1-Way Hello and what was in flight has been dropped. */
  function Dropped(s: System): System {
    System(s.lo.(state := Init), s.hi.(state := Init), [], [])
  }

  lemma {:induction false} ExchangeIsRun(cfg: Config, run: seq<System>)
    requires IsExchange(cfg, run) && Fresh(run[0].lo) && Fresh(run[0].hi)
    ensures IsRun(cfg, run)
  {
    forall i | 0 <= i < |run| - 1 ensures IsStep(cfg, run[i], run[i + 1]) {
      assert IsQuietStep(cfg, run[i], run[i + 1]);
    }
  }

  /** Below 2-Way every Database Description is ignored. */
  lemma IgnoredInInit(selfId: u32, peerId: u32, n: Neighbor, dd: DbDesc, ours: Headers, clock: u32)
    requires n.state == Init
    ensures ProcessDd(selfId, peerId, n, dd, ours, clock) == n
  {
  }

  lemma DroppedOne(cfg: Config, s: System)
    requires s.lo.state == Init && s.hi.state == Init
    ensures s.toLo != [] ==> Next(cfg, s, ReceiveLo(1)) == s.(toLo := s.toLo[1..])
    ensures s.toHi != [] ==> Next(cfg, s, ReceiveHi(1)) == s.(toHi := s.toHi[1..])
  {
    hide ProcessDd;
    if s.toLo != [] {
      IgnoredInInit(cfg.loId, cfg.hiId, s.lo, s.toLo[0], cfg.loSummary, 1);
    }
    if s.toHi != [] {
      IgnoredInInit(cfg.hiId, cfg.loId, s.hi, s.toHi[0], cfg.hiSummary, 1);
    }
  }

  lemma {:induction false} Drained(cfg: Config, s: System) returns (acts: seq<Action>)
    requires s.lo.state == Init && s.hi.state == Init
    ensures Possible(cfg, s, acts) && After(cfg, s, acts) == Dropped(s)
    decreases |s.toLo| + |s.toHi|
  {
    if s.toLo == [] && s.toHi == [] {
      acts := [];
    } else {
      DroppedOne(cfg, s);
      hide Next, Possible, After, Quiet;
      var a := if s.toLo != [] then ReceiveLo(1) else ReceiveHi(1);
      var rest := Drained(cfg, Next(cfg, s, a));
      Prepended(cfg, s, a, rest);
      acts := [a] + rest;
    }
  }

  lemma BothDrop(cfg: Config, s: System)
    requires Done(s)
    ensures Next(cfg, Next(cfg, s, HelloLo(false, false)), HelloHi(false, false))
         == s.(lo := s.lo.(state := Init), hi := s.hi.(state := Init))
  {
  }

  /** A flap after a completed exchange: both neighbors fall back to Init and keep their lists. */
  lemma Flapped(cfg: Config, s: System) returns (acts: seq<Action>)
    requires Done(s)
    ensures Possible(cfg, s, acts) && After(cfg, s, acts) == Dropped(s)
  {
    var one := Next(cfg, s, HelloLo(false, false));
    var two := Next(cfg, one, HelloHi(false, false));
    BothDrop(cfg, s);
    hide Next, Possible, After, Quiet, Done;
    var rest := Drained(cfg, two);
    Prepended(cfg, one, HelloHi(false, false), rest);
    Prepended(cfg, s, HelloLo(false, false), [HelloHi(false, false)] + rest);
    acts := [HelloLo(false, false)] + ([HelloHi(false, false)] + rest);
  }

  /** The new lists are harmless after the old ones: the master describes the same headers as before,
      the slave still describes the old ones and new ones only in its first chunk. */
  predicate ListsCompatible(before: Config, after: Config) {
    && Among(before.hiSummary, after.hiSummary) && Among(after.hiSummary, before.hiSummary)
    && Among(before.loSummary, after.loSummary) && Among(after.loSummary, before.loSummary + after.FirstChunk())
  }

  /**
   An adjacency that completed an exchange, fell back to Init on both sides and comes back with other
   databases: the next exchange is bound to be correct if and only if the lists are compatible.
   */
  lemma FlapExact(before: Config, after: Config, run: seq<System>)
    requires IsExchange(before, run) && Fresh(run[0].lo) && Fresh(run[0].hi) && Done(run[|run| - 1]) && after.Valid()
    ensures exists full :: IsRun(before, full) && run <= full && full[|full| - 1] == Dropped(run[|run| - 1])
    ensures AlwaysCorrect(after, Dropped(run[|run| - 1])) <==> ListsCompatible(before, after)
  {
    var s := run[|run| - 1];
    ExchangeIsRun(before, run);
    var acts := Flapped(before, s);
    var full := Followed(before, run, acts);
    ExchangeCorrect(before, run);
    ExchangeKeepsInv(before, run);
    assert s.lo.peerDone && s.hi.peerDone by {
      hide Missing, Flying, Negotiation, Announced, HeardEnough, Within, CoveredBy, FirstPending, HasOpening;
    }
    LeftoversExact(after, Dropped(s));
    hide AlwaysCorrect, IsExchange, IsRun, Inv;
    assert forall h :: h in s.hi.summaryRecv <==> h in before.loSummary;
    assert s.lo.summaryRecv == before.hiSummary;
  }

  /** So a flap across which the master's list changed can end with the wrong headers. */
  lemma FlapCanFail(before: Config, after: Config, s: System)
    requires before.Valid() && after.Valid() && Initial(s) && !ListsCompatible(before, after)
    ensures exists full, exchange :: IsRun(before, full) && full[0] == s
              && IsExchange(after, exchange) && exchange[0] == full[|full| - 1]
              && !Correct(after, exchange[|exchange| - 1])
  {
    assert IsExchange(before, [s]);
    ExchangeCanComplete(before, [s]);
    var run :| IsExchange(before, run) && [s] <= run && Done(run[|run| - 1]);
    assert run[0] == [s][0];
    FlapExact(before, after, run);
    var full :| IsRun(before, full) && run <= full && full[|full| - 1] == Dropped(run[|run| - 1]);
    LeftoversExact(after, Dropped(run[|run| - 1]));
    var exchange := HarmfulFails(after, Dropped(run[|run| - 1]));
    assert full[0] == s;
  }
}

/**
 Every Database Description exchange can be brought to its end: from each reachable state of the two
 routers, whatever they started with, there is a continuation after which both have left Exchange.
 */
module ExchangeCompletion {
  import opened Numbers
  import opened OspfV3Types
  import opened Adjacency
  import opened DatabaseExchange

  predicate Done(s: System) {
    Left(s.lo) && Left(s.hi)
  }

  predicate HasChunk(ch: Channel) {
    exists i :: 0 <= i < |ch| && !ch[i].init
  }

  /** A schedule that drives the exchange forward. */
  function Plan(s: System): Action {
    if s.hi.state in {Down, Init, TwoWay} then HelloHi(true, true)
    else if s.lo.state in {Down, Init, TwoWay} then HelloLo(true, true)
    else if s.hi.state == ExStart then
      if s.lo.state == ExStart then (if s.toLo == [] then EmitHi(1) else ReceiveLo(1))
      else (if HasChunk(s.toHi) then ReceiveHi(1) else EmitLo(1))
    else if s.hi.state == Exchange then
      if s.hi.peerDone then EmitHi(1)
      else if HasLast(s.toHi) then ReceiveHi(1)
      else EmitLo(1)
    else if s.lo.peerDone then EmitLo(1)
    else ReceiveLo(1)
  }

  /** How far a neighbor is from the end. */
  function Distance(n: Neighbor): nat {
    match n.state
    case Loading | Full => 0
    case Exchange => if n.peerDone then 1 else 2
    case ExStart => 3
    case TwoWay => 4
    case _ => 5
  }

  /** What is left to do before one of the distances shrinks: something to put on the wire, headers to
      send, packets to take in. */
  function Waiting(s: System): nat {
    if s.hi.state == ExStart then
      if s.lo.state == ExStart then (if s.toLo == [] then 1 else 0)
      else (if HasChunk(s.toHi) then 0 else 1)
    else if s.hi.state == Exchange && !s.hi.peerDone && !HasLast(s.toHi) then 1
    else 0
  }

  function Unsent(s: System): nat {
    if s.hi.state == Exchange && s.hi.peerDone then |s.hi.summaryTx|
    else if s.hi.state == Exchange || (Left(s.hi) && s.lo.peerDone) then |s.lo.summaryTx|
    else 0
  }

  function Unread(s: System): nat {
    if Left(s.hi) then |s.toLo| else |s.toHi|
  }

  /** Lexicographic progress. */
  predicate Closer(s': System, s: System) {
    var d', d := Distance(s'.hi), Distance(s.hi);
    var e', e := Distance(s'.lo), Distance(s.lo);
    || d' < d
    || (d' == d && e' < e)
    || (d' == d && e' == e && Waiting(s') < Waiting(s))
    || (d' == d && e' == e && Waiting(s') == Waiting(s) && Unsent(s') < Unsent(s))
    || (d' == d && e' == e && Waiting(s') == Waiting(s) && Unsent(s') == Unsent(s) && Unread(s') < Unread(s))
  }

  // ---------------------------------------------------------------- one step

  /** An emission in Exchange ends the sender's list or shortens it, and ends the exchange if the peer
      is done too. */
  lemma EmitShrinks(n: Neighbor, db: Headers, clock: u32)
    requires n.state == Exchange
    ensures Emitted(n, clock).more ==> |AfterEmit(n, db, clock).summaryTx| < |n.summaryTx|
    ensures !Emitted(n, clock).more && n.peerDone ==> Left(AfterEmit(n, db, clock))
    ensures AfterEmit(n, db, clock).state == Exchange || Left(AfterEmit(n, db, clock))
  {
    hide Missing;
  }

  lemma PushedChunk(ch: Channel, d: DbDesc)
    requires !d.init
    ensures HasChunk(ch + [d])
  {
    assert (ch + [d])[|ch|] == d;
  }

  lemma LastIsChunk(ch: Channel)
    requires HasLast(ch) && Ordered(ch)
    ensures HasChunk(ch)
  {
    var i :| 0 <= i < |ch| && !ch[i].more;
    assert !ch[i].init;
  }

  lemma LastIsThere(ch: Channel)
    requires HasLast(ch)
    ensures ch != []
  {
  }

  lemma PoppedChunk(ch: Channel)
    requires HasChunk(ch)
    ensures ch != [] && (ch[0].init ==> HasChunk(ch[1..]))
  {
    var i :| 0 <= i < |ch| && !ch[i].init;
    if i > 0 {
      assert ch[1..][i - 1] == ch[i];
    }
  }

  lemma ProgressToExStart(cfg: Config, lb: Base, hb: Base, s: System)
    requires Inv(cfg, lb, hb, s) && (s.hi.state in {Down, Init, TwoWay} || s.lo.state in {Down, Init, TwoWay})
    ensures Enabled(s, Plan(s)) && Closer(Next(cfg, s, Plan(s)), s)
  {
    hide Inv;
  }

  lemma ProgressInNegotiation(cfg: Config, lb: Base, hb: Base, s: System)
    requires Inv(cfg, lb, hb, s) && s.hi.state == ExStart && (s.lo.state == ExStart || Exchanging(s.lo))
    ensures Enabled(s, Plan(s)) && Closer(Next(cfg, s, Plan(s)), s)
  {
    hide AfterEmit, Emitted, ProcessDd, Missing, MasterReceives, Flying, HasChunk, HasLast, Ordered;
    if s.lo.state == ExStart {
      if s.toLo == [] {
        EmitFacts(s.hi, cfg.hiDb, 1);
      } else {
        ReceiveLoFacts(cfg, s, 1);
      }
    } else if HasLast(s.toHi) || HasChunk(s.toHi) {
      if HasLast(s.toHi) {
        LastIsChunk(s.toHi);
      }
      PoppedChunk(s.toHi);
      ReceiveHiFacts(cfg, s, 1);
    } else {
      EmitFacts(s.lo, cfg.loDb, 1);
      PushedChunk(s.toHi, Emitted(s.lo, 1));
    }
  }

  lemma ProgressOfSlaveList(cfg: Config, lb: Base, hb: Base, s: System)
    requires Inv(cfg, lb, hb, s) && s.hi.state == Exchange && !s.hi.peerDone
    ensures Enabled(s, Plan(s)) && Closer(Next(cfg, s, Plan(s)), s)
  {
    hide AfterEmit, Emitted, ProcessDd, Missing, MasterReceives, Flying, HasChunk, HasLast, Ordered;
    if HasLast(s.toHi) {
      LastIsThere(s.toHi);
      PoppedLast(s.toHi);
      ReceiveHiFacts(cfg, s, 1);
    } else {
      assert s.lo.state == Exchange;
      EmitFacts(s.lo, cfg.loDb, 1);
      EmitShrinks(s.lo, cfg.loDb, 1);
      PushedLast(s.toHi, Emitted(s.lo, 1));
    }
  }

  lemma ProgressOfMasterList(cfg: Config, lb: Base, hb: Base, s: System)
    requires Inv(cfg, lb, hb, s) && s.hi.state == Exchange && s.hi.peerDone
    ensures Enabled(s, Plan(s)) && Closer(Next(cfg, s, Plan(s)), s)
  {
    hide AfterEmit, Emitted, Missing, MasterReceives, SlaveReceives, Flying, HasChunk, HasLast, Ordered;
    EmitFacts(s.hi, cfg.hiDb, 1);
    EmitShrinks(s.hi, cfg.hiDb, 1);
  }

  lemma ProgressOfSlaveEnd(cfg: Config, lb: Base, hb: Base, s: System)
    requires Inv(cfg, lb, hb, s) && Left(s.hi) && !Left(s.lo)
    ensures Enabled(s, Plan(s)) && Closer(Next(cfg, s, Plan(s)), s)
  {
    hide AfterEmit, Emitted, ProcessDd, Missing, MasterReceives, Flying, HasChunk, HasLast, Ordered;
    assert s.lo.state == Exchange;
    if s.lo.peerDone {
      EmitFacts(s.lo, cfg.loDb, 1);
      EmitShrinks(s.lo, cfg.loDb, 1);
    } else {
      LastIsThere(s.toLo);
      ReceiveLoFacts(cfg, s, 1);
    }
  }

  lemma Progress(cfg: Config, lb: Base, hb: Base, s: System)
    requires Inv(cfg, lb, hb, s) && !Done(s)
    ensures Enabled(s, Plan(s)) && Closer(Next(cfg, s, Plan(s)), s)
  {
    assert Negotiation(s);
    hide Plan, Closer, Next, Enabled, SlaveReceives, MasterReceives, Ordered, Opening;
    if s.hi.state in {Down, Init, TwoWay} || s.lo.state in {Down, Init, TwoWay} {
      ProgressToExStart(cfg, lb, hb, s);
    } else if s.hi.state == ExStart {
      ProgressInNegotiation(cfg, lb, hb, s);
    } else if s.hi.state == Exchange {
      if s.hi.peerDone {
        ProgressOfMasterList(cfg, lb, hb, s);
      } else {
        ProgressOfSlaveList(cfg, lb, hb, s);
      }
    } else {
      ProgressOfSlaveEnd(cfg, lb, hb, s);
    }
  }

  // ---------------------------------------------------------------- what the schedule keeps

  /** At most one opening packet is ever under way, so the slave is not restarted. */
  predicate Calm(s: System) {
    if Exchanging(s.lo) then !HasOpening(s.toLo) else |s.toLo| <= 1
  }

  /** The lists only grow. */
  predicate Grows(s: System, s': System) {
    s.lo.summaryRecv <= s'.lo.summaryRecv && s.hi.summaryRecv <= s'.hi.summaryRecv
  }

  lemma PlanKeepsCalm(cfg: Config, lb: Base, hb: Base, s: System)
    requires Inv(cfg, lb, hb, s) && Calm(s) && !Done(s) && Enabled(s, Plan(s))
    ensures Calm(Next(cfg, s, Plan(s))) && Grows(s, Next(cfg, s, Plan(s)))
  {
    hide AfterEmit, Emitted, ProcessDd, AfterHello, SlaveReceives, MasterReceives, HasChunk, HasLast, HasOpening,
      Ordered, Opening, Announced, ChunkSize;
    match Plan(s)
    case HelloLo(_, _) => HelloNeighbor(s.lo, true);
    case HelloHi(_, _) => HelloNeighbor(s.hi, true);
    case EmitLo(_) => EmitFacts(s.lo, cfg.loDb, 1);
    case EmitHi(_) =>
      EmitFacts(s.hi, cfg.hiDb, 1);
      PushedOpening(s.toLo, Emitted(s.hi, 1));
    case ReceiveLo(_) =>
      ReceiveLoFacts(cfg, s, 1);
      PoppedOpening(s.toLo);
      assert !HasOpening([]) by { NoOpening(); }
    case ReceiveHi(_) => ReceiveHiFacts(cfg, s, 1);
  }

  lemma NoOpening()
    ensures !HasOpening([])
  {
  }

  // ---------------------------------------------------------------- the theorem

  lemma {:induction false} PlanCompletes(cfg: Config, lb: Base, hb: Base, s: System) returns (acts: seq<Action>)
    requires Inv(cfg, lb, hb, s)
    ensures Possible(cfg, s, acts) && Quiet(acts) && Done(After(cfg, s, acts))
    ensures Calm(s) ==> Grows(s, After(cfg, s, acts))
    decreases Distance(s.hi), Distance(s.lo), Waiting(s), Unsent(s), Unread(s)
  {
    if Done(s) {
      acts := [];
    } else {
      Progress(cfg, lb, hb, s);
      hide Inv, Next, Enabled, Distance, Waiting, Unsent, Unread, Done, Calm, Possible, After, Quiet;
      PlanIsQuiet(s);
      hide Plan, Action.IsOneWay;
      StepKeepsInv(cfg, lb, hb, s, Plan(s));
      if Calm(s) {
        PlanKeepsCalm(cfg, lb, hb, s);
      }
      var rest := PlanCompletes(cfg, lb, hb, Next(cfg, s, Plan(s)));
      Prepended(cfg, s, Plan(s), rest);
      acts := [Plan(s)] + rest;
    }
  }

  lemma PlanIsQuiet(s: System)
    ensures !Plan(s).IsOneWay()
  {
  }

  /**
   No exchange is stuck: every exchange, also of neighbors with leftovers, extends to one after which
   both sides have left; if they were fresh, they then hold each other's full header lists.
   */
  lemma ExchangeCanComplete(cfg: Config, run: seq<System>)
    requires IsExchange(cfg, run)
    ensures exists full :: IsExchange(cfg, full) && run <= full
              && Done(full[|full| - 1])
              && (Fresh(run[0].lo) && Fresh(run[0].hi) ==> Correct(cfg, full[|full| - 1]))
  {
    ExchangeKeepsInv(cfg, run);
    var acts := PlanCompletes(cfg, BaseOf(run[0].lo), BaseOf(run[0].hi), run[|run| - 1]);
    var full := Followed(cfg, run, acts);
    if Fresh(run[0].lo) && Fresh(run[0].hi) {
      ExchangeCorrect(cfg, full);
    }
  }
}

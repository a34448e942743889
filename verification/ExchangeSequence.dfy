/**
 The sequence numbers of a Database Description exchange (section 10.8 of RFC 2328): the master counts on from the
 negotiated number by one for every packet it takes in, the slave repeats the number of the last packet it received.
 */
module ExchangeSequence {
  import opened Numbers
  import opened OspfV3Types
  import opened Adjacency
  import opened DatabaseExchange

  /** What has been sent: by the master, with the number of packets it had taken in while exchanging; by the slave, with the
      sequence number of the last packet it had received. */
  datatype Trace = Trace(hiSent: seq<(DbDesc, nat)>, takenIn: nat, loSent: seq<(DbDesc, Option<u32>)>, loLast: Option<u32>)

  const NOTHING_SENT := Trace([], 0, [], None)

  ghost function Recorded(cfg: Config, s: System, a: Action, tr: Trace): Trace
    requires Enabled(s, a)
  {
    match a
    case EmitHi(clock) => tr.(hiSent := tr.hiSent + [(Emitted(s.hi, clock), tr.takenIn)])
    case EmitLo(clock) => tr.(loSent := tr.loSent + [(Emitted(s.lo, clock), tr.loLast)])
    case ReceiveHi(clock) => if Next(cfg, s, a).hi.state == Exchange then tr.(takenIn := tr.takenIn + 1) else tr
    case ReceiveLo(clock) => tr.(loLast := Some(s.toLo[0].sequence))
    case _ => tr
  }

  ghost function TraceFrom(cfg: Config, s: System, acts: seq<Action>, tr: Trace): Trace
    requires Possible(cfg, s, acts)
    decreases |acts|
  {
    if acts == [] then tr else TraceFrom(cfg, Next(cfg, s, acts[0]), acts[1..], Recorded(cfg, s, acts[0], tr))
  }

  /** A packet of the master: an opening packet with the negotiated number before anything was taken in, or one with the
      number of packets taken in added, modulo 2^32. */
  ghost predicate MasterPacket(negotiated: u32, sent: (DbDesc, nat)) {
    if sent.0.init then sent.1 == 0 && sent.0.sequence == negotiated
    else sent.1 > 0 && sent.0.sequence == (negotiated + sent.1) % 0x1_0000_0000
  }

  /** A packet of the slave that is not an opening one repeats the last number it received. */
  ghost predicate SlavePacket(sent: (DbDesc, Option<u32>)) {
    sent.0.init || sent.1 == Some(sent.0.sequence)
  }

  ghost predicate InSequence(negotiated: u32, tr: Trace) {
    && (forall j :: 0 <= j < |tr.hiSent| ==> MasterPacket(negotiated, tr.hiSent[j]))
    && (forall j :: 0 <= j < |tr.loSent| ==> SlavePacket(tr.loSent[j]))
  }

  ghost predicate Counting(negotiated: u32, s: System, tr: Trace) {
    && InSequence(negotiated, tr)
    && (!Exchanging(s.hi) ==>
          tr.takenIn == 0 && (tr.hiSent != [] ==> s.hi.state == ExStart && s.hi.ddSeq == negotiated && negotiated != 0))
    && (s.hi.state == Exchange ==> tr.takenIn > 0 && s.hi.ddSeq == (negotiated + tr.takenIn) % 0x1_0000_0000)
    && (s.lo.state == Exchange ==> tr.loLast == Some(s.lo.ddSeq))
  }

  // ---------------------------------------------------------------- one step

  lemma HelloCounts(cfg: Config, s: System, a: Action, negotiated: u32, tr: Trace)
    requires Counting(negotiated, s, tr) && a.IsHello() && !a.IsOneWay()
    ensures Counting(negotiated, Next(cfg, s, a), Recorded(cfg, s, a, tr))
  {
    hide InSequence, AfterHello;
    if a.HelloLo? {
      HelloNeighbor(s.lo, a.adjacent);
    } else {
      HelloNeighbor(s.hi, a.adjacent);
    }
  }

  lemma EmitHiCounts(cfg: Config, s: System, clock: u32, negotiated: u32, tr: Trace) returns (n: u32)
    requires Negotiation(s) && Counting(negotiated, s, tr) && MayEmit(s.hi) && clock > 0
    ensures Counting(n, Next(cfg, s, EmitHi(clock)), Recorded(cfg, s, EmitHi(clock), tr))
  {
    hide AfterEmit, Emitted, Ordered, Opening, Missing, ChunkSize, SlavePacket;
    EmitFacts(s.hi, cfg.hiDb, clock);
    n := if s.hi.state == ExStart && tr.hiSent == [] then Next(cfg, s, EmitHi(clock)).hi.ddSeq else negotiated;
  }

  lemma EmitLoCounts(cfg: Config, s: System, clock: u32, negotiated: u32, tr: Trace)
    requires Negotiation(s) && Counting(negotiated, s, tr) && MayEmit(s.lo) && clock > 0
    ensures Counting(negotiated, Next(cfg, s, EmitLo(clock)), Recorded(cfg, s, EmitLo(clock), tr))
  {
    hide AfterEmit, Emitted, Ordered, Opening, Missing, ChunkSize, MasterPacket;
    EmitFacts(s.lo, cfg.loDb, clock);
  }

  lemma ReceiveLoCounts(cfg: Config, s: System, clock: u32, negotiated: u32, tr: Trace)
    requires cfg.Valid() && Negotiation(s) && Counting(negotiated, s, tr) && s.toLo != [] && clock > 0
    ensures Counting(negotiated, Next(cfg, s, ReceiveLo(clock)), Recorded(cfg, s, ReceiveLo(clock), tr))
  {
    hide ProcessDd, Ordered, Opening, MasterPacket, SlavePacket;
    ReceiveLoFacts(cfg, s, clock);
  }

  /** The number after a packet was taken in. */
  lemma CountedOn(negotiated: u32, count: nat, sequence: u32)
    requires sequence == (negotiated + count) % 0x1_0000_0000
    ensures NextSeq(sequence) == (negotiated + (count + 1)) % 0x1_0000_0000
  {
  }

  /** What a reception does to the master's number. */
  lemma MasterNumber(cfg: Config, s: System, clock: u32)
    requires cfg.Valid() && Negotiation(s) && s.toHi != [] && clock > 0
    ensures var n, n' := s.hi, ProcessDd(cfg.hiId, cfg.loId, s.hi, s.toHi[0], cfg.hiSummary, clock);
            && (n'.state == Exchange ==> (n.state == Exchange || n.state == ExStart) && n'.ddSeq == NextSeq(n.ddSeq))
            && (n'.state != Exchange ==> (n.state == TwoWay && n'.state == ExStart) || n' == n)
  {
    hide ProcessDd, Ordered, Opening, NextSeq;
    ReceiveHiFacts(cfg, s, clock);
    var dd := s.toHi[0];
    if s.hi.state == TwoWay || s.hi.state == ExStart {
      DdBeforeExchange(cfg.hiId, cfg.loId, s.hi, dd, cfg.hiSummary, clock);
    } else if s.hi.state == Exchange || s.hi.state == Loading || s.hi.state == Full {
      DdInExchange(cfg.hiId, cfg.loId, s.hi, dd, cfg.hiSummary, clock);
    } else {
      DdIgnored(cfg.hiId, cfg.loId, s.hi, dd, cfg.hiSummary, clock);
    }
  }

  lemma ReceiveHiCounts(cfg: Config, s: System, clock: u32, negotiated: u32, tr: Trace) returns (n: u32)
    requires cfg.Valid() && Negotiation(s) && Counting(negotiated, s, tr) && s.toHi != [] && clock > 0
    ensures Counting(n, Next(cfg, s, ReceiveHi(clock)), Recorded(cfg, s, ReceiveHi(clock), tr))
  {
    hide ProcessDd, Ordered, Opening, NextSeq, MasterPacket, SlavePacket;
    MasterNumber(cfg, s, clock);
    n := if s.hi.state == ExStart && tr.hiSent == [] then s.hi.ddSeq else negotiated;
    if s.hi.state == Exchange || s.hi.state == ExStart {
      CountedOn(n, tr.takenIn, s.hi.ddSeq);
    }
  }

  // ---------------------------------------------------------------- the theorem

  lemma StepCounts(cfg: Config, s: System, a: Action, negotiated: u32, tr: Trace) returns (n: u32)
    requires cfg.Valid() && Negotiation(s) && Counting(negotiated, s, tr) && Enabled(s, a) && !a.IsOneWay()
    ensures Counting(n, Next(cfg, s, a), Recorded(cfg, s, a, tr))
  {
    hide Counting, Negotiation, Recorded, Next;
    n := negotiated;
    match a
    case HelloLo(_, _) => HelloCounts(cfg, s, a, n, tr);
    case HelloHi(_, _) => HelloCounts(cfg, s, a, n, tr);
    case EmitLo(clock) => EmitLoCounts(cfg, s, clock, n, tr);
    case EmitHi(clock) => n := EmitHiCounts(cfg, s, clock, n, tr);
    case ReceiveLo(clock) => ReceiveLoCounts(cfg, s, clock, n, tr);
    case ReceiveHi(clock) => n := ReceiveHiCounts(cfg, s, clock, n, tr);
  }

  lemma {:induction false} KeepsCounting(cfg: Config, lb: Base, hb: Base, s: System, acts: seq<Action>, negotiated: u32, tr: Trace)
    returns (n: u32)
    requires Inv(cfg, lb, hb, s) && Possible(cfg, s, acts) && Quiet(acts) && Counting(negotiated, s, tr)
    ensures InSequence(n, TraceFrom(cfg, s, acts, tr))
    decreases |acts|
  {
    hide Inv, Counting, Negotiation, InSequence, Quiet, Recorded, Next, Enabled;
    if acts == [] {
      n := negotiated;
      CountsInSequence(n, s, tr);
    } else {
      var a := acts[0];
      QuietRest(acts);
      InvParts(cfg, lb, hb, s);
      StepKeepsInv(cfg, lb, hb, s, a);
      n := StepCounts(cfg, s, a, negotiated, tr);
      n := KeepsCounting(cfg, lb, hb, Next(cfg, s, a), acts[1..], n, Recorded(cfg, s, a, tr));
    }
  }

  lemma CountsInSequence(negotiated: u32, s: System, tr: Trace)
    requires Counting(negotiated, s, tr)
    ensures InSequence(negotiated, tr)
  {
  }

  lemma InvParts(cfg: Config, lb: Base, hb: Base, s: System)
    requires Inv(cfg, lb, hb, s)
    ensures cfg.Valid() && Negotiation(s)
  {
  }

  /**
   Sequence numbers: in every exchange there is a negotiated number such that every packet of the master carries it plus the
   number of packets the master had taken in by then, modulo 2^32, and every answer of the slave repeats the number of the
   last packet the slave had received.
   */
  lemma SequenceNumbers(cfg: Config, s: System, acts: seq<Action>)
    requires cfg.Valid() && Start(s) && Possible(cfg, s, acts) && Quiet(acts)
    ensures exists negotiated :: InSequence(negotiated, TraceFrom(cfg, s, acts, NOTHING_SENT))
  {
    hide Inv, InSequence, Possible, Quiet;
    StartInv(cfg, s);
    assert InSequence(0, NOTHING_SENT) by { NothingIsInSequence(); }
    var n := KeepsCounting(cfg, BaseOf(s.lo), BaseOf(s.hi), s, acts, 0, NOTHING_SENT);
  }

  lemma NothingIsInSequence()
    ensures InSequence(0, NOTHING_SENT)
  {
  }
}

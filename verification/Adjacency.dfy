/**
 The Database Description side of an OSPFv3 neighbor (src/instance_v3.rs; sections 10.6 and 10.8 of
 RFC 2328): negotiation, chunked exchange of LSA headers, and the request list built at the end.
 */
module Adjacency {
  import opened Numbers
  import opened OspfV3Types

  type Headers = seq<LsaV3Header>

  const MTU := 1500
  const MAX_HEADERS := (MTU - (16 + 12)) / 20

  datatype DbDesc = DbDesc(init: bool, more: bool, master: bool, sequence: u32, headers: Headers) {
    /** The empty packet with I, M and MS set that opens a negotiation. */
    predicate OpensNegotiation() {
      init && more && master && headers == []
    }
  }

  /** The exchange fields of a neighbor. */
  datatype Neighbor = Neighbor(
    state: NeighborStateV3, ddMaster: bool, ddSeq: u32, summaryTx: Headers, summaryRecv: Headers,
    responsePending: bool, peerDone: bool, sendFinal: bool, requestList: Headers, lsrPending: bool)

  // ---------------------------------------------------------------- process_hello

  /** The neighbor-state part of `process_hello`. */
  function AfterHello(n: Neighbor, seesUs: bool, adjacent: bool): Neighbor {
    var heard := if n.state == Down then n.(state := Init) else n;
    var seen :=
      if seesUs then (if heard.state == Init then heard.(state := TwoWay) else heard)
      else if heard.state.AtLeast(TwoWay) then heard.(state := Init)
      else heard;
    if adjacent && seen.state == TwoWay then seen.(state := ExStart, ddSeq := 0) else seen
  }

  // ---------------------------------------------------------------- process_dd

  /** A fresh opening packet past ExStart drops the exchange back to ExStart. */
  function Restarted(selfId: u32, peerId: u32, n: Neighbor, dd: DbDesc, clock: u32): Neighbor {
    if dd.OpensNegotiation() && n.state.AtLeast(Exchange) then
      n.(state := ExStart, ddSeq := clock, ddMaster := selfId > peerId, summaryTx := [], summaryRecv := [],
         peerDone := false, sendFinal := false, requestList := [])
    else if n.state == TwoWay then n.(state := ExStart, ddSeq := clock, ddMaster := selfId > peerId)
    else n
  }

  /** The negotiation rule: the higher router id is master. */
  function Negotiated(selfId: u32, peerId: u32, n: Neighbor, dd: DbDesc, ours: Headers): Neighbor {
    if n.state != ExStart then n
    else if peerId > selfId && dd.OpensNegotiation() then
      n.(ddMaster := false, ddSeq := dd.sequence, state := Exchange, summaryTx := ours, responsePending := true)
    else if peerId < selfId && !dd.init && !dd.master && dd.sequence == n.ddSeq then
      n.(ddMaster := true, state := Exchange, summaryTx := ours, responsePending := true)
    else n
  }

  function Absorbed(n: Neighbor, dd: DbDesc): Neighbor {
    if n.state != Exchange then n
    else
      n.(summaryRecv := n.summaryRecv + dd.headers, peerDone := n.peerDone || !dd.more,
         ddSeq := if n.ddMaster then (n.ddSeq + 1) % 0x1_0000_0000 else dd.sequence, responsePending := true)
  }

  function ProcessDd(selfId: u32, peerId: u32, n: Neighbor, dd: DbDesc, ours: Headers, clock: u32): Neighbor {
    Absorbed(Negotiated(selfId, peerId, Restarted(selfId, peerId, n, dd, clock), dd, ours), dd)
  }

  // ---------------------------------------------------------------- build_dd, finish_dd, emit_pending_dds

  function ChunkSize(n: Neighbor): nat {
    if |n.summaryTx| < MAX_HEADERS then |n.summaryTx| else MAX_HEADERS
  }

  function BuiltPacket(n: Neighbor): DbDesc {
    if n.state == ExStart then DbDesc(true, true, true, n.ddSeq, [])
    else if n.state == Exchange then
      DbDesc(false, n.summaryTx[ChunkSize(n)..] != [], n.ddMaster, n.ddSeq, n.summaryTx[..ChunkSize(n)])
    else DbDesc(false, false, false, n.ddSeq, [])
  }

  function AfterBuild(n: Neighbor): Neighbor {
    n.(summaryTx := if n.state == Exchange then n.summaryTx[ChunkSize(n)..] else n.summaryTx,
       sendFinal := false, responsePending := false)
  }

  /** The first of our headers for the same LSA. */
  function Find(ours: Headers, h: LsaV3Header): Option<LsaV3Header> {
    if ours == [] then None
    else if ours[0].SameLsa(h) then Some(ours[0])
    else Find(ours[1..], h)
  }

  predicate Needed(ours: Headers, h: LsaV3Header) {
    var have := Find(ours, h);
    have.None? || h.lsSequenceNumber > have.value.lsSequenceNumber
  }

  function Missing(ours: Headers, theirs: Headers): Headers {
    if theirs == [] then []
    else
      var front := Missing(ours, theirs[..|theirs| - 1]);
      var last := theirs[|theirs| - 1];
      if Needed(ours, last) then front + [last] else front
  }

  function Finished(n: Neighbor, ours: Headers): Neighbor {
    var requests := Missing(ours, n.summaryRecv);
    if requests == [] then n.(requestList := requests, state := Full)
    else n.(requestList := requests, state := Loading, lsrPending := true)
  }

  /** ExStart and Exchange neighbors are sent to again after the retransmit interval. */
  predicate MayEmit(n: Neighbor) {
    n.state == ExStart || n.state == Exchange || ((n.state == Loading || n.state == Full) && n.sendFinal)
  }

  function WithSeq(n: Neighbor, clock: u32): Neighbor {
    if n.state == ExStart && n.ddSeq == 0 then n.(ddSeq := clock) else n
  }

  function Emitted(n: Neighbor, clock: u32): DbDesc {
    BuiltPacket(WithSeq(n, clock))
  }

  /** After the last chunk went out and the peer has said it is done, the exchange is over. */
  function AfterEmit(n: Neighbor, db: Headers, clock: u32): Neighbor {
    var sent := AfterBuild(WithSeq(n, clock));
    if sent.state == Exchange && sent.peerDone && sent.summaryTx == [] then Finished(sent, db) else sent
  }

  class NeighborV3 {
    var state: NeighborStateV3
    var ddMaster: bool
    var ddSeq: u32
    var summaryTx: Headers
    var summaryRecv: Headers
    var responsePending: bool
    var peerDone: bool
    var sendFinal: bool
    var requestList: Headers
    var lsrPending: bool

    ghost function Fields(): Neighbor
      reads this
    {
      Neighbor(state, ddMaster, ddSeq, summaryTx, summaryRecv, responsePending, peerDone, sendFinal, requestList,
               lsrPending)
    }

    /** `process_dd`; `clock` stands for the seconds read from the timer, at least 1. The source reads the time
        elapsed since that very moment, so in practice it is always 1 and sequence numbers repeat. */
    method ReceiveDd(selfId: u32, peerId: u32, dd: DbDesc, ours: Headers, clock: u32)
      modifies this
      ensures Fields() == ProcessDd(selfId, peerId, old(Fields()), dd, ours, clock)
    {
      RestartIfOpened(selfId, peerId, dd, clock);
      var settled := Negotiate(selfId, peerId, dd, ours);
      if !settled {
        return;
      }
      Absorb(dd);
    }

    method RestartIfOpened(selfId: u32, peerId: u32, dd: DbDesc, clock: u32)
      modifies this
      ensures Fields() == Restarted(selfId, peerId, old(Fields()), dd, clock)
    {
      if dd.init && dd.more && dd.master && dd.headers == [] && state.Rank() > ExStart.Rank() {
        state, ddSeq, ddMaster := ExStart, clock, selfId > peerId;
        summaryTx, summaryRecv, peerDone, sendFinal, requestList := [], [], false, false, [];
      }
      if state == TwoWay {
        state, ddSeq, ddMaster := ExStart, clock, selfId > peerId;
      }
    }

    /** Returns false when the neighbor has to stay in ExStart. */
    method Negotiate(selfId: u32, peerId: u32, dd: DbDesc, ours: Headers) returns (settled: bool)
      modifies this
      ensures Fields() == Negotiated(selfId, peerId, old(Fields()), dd, ours)
      ensures settled <==> state != ExStart
    {
      if state == ExStart {
        if peerId > selfId && dd.init && dd.more && dd.master && dd.headers == [] {
          ddMaster, ddSeq, state, summaryTx, responsePending := false, dd.sequence, Exchange, ours, true;
        } else if peerId < selfId && !dd.init && !dd.master && dd.sequence == ddSeq {
          ddMaster, state, summaryTx, responsePending := true, Exchange, ours, true;
        } else {
          return false;
        }
      }
      return true;
    }

    method Absorb(dd: DbDesc)
      modifies this
      ensures Fields() == Absorbed(old(Fields()), dd)
    {
      if state == Exchange {
        summaryRecv := summaryRecv + dd.headers;
        if !dd.more {
          peerDone := true;
        }
        if ddMaster {
          ddSeq := (ddSeq + 1) % 0x1_0000_0000;
        } else {
          ddSeq := dd.sequence;
        }
        responsePending := true;
      }
    }

    /** `build_dd`: drain the next chunk of our header list. */
    method BuildDd() returns (dd: DbDesc)
      modifies this
      ensures dd == BuiltPacket(old(Fields())) && Fields() == AfterBuild(old(Fields()))
    {
      var init, more, master := false, false, false;
      var headers: Headers := [];
      if state == ExStart {
        init, more, master := true, true, true;
      } else if state == Exchange {
        var take := if |summaryTx| < MAX_HEADERS then |summaryTx| else MAX_HEADERS;
        headers, summaryTx := summaryTx[..take], summaryTx[take..];
        more, master := summaryTx != [], ddMaster;
      }
      sendFinal := false;
      dd := DbDesc(init, more, master, ddSeq, headers);
      responsePending := false;
    }

    /** `finish_dd`: request what the peer has and we lack or have an older instance of. */
    method FinishDd(ours: Headers)
      modifies this
      ensures Fields() == Finished(old(Fields()), ours)
    {
      var req: Headers := [];
      for i := 0 to |summaryRecv|
        invariant req == Missing(ours, summaryRecv[..i])
        invariant Fields() == old(Fields())
      {
        assert summaryRecv[..i + 1][..i] == summaryRecv[..i];
        var have := Find(ours, summaryRecv[i]);
        if have.None? || summaryRecv[i].lsSequenceNumber > have.value.lsSequenceNumber {
          req := req + [summaryRecv[i]];
        }
      }
      assert summaryRecv[..|summaryRecv|] == summaryRecv;
      requestList := req;
      if requestList == [] {
        state := Full;
      } else {
        state, lsrPending := Loading, true;
      }
    }

    /** The part of `emit_pending_dds` for one neighbor that is due. */
    method EmitDd(db: Headers, clock: u32) returns (dd: DbDesc)
      requires MayEmit(Fields())
      modifies this
      ensures dd == Emitted(old(Fields()), clock) && Fields() == AfterEmit(old(Fields()), db, clock)
    {
      if state == ExStart && ddSeq == 0 {
        ddSeq := clock;
      }
      dd := BuildDd();
      if state == Exchange && peerDone && summaryTx == [] {
        FinishDd(db);
      }
    }
  }

  // ---------------------------------------------------------------- the request list

  lemma {:induction false} MissingMember(ours: Headers, theirs: Headers, h: LsaV3Header)
    ensures h in Missing(ours, theirs) <==> h in theirs && Needed(ours, h)
  {
    if theirs != [] {
      var n := |theirs| - 1;
      MissingMember(ours, theirs[..n], h);
      assert theirs == theirs[..n] + [theirs[n]];
    }
  }

  /** The header that is found for `h`. */
  predicate FoundAt(ours: Headers, i: nat, h: LsaV3Header) {
    i < |ours| && ours[i].SameLsa(h) && forall j :: 0 <= j < i ==> !ours[j].SameLsa(h)
  }

  /** Needed means: the header found first, if any, has a lower sequence number. Scope plays no part. */
  lemma {:induction false} NeededMeans(ours: Headers, h: LsaV3Header)
    ensures Needed(ours, h) <==> forall i: nat :: FoundAt(ours, i, h) ==> h.lsSequenceNumber > ours[i].lsSequenceNumber
  {
    if ours != [] {
      if ours[0].SameLsa(h) {
        assert FoundAt(ours, 0, h);
      } else {
        NeededMeans(ours[1..], h);
        assert Needed(ours, h) == Needed(ours[1..], h);
        forall i: nat ensures FoundAt(ours[1..], i, h) <==> FoundAt(ours, i + 1, h) {
          FoundInRest(ours, i, h);
        }
        assert forall i: nat :: FoundAt(ours, i, h) ==> i > 0 && FoundAt(ours, i - 1 + 1, h);
        hide FoundAt;
      }
    }
  }

  lemma FoundInRest(ours: Headers, i: nat, h: LsaV3Header)
    requires ours != [] && !ours[0].SameLsa(h)
    ensures FoundAt(ours[1..], i, h) <==> FoundAt(ours, i + 1, h)
  {
    if FoundAt(ours[1..], i, h) {
      forall j | 0 <= j < i + 1 ensures !ours[j].SameLsa(h) {
        assert j > 0 ==> ours[1..][j - 1] == ours[j];
      }
    }
    if FoundAt(ours, i + 1, h) {
      forall j | 0 <= j < i ensures !ours[1..][j].SameLsa(h) {
        assert ours[1..][j] == ours[j + 1];
      }
    }
  }

  ghost predicate OneHeaderPerLsa(ours: Headers) {
    forall i, j :: 0 <= i < j < |ours| ==> !ours[i].SameLsa(ours[j])
  }

  /** With one header per LSA, as in a router with a single area, needed means: not held, or held with a lower
      sequence number. */
  lemma NeededInOneArea(ours: Headers, h: LsaV3Header)
    requires OneHeaderPerLsa(ours)
    ensures Needed(ours, h) <==> forall o :: o in ours && o.SameLsa(h) ==> h.lsSequenceNumber > o.lsSequenceNumber
  {
    hide Needed;
    NeededMeans(ours, h);
    forall i: nat | i < |ours| && ours[i].SameLsa(h) ensures FoundAt(ours, i, h) {
      assert forall j :: 0 <= j < i ==> !ours[j].SameLsa(ours[i]);
    }
  }

  // ---------------------------------------------------------------- the events, spelled out

  /** A Hello that does not list us takes the neighbor back to Init; one that does takes it up to 2-Way, or to ExStart if an
      adjacency is to be formed, and leaves it alone beyond that. The exchange fields stay. */
  lemma HelloMeaning(n: Neighbor, seesUs: bool, adjacent: bool)
    ensures var n' := AfterHello(n, seesUs, adjacent);
            if !seesUs then n' == n.(state := Init)
            else if n.state == Down || n.state == Init || n.state == TwoWay then
              n' == if adjacent then n.(state := ExStart, ddSeq := 0) else n.(state := TwoWay)
            else n' == n
  {
    match n.state
    case Down =>
    case Init =>
    case TwoWay =>
    case ExStart =>
    case Exchange =>
    case Loading =>
    case Full =>
  }

  /** Taking in a chunk: its headers, the peer's word that it is done, the next sequence number, and a response due. */
  ghost predicate TakesIn(n: Neighbor, dd: DbDesc, sequence: u32, n': Neighbor) {
    n' == n.(summaryRecv := n.summaryRecv + dd.headers, peerDone := n.peerDone || !dd.more, ddSeq := sequence, responsePending := true)
  }

  ghost function NextSeq(sequence: u32): u32 {
    if sequence == 0xFFFF_FFFF then 0 else sequence + 1
  }

  /** `process_dd` for a neighbor that is exchanging: an opening packet starts over, anything else is taken in. */
  lemma DdInExchange(selfId: u32, peerId: u32, n: Neighbor, dd: DbDesc, ours: Headers, clock: u32)
    requires n.state == Exchange || n.state == Loading || n.state == Full
    ensures var n' := ProcessDd(selfId, peerId, n, dd, ours, clock);
            if dd.init && dd.more && dd.master && dd.headers == [] then
              if peerId > selfId then
                n' == n.(state := Exchange, ddMaster := false, ddSeq := dd.sequence, summaryTx := ours, summaryRecv := [],
                         peerDone := false, sendFinal := false, requestList := [], responsePending := true)
              else
                n' == n.(state := ExStart, ddMaster := selfId > peerId, ddSeq := clock, summaryTx := [], summaryRecv := [],
                         peerDone := false, sendFinal := false, requestList := [])
            else if n.state == Exchange then TakesIn(n, dd, if n.ddMaster then NextSeq(n.ddSeq) else dd.sequence, n')
            else n' == n
  {
    if dd.OpensNegotiation() {
      assert Restarted(selfId, peerId, n, dd, clock).summaryRecv + [] == [];
    } else {
      assert Restarted(selfId, peerId, n, dd, clock) == n;
    }
  }

  /** `process_dd` before the exchange: the lower router id becomes the slave on an opening packet, the higher one the master
      on an answer with its own sequence number; in 2-Way the number is the clock's. */
  lemma DdBeforeExchange(selfId: u32, peerId: u32, n: Neighbor, dd: DbDesc, ours: Headers, clock: u32)
    requires n.state == TwoWay || n.state == ExStart
    ensures var n' := ProcessDd(selfId, peerId, n, dd, ours, clock);
            var begun := if n.state == TwoWay then n.(state := ExStart, ddSeq := clock, ddMaster := selfId > peerId) else n;
            if peerId > selfId && dd.init && dd.more && dd.master && dd.headers == [] then
              n' == begun.(state := Exchange, ddMaster := false, ddSeq := dd.sequence, summaryTx := ours, responsePending := true)
            else if peerId < selfId && !dd.init && !dd.master && dd.sequence == begun.ddSeq then
              TakesIn(begun.(state := Exchange, ddMaster := true, summaryTx := ours), dd, NextSeq(begun.ddSeq), n')
            else n' == begun
  {
    assert n.summaryRecv + [] == n.summaryRecv;
  }

  lemma DdIgnored(selfId: u32, peerId: u32, n: Neighbor, dd: DbDesc, ours: Headers, clock: u32)
    requires n.state == Down || n.state == Init
    ensures ProcessDd(selfId, peerId, n, dd, ours, clock) == n
  {
  }

  /**
   `build_dd`: in ExStart the opening packet; in Exchange the next headers, as many as a packet of 1500 bytes holds, with
   the M bit exactly if some are left and the MS bit exactly for the master; always with the current sequence number. What was
   sent is gone from the list, and no response is due any more.
   */
  lemma PacketMeaning(n: Neighbor)
    ensures var d, n' := BuiltPacket(n), AfterBuild(n);
            && d.sequence == n.ddSeq
            && n' == n.(summaryTx := n'.summaryTx, sendFinal := false, responsePending := false)
            && (n.state == ExStart ==> d.init && d.more && d.master && d.headers == [])
            && (n.state == Exchange ==>
                  && !d.init && d.master == n.ddMaster && n.summaryTx == d.headers + n'.summaryTx
                  && 28 + 20 * |d.headers| <= 1500 && (n'.summaryTx != [] ==> 28 + 20 * (|d.headers| + 1) > 1500)
                  && (d.more <==> n'.summaryTx != []))
            && (n.state != Exchange ==> n'.summaryTx == n.summaryTx && d.headers == [])
            && (n.state != ExStart && n.state != Exchange ==> !d.init && !d.more && !d.master)
  {
    assert n.summaryTx[..ChunkSize(n)] + n.summaryTx[ChunkSize(n)..] == n.summaryTx;
  }

  /**
   The end of an emission: exactly if the list is sent and the peer is done, the exchange is over; then the missing headers
   are requested and a request is due, or the neighbor is Full if there are none.
   */
  lemma EmissionMeaning(n: Neighbor, db: Headers, clock: u32)
    ensures var begun := if n.state == ExStart && n.ddSeq == 0 then n.(ddSeq := clock) else n;
            var sent, n' := AfterBuild(begun), AfterEmit(n, db, clock);
            && Emitted(n, clock) == BuiltPacket(begun)
            && if n.state == Exchange && n.peerDone && sent.summaryTx == [] then
                 if forall h :: h in n.summaryRecv ==> !Needed(db, h) then n' == sent.(requestList := [], state := Full)
                 else
                   && n' == sent.(requestList := n'.requestList, state := Loading, lsrPending := true)
                   && forall h :: h in n'.requestList <==> h in n.summaryRecv && Needed(db, h)
               else n' == sent
  {
    hide Missing, Needed, BuiltPacket;
    forall h ensures h in Missing(db, n.summaryRecv) <==> h in n.summaryRecv && Needed(db, h) {
      MissingMember(db, n.summaryRecv, h);
    }
    var requests := Missing(db, n.summaryRecv);
    assert requests != [] ==> requests[0] in requests;
  }
}

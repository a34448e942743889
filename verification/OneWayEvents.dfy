/**
 Runs of the two routers with 1-Way Hellos at any moment, packets in flight included, and databases that
 do not change. The slave still never leaves Exchange without the master's full list; the master may.
 */
module OneWayEvents {
  import opened Numbers
  import opened OspfV3Types
  import opened Adjacency
  import opened DatabaseExchange
  import opened ExchangeCompletion
  import opened StaleNeighbors

  // ---------------------------------------------------------------- the slave

  /**
   A reader of the channel that has `r` of the list, or is not listening, never meets a last chunk before
   it has the whole list; an opening packet makes it listen. `tx` is what the sender, if it is in
   Exchange, has still to send.
   */
  ghost predicate Delivers(all: Headers, r: Option<Headers>, ch: Channel, tx: Option<Headers>)
    decreases |ch|
  {
    if ch == [] then r.Some? && tx.Some? ==> Among(all, r.value + tx.value)
    else if ch[0].init then Delivers(all, Some([]), ch[1..], tx)
    else
      && (r.Some? && !ch[0].more ==> Among(all, r.value + ch[0].headers))
      && Delivers(all, if r.Some? then Some(r.value + ch[0].headers) else None, ch[1..], tx)
  }

  /** Having more, or not listening at all, does no harm. */
  ghost predicate NoLess(r: Option<Headers>, more: Option<Headers>) {
    more.Some? ==> r.Some? && Among(r.value, more.value)
  }

  lemma {:induction false} DeliversMore(all: Headers, r: Option<Headers>, more: Option<Headers>, ch: Channel, tx: Option<Headers>)
    requires Delivers(all, r, ch, tx) && NoLess(r, more)
    ensures Delivers(all, more, ch, tx)
    decreases |ch|
  {
    if ch != [] && !ch[0].init {
      var next := if r.Some? then Some(r.value + ch[0].headers) else None;
      var nextMore := if more.Some? then Some(more.value + ch[0].headers) else None;
      DeliversMore(all, next, nextMore, ch[1..], tx);
    }
  }

  /** A sender that starts over, or stops sending, does no harm either. */
  lemma {:induction false} DeliversRestart(all: Headers, r: Option<Headers>, ch: Channel, tx: Option<Headers>)
    requires Delivers(all, r, ch, tx)
    ensures Delivers(all, r, ch, None) && Delivers(all, r, ch, Some(all))
    decreases |ch|
  {
    if ch != [] {
      DeliversRestart(all, if ch[0].init then Some([]) else if r.Some? then Some(r.value + ch[0].headers) else None, ch[1..], tx);
    }
  }

  lemma {:induction false} DeliversOpening(all: Headers, r: Option<Headers>, ch: Channel, d: DbDesc)
    requires Delivers(all, r, ch, None) && d.init
    ensures Delivers(all, r, ch + [d], None)
    decreases |ch|
  {
    if ch == [] {
      assert ([] + [d])[1..] == [];
    } else {
      assert (ch + [d])[1..] == ch[1..] + [d];
      DeliversOpening(all, if ch[0].init then Some([]) else if r.Some? then Some(r.value + ch[0].headers) else None, ch[1..], d);
    }
  }

  lemma {:induction false} DeliversChunk(all: Headers, r: Option<Headers>, ch: Channel, tx: Headers, d: DbDesc, rest: Headers)
    requires Delivers(all, r, ch, Some(tx)) && !d.init && tx == d.headers + rest && (d.more <==> rest != [])
    ensures Delivers(all, r, ch + [d], Some(rest))
    decreases |ch|
  {
    if ch == [] {
      assert ([] + [d])[1..] == [];
      if r.Some? {
        assert r.value + d.headers + rest == r.value + tx;
        assert rest == [] ==> r.value + d.headers == r.value + tx;
      }
    } else {
      assert (ch + [d])[1..] == ch[1..] + [d];
      DeliversChunk(all, if ch[0].init then Some([]) else if r.Some? then Some(r.value + ch[0].headers) else None,
                    ch[1..], tx, d, rest);
    }
  }

  function Listening(n: Neighbor): Option<Headers> {
    if n.state == Exchange then Some(n.summaryRecv) else None
  }

  function Sending(n: Neighbor): Option<Headers> {
    if n.state == Exchange then Some(n.summaryTx) else None
  }

  predicate AllOpen(ch: Channel) {
    forall i :: 0 <= i < |ch| && ch[i].init ==> ch[i].OpensNegotiation()
  }

  /** Roles and shapes that hold whatever happens. */
  ghost predicate Roles(s: System) {
    && (Left(s.lo) ==> !s.lo.sendFinal) && (Left(s.hi) ==> !s.hi.sendFinal)
    && (s.lo.state == Exchange ==> !s.lo.ddMaster)
    && AllOpen(s.toLo) && AllOpen(s.toHi)
  }

  /** The slave knows nothing but the master's headers, and all of them once it takes it for done. */
  ghost predicate SlaveKnows(cfg: Config, s: System) {
    && Among(s.lo.summaryRecv, cfg.hiSummary)
    && Among(Flying(s.toLo), cfg.hiSummary)
    && (s.hi.state == Exchange ==> Among(s.hi.summaryTx, cfg.hiSummary))
    && (s.lo.peerDone ==> Among(cfg.hiSummary, s.lo.summaryRecv))
    && Delivers(cfg.hiSummary, Listening(s.lo), s.toLo, Sending(s.hi))
    && (Left(s.lo) ==> Completed(s.lo, cfg.loDb))
  }

  /** The end of an exchange as `finish_dd` leaves it. */
  predicate Completed(n: Neighbor, db: Headers) {
    && n.peerDone && n.summaryTx == []
    && n.requestList == Missing(db, n.summaryRecv) && (n.state == Full <==> n.requestList == [])
  }

  // ---------------------------------------------------------------- what the events do to one neighbor

  /** Any Hello: the exchange fields stay, and a neighbor in Exchange or above stays so or drops out. */
  lemma AnyHello(n: Neighbor, seesUs: bool, adjacent: bool)
    ensures var n' := AfterHello(n, seesUs, adjacent);
            && n'.summaryRecv == n.summaryRecv && n'.peerDone == n.peerDone
            && (n' == n || !Exchanging(n'))
  {
    hide NeighborStateV3.AtLeast;
  }

  lemma SlaveTakes(selfId: u32, peerId: u32, n: Neighbor, dd: DbDesc, ours: Headers, clock: u32)
    requires selfId < peerId && (dd.init ==> dd.OpensNegotiation())
    ensures var n' := ProcessDd(selfId, peerId, n, dd, ours, clock);
            || (dd.init && n'.state == Exchange && !n'.ddMaster && n'.summaryTx == ours
                && ((n'.summaryRecv == [] && !n'.peerDone) || (n'.summaryRecv == n.summaryRecv && n'.peerDone == n.peerDone)))
            || (!dd.init && n.state == Exchange && n'.state == Exchange && n'.ddMaster == n.ddMaster && n'.summaryTx == n.summaryTx
                && n'.summaryRecv == n.summaryRecv + dd.headers && n'.peerDone == (n.peerDone || !dd.more))
            || (n.state != Exchange && (n' == n || (!Exchanging(n') && n'.summaryRecv == n.summaryRecv && n'.peerDone == n.peerDone)))
  {
    var r := Restarted(selfId, peerId, n, dd, clock);
    assert r == n || (r.state == ExStart && ((r.summaryRecv == [] && !r.peerDone) || (r.summaryRecv == n.summaryRecv && r.peerDone == n.peerDone)));
    assert r.summaryRecv + [] == r.summaryRecv;
    assert n.state == Exchange && !dd.init ==> r == n;
    hide Restarted;
  }

  lemma MasterTakes(selfId: u32, peerId: u32, n: Neighbor, dd: DbDesc, ours: Headers, clock: u32)
    requires peerId < selfId && (dd.init ==> dd.OpensNegotiation())
    ensures var n' := ProcessDd(selfId, peerId, n, dd, ours, clock);
            || (n'.state == Exchange && (n'.summaryTx == ours || (n.state == Exchange && n'.summaryTx == n.summaryTx))
                && (n'.summaryRecv == n.summaryRecv + dd.headers || n'.summaryRecv == dd.headers))
            || (!Exchanging(n') && (n'.summaryRecv == n.summaryRecv || n'.summaryRecv == []))
            || (n' == n && Left(n))
  {
    var r := Restarted(selfId, peerId, n, dd, clock);
    assert r == n || (r.state == ExStart && (r.summaryRecv == [] || r.summaryRecv == n.summaryRecv));
    hide Restarted;
  }

  // ---------------------------------------------------------------- every event keeps it

  lemma PushedAllOpen(ch: Channel, d: DbDesc)
    requires AllOpen(ch) && (d.init ==> d.OpensNegotiation())
    ensures AllOpen(ch + [d])
  {
  }

  lemma PoppedAllOpen(ch: Channel)
    requires AllOpen(ch) && ch != []
    ensures AllOpen(ch[1..]) && (ch[0].init ==> ch[0].OpensNegotiation())
  {
    assert forall i :: 0 <= i < |ch[1..]| ==> ch[1..][i] == ch[i + 1];
  }

  lemma StepKeepsRoles(cfg: Config, s: System, a: Action)
    requires cfg.Valid() && Roles(s) && Enabled(s, a)
    ensures Roles(Next(cfg, s, a))
  {
    hide AfterEmit, Emitted, ProcessDd, AfterHello, AllOpen, Missing, ChunkSize;
    match a
    case HelloLo(seesUs, adjacent) => AnyHello(s.lo, seesUs, adjacent);
    case HelloHi(seesUs, adjacent) => AnyHello(s.hi, seesUs, adjacent);
    case EmitLo(clock) =>
      EmitFacts(s.lo, cfg.loDb, clock);
      PushedAllOpen(s.toHi, Emitted(s.lo, clock));
    case EmitHi(clock) =>
      EmitFacts(s.hi, cfg.hiDb, clock);
      PushedAllOpen(s.toLo, Emitted(s.hi, clock));
    case ReceiveLo(clock) =>
      PoppedAllOpen(s.toLo);
      SlaveTakes(cfg.loId, cfg.hiId, s.lo, s.toLo[0], cfg.loSummary, clock);
    case ReceiveHi(clock) =>
      PoppedAllOpen(s.toHi);
      MasterTakes(cfg.hiId, cfg.loId, s.hi, s.toHi[0], cfg.hiSummary, clock);
  }

  lemma HelloKeepsSlaveKnows(cfg: Config, s: System, a: Action)
    requires SlaveKnows(cfg, s) && a.IsHello()
    ensures SlaveKnows(cfg, Next(cfg, s, a))
  {
    hide AfterHello, Delivers, Among, Flying, Missing;
    if a.HelloLo? {
      AnyHello(s.lo, a.seesUs, a.adjacent);
      DeliversMore(cfg.hiSummary, Listening(s.lo), None, s.toLo, Sending(s.hi));
    } else {
      AnyHello(s.hi, a.seesUs, a.adjacent);
      DeliversRestart(cfg.hiSummary, Listening(s.lo), s.toLo, Sending(s.hi));
    }
  }

  lemma EmitLoKeepsSlaveKnows(cfg: Config, s: System, clock: u32)
    requires Roles(s) && SlaveKnows(cfg, s) && MayEmit(s.lo) && clock > 0
    ensures SlaveKnows(cfg, Next(cfg, s, EmitLo(clock)))
  {
    hide AfterEmit, Emitted, Delivers, Among, Flying, Missing, ChunkSize, AllOpen;
    EmitFacts(s.lo, cfg.loDb, clock);
    DeliversMore(cfg.hiSummary, Listening(s.lo), None, s.toLo, Sending(s.hi));
  }

  lemma AmongParts(a: Headers, b: Headers, all: Headers)
    ensures Among(a + b, all) <==> Among(a, all) && Among(b, all)
  {
    if Among(a + b, all) {
      assert forall h :: h in a ==> h in a + b;
      assert forall h :: h in b ==> h in a + b;
    }
  }

  lemma EmitHiKeepsSlaveKnows(cfg: Config, s: System, clock: u32)
    requires Roles(s) && SlaveKnows(cfg, s) && MayEmit(s.hi) && clock > 0
    ensures SlaveKnows(cfg, Next(cfg, s, EmitHi(clock)))
  {
    hide AfterEmit, Emitted, Delivers, Among, Flying, Missing, ChunkSize, AllOpen, Completed;
    EmitFacts(s.hi, cfg.hiDb, clock);
    var d, s' := Emitted(s.hi, clock), Next(cfg, s, EmitHi(clock));
    FlyingPush(s.toLo, d);
    AmongParts(Flying(s.toLo), d.headers, cfg.hiSummary);
    if s.hi.state == ExStart {
      DeliversOpening(cfg.hiSummary, Listening(s.lo), s.toLo, d);
      NoneAmong(cfg.hiSummary);
    } else {
      AmongParts(d.headers, s'.hi.summaryTx, cfg.hiSummary);
      DeliversChunk(cfg.hiSummary, Listening(s.lo), s.toLo, s.hi.summaryTx, d, s'.hi.summaryTx);
      DeliversRestart(cfg.hiSummary, Listening(s.lo), s.toLo + [d], Some(s'.hi.summaryTx));
    }
  }

  lemma NoneAmong(all: Headers)
    ensures Among([], all)
  {
  }

  lemma ReceiveLoKeepsSlaveKnows(cfg: Config, s: System, clock: u32)
    requires cfg.Valid() && Roles(s) && SlaveKnows(cfg, s) && s.toLo != [] && clock > 0
    ensures SlaveKnows(cfg, Next(cfg, s, ReceiveLo(clock)))
  {
    var all, d, rest, tx := cfg.hiSummary, s.toLo[0], s.toLo[1..], Sending(s.hi);
    ReadFront(all, Listening(s.lo), s.toLo, tx);
    hide ProcessDd, Delivers, Among, Flying, Missing, AllOpen, Completed;
    PoppedAllOpen(s.toLo);
    SlaveTakes(cfg.loId, cfg.hiId, s.lo, d, cfg.loSummary, clock);
    FlyingFront(s.toLo);
    AmongParts(d.headers, Flying(rest), all);
    AmongParts(s.lo.summaryRecv, d.headers, all);
    NoneAmong(all);
    var lo := Next(cfg, s, ReceiveLo(clock)).lo;
    if d.init {
      NoneAmong(lo.summaryRecv);
      DeliversMore(all, Some([]), Listening(lo), rest, tx);
    }
  }

  /** What the reader knows after the first packet. */
  lemma ReadFront(all: Headers, r: Option<Headers>, ch: Channel, tx: Option<Headers>)
    requires Delivers(all, r, ch, tx) && ch != []
    ensures ch[0].init ==> Delivers(all, Some([]), ch[1..], tx)
    ensures !ch[0].init && r.None? ==> Delivers(all, None, ch[1..], tx)
    ensures !ch[0].init && r.Some? ==>
              Delivers(all, Some(r.value + ch[0].headers), ch[1..], tx) && (!ch[0].more ==> Among(all, r.value + ch[0].headers))
  {
  }

  lemma ReceiveHiKeepsSlaveKnows(cfg: Config, s: System, clock: u32)
    requires cfg.Valid() && Roles(s) && SlaveKnows(cfg, s) && s.toHi != [] && clock > 0
    ensures SlaveKnows(cfg, Next(cfg, s, ReceiveHi(clock)))
  {
    hide ProcessDd, Delivers, Among, Flying, Missing, AllOpen, Completed;
    PoppedAllOpen(s.toHi);
    MasterTakes(cfg.hiId, cfg.loId, s.hi, s.toHi[0], cfg.hiSummary, clock);
    DeliversRestart(cfg.hiSummary, Listening(s.lo), s.toLo, Sending(s.hi));
    assert Among(cfg.hiSummary, cfg.hiSummary) by { AmongItself(cfg.hiSummary); }
  }

  lemma AmongItself(all: Headers)
    ensures Among(all, all)
  {
  }

  lemma StepKeepsSlaveKnows(cfg: Config, s: System, a: Action)
    requires cfg.Valid() && Roles(s) && SlaveKnows(cfg, s) && Enabled(s, a)
    ensures SlaveKnows(cfg, Next(cfg, s, a))
  {
    hide Roles, SlaveKnows;
    match a
    case HelloLo(_, _) => HelloKeepsSlaveKnows(cfg, s, a);
    case HelloHi(_, _) => HelloKeepsSlaveKnows(cfg, s, a);
    case EmitLo(clock) => EmitLoKeepsSlaveKnows(cfg, s, clock);
    case EmitHi(clock) => EmitHiKeepsSlaveKnows(cfg, s, clock);
    case ReceiveLo(clock) => ReceiveLoKeepsSlaveKnows(cfg, s, clock);
    case ReceiveHi(clock) => ReceiveHiKeepsSlaveKnows(cfg, s, clock);
  }

  lemma {:induction false} RunKeepsSlaveKnows(cfg: Config, run: seq<System>)
    requires IsRun(cfg, run)
    ensures Roles(run[|run| - 1]) && SlaveKnows(cfg, run[|run| - 1])
  {
    hide Roles, SlaveKnows, Next, Enabled, Initial;
    var n := |run| - 1;
    if n == 0 {
      InitialKnows(cfg, run[0]);
    } else {
      RunKeepsSlaveKnows(cfg, run[..n]);
      assert IsStep(cfg, run[n - 1], run[n - 1 + 1]);
      var a :| Enabled(run[n - 1], a) && run[n] == Next(cfg, run[n - 1], a);
      StepKeepsRoles(cfg, run[n - 1], a);
      StepKeepsSlaveKnows(cfg, run[n - 1], a);
    }
  }

  lemma InitialKnows(cfg: Config, s: System)
    requires Initial(s)
    ensures Roles(s) && SlaveKnows(cfg, s)
  {
  }

  /** A completed exchange that received the right set is right in every respect. */
  lemma CompletedIsRight(n: Neighbor, theirs: Headers, db: Headers)
    requires Completed(n, db) && Among(n.summaryRecv, theirs) && Among(theirs, n.summaryRecv)
    ensures ExchangedAll(n, theirs, db)
  {
    hide Missing, Needed;
    forall h ensures h in Missing(db, n.summaryRecv) <==> h in n.summaryRecv && Needed(db, h) {
      MissingMember(db, n.summaryRecv, h);
    }
  }

  /**
   Over any run from fresh neighbors, with any 1-Way Hellos and whatever is in flight, the slave leaves
   Exchange only with the master's full list and exactly the right requests.
   */
  lemma SlaveAlwaysRight(cfg: Config, run: seq<System>)
    requires IsRun(cfg, run) && Left(run[|run| - 1].lo)
    ensures ExchangedAll(run[|run| - 1].lo, cfg.hiSummary, cfg.loDb)
  {
    hide Delivers, Flying, Among, Completed, Initial, IsStep;
    RunKeepsSlaveKnows(cfg, run);
    var lo := run[|run| - 1].lo;
    CompletedDone(lo, cfg.loDb);
    CompletedIsRight(lo, cfg.hiSummary, cfg.loDb);
  }

  lemma CompletedDone(n: Neighbor, db: Headers)
    requires Completed(n, db)
    ensures n.peerDone
  {
  }

  // ---------------------------------------------------------------- a slave with nothing to describe

  ghost predicate MasterKnowsNothing(cfg: Config, s: System) {
    && s.hi.summaryRecv == [] && (s.lo.state == Exchange ==> s.lo.summaryTx == [])
    && (forall i :: 0 <= i < |s.toHi| ==> s.toHi[i].headers == [])
    && (Left(s.hi) ==> Completed(s.hi, cfg.hiDb))
  }

  lemma StepKeepsNothing(cfg: Config, s: System, a: Action)
    requires cfg.Valid() && cfg.loSummary == [] && Roles(s) && MasterKnowsNothing(cfg, s) && Enabled(s, a)
    ensures MasterKnowsNothing(cfg, Next(cfg, s, a))
  {
    hide AfterEmit, Emitted, ProcessDd, AfterHello, AllOpen, Missing, ChunkSize;
    match a
    case HelloLo(seesUs, adjacent) => AnyHello(s.lo, seesUs, adjacent);
    case HelloHi(seesUs, adjacent) => AnyHello(s.hi, seesUs, adjacent);
    case EmitLo(clock) => EmitFacts(s.lo, cfg.loDb, clock);
    case EmitHi(clock) => EmitFacts(s.hi, cfg.hiDb, clock);
    case ReceiveLo(clock) =>
      PoppedAllOpen(s.toLo);
      SlaveTakes(cfg.loId, cfg.hiId, s.lo, s.toLo[0], cfg.loSummary, clock);
    case ReceiveHi(clock) =>
      PoppedAllOpen(s.toHi);
      MasterTakes(cfg.hiId, cfg.loId, s.hi, s.toHi[0], cfg.hiSummary, clock);
      assert forall i :: 0 <= i < |s.toHi[1..]| ==> s.toHi[1..][i] == s.toHi[i + 1];
  }

  lemma {:induction false} RunKeepsNothing(cfg: Config, run: seq<System>)
    requires IsRun(cfg, run) && cfg.loSummary == []
    ensures MasterKnowsNothing(cfg, run[|run| - 1])
  {
    hide Roles, SlaveKnows, MasterKnowsNothing, Next, Enabled, Initial;
    var n := |run| - 1;
    if n == 0 {
      assert MasterKnowsNothing(cfg, run[0]) by { InitialNothing(cfg, run[0]); }
    } else {
      RunKeepsNothing(cfg, run[..n]);
      RunKeepsSlaveKnows(cfg, run[..n]);
      assert IsStep(cfg, run[n - 1], run[n - 1 + 1]);
      var a :| Enabled(run[n - 1], a) && run[n] == Next(cfg, run[n - 1], a);
      StepKeepsNothing(cfg, run[n - 1], a);
    }
  }

  lemma InitialNothing(cfg: Config, s: System)
    requires Initial(s)
    ensures MasterKnowsNothing(cfg, s)
  {
  }

  // ---------------------------------------------------------------- a lost chunk

  /** A chunk of the slave that ends the negotiation and says that nothing follows. */
  predicate LastChunk(d: DbDesc, sequence: u32) {
    !d.init && !d.master && !d.more && d.sequence == sequence && d.headers == []
  }

  predicate EndsWithLast(ch: Channel, sequence: u32) {
    ch != [] && LastChunk(ch[|ch| - 1], sequence)
  }

  /** The slave sends its whole list and, when the retransmit timer fires, an empty chunk. */
  lemma {:induction false} SlaveSends(cfg: Config, s: System) returns (acts: seq<Action>)
    requires s.lo.state == Exchange && !s.lo.peerDone && !s.lo.ddMaster
    ensures Possible(cfg, s, acts)
    ensures var t := After(cfg, s, acts); t.hi == s.hi && EndsWithLast(t.toHi, s.lo.ddSeq) && |t.toHi| > |s.toHi|
    ensures s.lo.summaryTx != [] ==> |After(cfg, s, acts).toHi| > |s.toHi| + 1
    decreases |s.lo.summaryTx|
  {
    var s' := Next(cfg, s, EmitLo(1));
    EmitFacts(s.lo, cfg.loDb, 1);
    EmitShrinks(s.lo, cfg.loDb, 1);
    hide AfterEmit, Emitted, Possible, After, Quiet;
    var rest := [];
    NoActions(cfg, s');
    if s.lo.summaryTx != [] {
      assert |s'.lo.summaryTx| < |s.lo.summaryTx|;
      rest := SlaveSends(cfg, s');
    }
    Prepended(cfg, s, EmitLo(1), rest);
    acts := [EmitLo(1)] + rest;
  }

  lemma OneWayHello(cfg: Config, s: System)
    requires s.hi.state == ExStart
    ensures Next(cfg, s, HelloHi(false, true)) == s.(hi := s.hi.(state := Init))
  {
  }

  /** Back from Init the master opens a new negotiation, with the sequence number its clock shows. */
  lemma Reopened(cfg: Config, s: System, clock: u32)
    requires s.hi.state == Init && clock > 0
    ensures var one := Next(cfg, s, HelloHi(true, true));
            && MayEmit(one.hi)
            && var two := Next(cfg, one, EmitHi(clock));
               && two.hi.state == ExStart && two.hi.ddSeq == clock && two.toHi == s.toHi
               && two.hi.summaryRecv == s.hi.summaryRecv
  {
    hide Missing;
    assert AfterHello(s.hi, true, true) == s.hi.(state := ExStart, ddSeq := 0);
  }

  lemma ChunkDropped(cfg: Config, s: System)
    requires s.toHi != [] && s.hi.state == Init
    ensures Next(cfg, s, ReceiveHi(1)) == s.(toHi := s.toHi[1..])
  {
    hide ProcessDd;
    IgnoredInInit(cfg.hiId, cfg.loId, s.hi, s.toHi[0], cfg.hiSummary, 1);
  }

  lemma LastChunkTaken(cfg: Config, s: System)
    requires cfg.Valid() && s.toHi != [] && s.hi.state == ExStart && LastChunk(s.toHi[0], s.hi.ddSeq)
    ensures var s' := Next(cfg, s, ReceiveHi(1));
            s'.hi.state == Exchange && s'.hi.peerDone && s'.hi.summaryRecv == s.hi.summaryRecv
  {
    hide ProcessDd;
    MasterAnswered(cfg.hiId, cfg.loId, s.hi, s.toHi[0], cfg.hiSummary, 1);
    assert s.hi.summaryRecv + [] == s.hi.summaryRecv;
  }

  /** In Init the master drops all chunks but the last. */
  lemma {:induction false} MasterDrops(cfg: Config, s: System, sequence: u32) returns (acts: seq<Action>)
    requires cfg.Valid() && s.hi.state == Init && EndsWithLast(s.toHi, sequence)
    ensures Possible(cfg, s, acts)
    ensures var t := After(cfg, s, acts); t.hi == s.hi && |t.toHi| == 1 && LastChunk(t.toHi[0], sequence)
    decreases |s.toHi|
  {
    hide Next, Possible, After, Quiet, LastChunk;
    NoActions(cfg, s);
    if |s.toHi| == 1 {
      acts := [];
    } else {
      ChunkDropped(cfg, s);
      var rest := MasterDrops(cfg, Next(cfg, s, ReceiveHi(1)), sequence);
      Prepended(cfg, s, ReceiveHi(1), rest);
      acts := [ReceiveHi(1)] + rest;
    }
  }

  /** In the new negotiation the master takes the old last chunk for a complete exchange. */
  lemma MasterMistakes(cfg: Config, s: System, sequence: u32) returns (acts: seq<Action>)
    requires cfg.Valid() && s.hi.state == Init && |s.toHi| == 1 && LastChunk(s.toHi[0], sequence) && sequence > 0
    ensures Possible(cfg, s, acts)
    ensures var t := After(cfg, s, acts); Left(t.hi) && t.hi.summaryRecv == s.hi.summaryRecv
  {
    hide Next, Possible, After, Quiet, LastChunk, MayEmit;
    Reopened(cfg, s, sequence);
    var one := Next(cfg, s, HelloHi(true, true));
    var two := Next(cfg, one, EmitHi(sequence));
    LastChunkTaken(cfg, two);
    var three := Next(cfg, two, ReceiveHi(1));
    var rest := MasterRushes(cfg, three);
    Prepended(cfg, two, ReceiveHi(1), rest);
    Prepended(cfg, one, EmitHi(sequence), [ReceiveHi(1)] + rest);
    Prepended(cfg, s, HelloHi(true, true), [EmitHi(sequence)] + ([ReceiveHi(1)] + rest));
    acts := [HelloHi(true, true)] + ([EmitHi(sequence)] + ([ReceiveHi(1)] + rest));
  }

  /**
   If the slave has anything to describe, a single 1-Way Hello with packets in flight can make the master
   leave Exchange with none of it.
   */
  lemma MasterCanMiss(cfg: Config, s: System) returns (run: seq<System>)
    requires cfg.Valid() && Initial(s) && cfg.loSummary != []
    ensures IsRun(cfg, run) && run[0] == s && Left(run[|run| - 1].hi) && run[|run| - 1].hi.summaryRecv == []
  {
    Opened(cfg, s);
    var t := After(cfg, s, OPENING);
    var sequence := t.hi.ddSeq;
    var sends := SlaveSends(cfg, t);
    var u := After(cfg, t, sends);
    assert IsRun(cfg, [s]);
    hide Next, Possible, After, Quiet, Start, IsRun, LastChunk;
    OneWayHello(cfg, u);
    var v := Next(cfg, u, HelloHi(false, true));
    var drops := MasterDrops(cfg, v, sequence);
    var rest := MasterMistakes(cfg, After(cfg, v, drops), sequence);
    Appended(cfg, v, drops, rest);
    Prepended(cfg, u, HelloHi(false, true), drops + rest);
    Appended(cfg, t, sends, [HelloHi(false, true)] + (drops + rest));
    Appended(cfg, s, OPENING, sends + ([HelloHi(false, true)] + (drops + rest)));
    run := Followed(cfg, [s], OPENING + (sends + ([HelloHi(false, true)] + (drops + rest))));
    assert run[0] == [s][0];
  }

  // ---------------------------------------------------------------- the theorem

  ghost predicate LeavesWithAll(cfg: Config, s: System) {
    && (Left(s.lo) ==> ExchangedAll(s.lo, cfg.hiSummary, cfg.loDb))
    && (Left(s.hi) ==> ExchangedAll(s.hi, cfg.loSummary, cfg.hiDb))
  }

  /**
   Databases that do not change, fresh neighbors, 1-Way Hellos at any moment: both sides are bound to
   leave Exchange with everything if and only if the slave has nothing to describe.
   */
  lemma OneWayExact(cfg: Config, s: System)
    requires cfg.Valid() && Initial(s)
    ensures (forall run: seq<System> :: IsRun(cfg, run) && run[0] == s ==> LeavesWithAll(cfg, run[|run| - 1])) <==> cfg.loSummary == []
  {
    hide ExchangedAll, Initial, IsStep, Completed;
    if cfg.loSummary == [] {
      forall run: seq<System> | IsRun(cfg, run) && run[0] == s ensures LeavesWithAll(cfg, run[|run| - 1]) {
        var t := run[|run| - 1];
        if Left(t.lo) {
          SlaveAlwaysRight(cfg, run);
        }
        if Left(t.hi) {
          RunKeepsNothing(cfg, run);
          CompletedIsRight(t.hi, cfg.loSummary, cfg.hiDb);
        }
      }
    } else {
      var run := MasterCanMiss(cfg, s);
      NothingIsNotAll(run[|run| - 1].hi, cfg.loSummary, cfg.hiDb);
    }
  }

  lemma NothingIsNotAll(n: Neighbor, theirs: Headers, db: Headers)
    requires n.summaryRecv == [] && theirs != []
    ensures !ExchangedAll(n, theirs, db)
  {
    assert theirs[0] in theirs;
  }
}

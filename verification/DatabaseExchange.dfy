/**
 Two routers exchanging Database Descriptions over lossless FIFO channels, with databases that stay
 fixed during the exchange. `lo` has the lower router id, `hi` the higher one. Neighbors may start with
 whatever an earlier exchange left in their fields.
 */
module DatabaseExchange {
  import opened Numbers
  import opened OspfV3Types
  import opened Adjacency

  /** Router ids, the headers each side describes, and all headers each side holds. */
  datatype Config = Config(loId: u32, hiId: u32, loSummary: Headers, hiSummary: Headers, loDb: Headers, hiDb: Headers) {
    predicate Valid() {
      loId < hiId
    }

    /** What the slave sends in the packet that ends the negotiation. */
    function FirstChunk(): Headers {
      if |loSummary| < MAX_HEADERS then loSummary else loSummary[..MAX_HEADERS]
    }
  }

  type Channel = seq<DbDesc>

  datatype System = System(lo: Neighbor, hi: Neighbor, toLo: Channel, toHi: Channel)

  /** Timers may fire at any moment; `clock` is the value read from the timer. A Hello that does not
      list us is a 1-Way event. */
  datatype Action =
    | HelloLo(seesUs: bool, adjacent: bool)
    | HelloHi(seesUs: bool, adjacent: bool)
    | EmitLo(clock: u32)
    | EmitHi(clock: u32)
    | ReceiveLo(clock: u32)
    | ReceiveHi(clock: u32)
  {
    predicate IsHello() {
      HelloLo? || HelloHi?
    }

    predicate IsOneWay() {
      IsHello() && !seesUs
    }
  }

  predicate Exchanging(n: Neighbor) {
    n.state == Exchange || n.state == Loading || n.state == Full
  }

  /** A side that has left Exchange. */
  predicate Left(n: Neighbor) {
    n.state == Loading || n.state == Full
  }

  /** Nothing left over from an earlier exchange. */
  predicate Fresh(n: Neighbor) {
    !Exchanging(n) && n.summaryRecv == [] && !n.peerDone
  }

  /** Both neighbors below Exchange and nothing in flight; their other fields are arbitrary. */
  predicate Start(s: System) {
    !Exchanging(s.lo) && !Exchanging(s.hi) && s.toLo == [] && s.toHi == []
  }

  predicate Initial(s: System) {
    Start(s) && Fresh(s.lo) && Fresh(s.hi)
  }

  predicate Enabled(s: System, a: Action) {
    match a
    case HelloLo(_, _) | HelloHi(_, _) => true
    case EmitLo(clock) => clock > 0 && MayEmit(s.lo)
    case EmitHi(clock) => clock > 0 && MayEmit(s.hi)
    case ReceiveLo(clock) => clock > 0 && s.toLo != []
    case ReceiveHi(clock) => clock > 0 && s.toHi != []
  }

  function Next(cfg: Config, s: System, a: Action): System
    requires Enabled(s, a)
  {
    match a
    case HelloLo(seesUs, adjacent) => s.(lo := AfterHello(s.lo, seesUs, adjacent))
    case HelloHi(seesUs, adjacent) => s.(hi := AfterHello(s.hi, seesUs, adjacent))
    case EmitLo(clock) => s.(lo := AfterEmit(s.lo, cfg.loDb, clock), toHi := s.toHi + [Emitted(s.lo, clock)])
    case EmitHi(clock) => s.(hi := AfterEmit(s.hi, cfg.hiDb, clock), toLo := s.toLo + [Emitted(s.hi, clock)])
    case ReceiveLo(clock) =>
      s.(lo := ProcessDd(cfg.loId, cfg.hiId, s.lo, s.toLo[0], cfg.loSummary, clock), toLo := s.toLo[1..])
    case ReceiveHi(clock) =>
      s.(hi := ProcessDd(cfg.hiId, cfg.loId, s.hi, s.toHi[0], cfg.hiSummary, clock), toHi := s.toHi[1..])
  }

  /** Any events, from fresh neighbors. */
  ghost predicate IsRun(cfg: Config, run: seq<System>) {
    && cfg.Valid() && |run| > 0 && Initial(run[0])
    && (forall i :: 0 <= i < |run| - 1 ==> IsStep(cfg, run[i], run[i + 1]))
  }

  ghost predicate IsStep(cfg: Config, s: System, s': System) {
    exists a :: Enabled(s, a) && s' == Next(cfg, s, a)
  }

  /** One exchange: no 1-Way event, from neighbors that may hold leftovers. */
  ghost predicate IsExchange(cfg: Config, run: seq<System>) {
    && cfg.Valid() && |run| > 0 && Start(run[0])
    && (forall i :: 0 <= i < |run| - 1 ==> IsQuietStep(cfg, run[i], run[i + 1]))
  }

  ghost predicate IsQuietStep(cfg: Config, s: System, s': System) {
    exists a: Action :: !a.IsOneWay() && Enabled(s, a) && s' == Next(cfg, s, a)
  }

  // ---------------------------------------------------------------- schedules

  predicate Possible(cfg: Config, s: System, acts: seq<Action>)
    decreases |acts|
  {
    acts == [] || (Enabled(s, acts[0]) && Possible(cfg, Next(cfg, s, acts[0]), acts[1..]))
  }

  function After(cfg: Config, s: System, acts: seq<Action>): System
    requires Possible(cfg, s, acts)
    decreases |acts|
  {
    if acts == [] then s else After(cfg, Next(cfg, s, acts[0]), acts[1..])
  }

  predicate Quiet(acts: seq<Action>) {
    forall a: Action :: a in acts ==> !a.IsOneWay()
  }

  lemma Prepended(cfg: Config, s: System, a: Action, acts: seq<Action>)
    requires Enabled(s, a) && Possible(cfg, Next(cfg, s, a), acts)
    ensures Possible(cfg, s, [a] + acts) && After(cfg, s, [a] + acts) == After(cfg, Next(cfg, s, a), acts)
    ensures Quiet([a] + acts) <==> !a.IsOneWay() && Quiet(acts)
  {
    assert ([a] + acts)[1..] == acts;
    hide Next, Enabled;
  }

  /** A possible schedule continues a run. */
  lemma {:induction false} Followed(cfg: Config, run: seq<System>, acts: seq<Action>) returns (full: seq<System>)
    requires |run| > 0 && Possible(cfg, run[|run| - 1], acts)
    ensures run <= full && full[|full| - 1] == After(cfg, run[|run| - 1], acts)
    ensures IsRun(cfg, run) ==> IsRun(cfg, full)
    ensures IsExchange(cfg, run) && Quiet(acts) ==> IsExchange(cfg, full)
    decreases |acts|
  {
    hide Next, Enabled, IsRun, IsExchange, Quiet, Action.IsOneWay;
    if acts == [] {
      full := run;
    } else {
      FollowedOnce(cfg, run, acts[0]);
      QuietRest(acts);
      full := Followed(cfg, run + [Next(cfg, run[|run| - 1], acts[0])], acts[1..]);
    }
  }

  lemma FollowedOnce(cfg: Config, run: seq<System>, a: Action)
    requires |run| > 0 && Enabled(run[|run| - 1], a)
    ensures var longer := run + [Next(cfg, run[|run| - 1], a)];
            && (IsRun(cfg, run) ==> IsRun(cfg, longer))
            && (IsExchange(cfg, run) && !a.IsOneWay() ==> IsExchange(cfg, longer))
  {
    hide Next, Enabled, Initial, Start, Action.IsOneWay;
    var s := run[|run| - 1];
    var s' := Next(cfg, s, a);
    assert IsStep(cfg, s, s');
    assert !a.IsOneWay() ==> IsQuietStep(cfg, s, s');
    hide IsStep, IsQuietStep;
  }

  lemma QuietRest(acts: seq<Action>)
    requires acts != []
    ensures Quiet(acts) ==> Quiet(acts[1..]) && !acts[0].IsOneWay()
  {
  }

  // ---------------------------------------------------------------- channels

  /** The headers carried by a channel, in order. */
  function Flying(ch: Channel): Headers {
    if ch == [] then [] else ch[0].headers + Flying(ch[1..])
  }

  lemma {:induction false} FlyingPush(ch: Channel, d: DbDesc)
    ensures Flying(ch + [d]) == Flying(ch) + d.headers
  {
    if ch == [] {
      assert [d][1..] == [] && [] + d.headers == d.headers + [];
    } else {
      assert (ch + [d])[1..] == ch[1..] + [d];
      FlyingPush(ch[1..], d);
    }
  }

  lemma FlyingFront(ch: Channel)
    requires ch != []
    ensures Flying(ch) == ch[0].headers + Flying(ch[1..])
  {
  }

  lemma {:induction false} FlyingNothing(ch: Channel)
    requires forall i :: 0 <= i < |ch| ==> ch[i].headers == []
    ensures Flying(ch) == []
  {
    if ch != [] {
      FlyingNothing(ch[1..]);
    }
  }

  /** Opening packets come first; after a chunk there are only chunks. */
  predicate Ordered(ch: Channel) {
    && (forall i :: 0 <= i < |ch| && ch[i].init ==> ch[i].OpensNegotiation())
    && (forall i, j :: 0 <= i < j < |ch| && ch[j].init ==> ch[i].init)
  }

  predicate Opening(ch: Channel) {
    forall i :: 0 <= i < |ch| ==> ch[i].OpensNegotiation()
  }

  /** The channel carries an opening packet. */
  predicate HasOpening(ch: Channel) {
    exists i :: 0 <= i < |ch| && ch[i].init
  }

  /** The channel carries a packet without the M bit. */
  predicate HasLast(ch: Channel) {
    exists i :: 0 <= i < |ch| && !ch[i].more
  }

  lemma PushedLast(ch: Channel, d: DbDesc)
    ensures HasLast(ch + [d]) <==> HasLast(ch) || !d.more
  {
    if HasLast(ch) {
      var i :| 0 <= i < |ch| && !ch[i].more;
      assert (ch + [d])[i] == ch[i];
    }
    assert (ch + [d])[|ch|] == d;
  }

  lemma PoppedLast(ch: Channel)
    requires ch != []
    ensures HasLast(ch) <==> !ch[0].more || HasLast(ch[1..])
  {
    if HasLast(ch) && ch[0].more {
      var i :| 0 <= i < |ch| && !ch[i].more;
      assert ch[1..][i - 1] == ch[i];
    }
    if HasLast(ch[1..]) {
      var i :| 0 <= i < |ch| - 1 && !ch[1..][i].more;
      assert ch[i + 1] == ch[1..][i];
    }
  }

  lemma PushedOpening(ch: Channel, d: DbDesc)
    ensures HasOpening(ch + [d]) <==> HasOpening(ch) || d.init
  {
    if HasOpening(ch) {
      var i :| 0 <= i < |ch| && ch[i].init;
      assert (ch + [d])[i] == ch[i];
    }
    assert (ch + [d])[|ch|] == d;
  }

  /** Opening packets are at the front. */
  lemma PoppedOpening(ch: Channel)
    requires ch != [] && Ordered(ch)
    ensures HasOpening(ch) <==> ch[0].init
    ensures HasOpening(ch[1..]) ==> ch[0].init
    ensures ch[0].init ==> ch[0].OpensNegotiation()
  {
    if HasOpening(ch[1..]) {
      var i :| 0 <= i < |ch| - 1 && ch[1..][i].init;
      assert ch[i + 1] == ch[1..][i];
    }
  }

  /** The first chunk, if there is one, carries these headers. */
  predicate LeadsWith(ch: Channel, headers: Headers) {
    ch == [] || if ch[0].init then LeadsWith(ch[1..], headers) else ch[0].headers == headers
  }

  lemma {:induction false} PushedLead(ch: Channel, d: DbDesc, headers: Headers)
    requires Ordered(ch) && LeadsWith(ch, headers) && (Opening(ch) && !d.init ==> d.headers == headers)
    ensures LeadsWith(ch + [d], headers)
  {
    if ch == [] {
      assert ([] + [d])[1..] == [];
    } else if ch[0].init {
      assert (ch + [d])[1..] == ch[1..] + [d];
      PushedLead(ch[1..], d, headers);
    }
  }

  // ---------------------------------------------------------------- the invariant

  /** What a side held of the other's list, and whether it took the other for done, before. */
  datatype Base = Base(recv: Headers, done: bool)

  const NOTHING := Base([], false)

  function BaseOf(n: Neighbor): Base {
    Base(n.summaryRecv, n.peerDone)
  }

  /** Phases, roles and sequence numbers of the negotiation. */
  ghost predicate Negotiation(s: System) {
    && (Left(s.lo) ==> !s.lo.sendFinal) && (Left(s.hi) ==> !s.hi.sendFinal)
    && Ordered(s.toLo) && Ordered(s.toHi)
    && (if Exchanging(s.lo) then !s.lo.ddMaster else Opening(s.toHi))
    && (if Exchanging(s.hi) then s.hi.ddMaster && Exchanging(s.lo) else Opening(s.toLo))
    && (Exchanging(s.hi) ==> forall i :: 0 <= i < |s.toHi| ==> !s.toHi[i].init)
    && (forall i :: 0 <= i < |s.toHi| && !s.toHi[i].init ==> !s.toHi[i].master)
    && (s.toLo != [] || Exchanging(s.lo) ==> Exchanging(s.hi) || (s.hi.state == ExStart && s.hi.ddSeq != 0))
    && (!Exchanging(s.hi) ==>
          && (forall i :: 0 <= i < |s.toLo| ==> s.toLo[i].sequence == s.hi.ddSeq)
          && (Exchanging(s.lo) ==> s.lo.ddSeq == s.hi.ddSeq)
          && (forall i :: 0 <= i < |s.toHi| && !s.toHi[i].init ==> s.toHi[i].sequence == s.hi.ddSeq))
  }

  /** Nothing of the master's list is lost or repeated on its way to the slave, which adds it to what it
      had before. */
  ghost predicate SlaveReceives(cfg: Config, b: Base, s: System) {
    && b.recv <= s.lo.summaryRecv
    && (!Exchanging(s.hi) || HasOpening(s.toLo) ==> BaseOf(s.lo) == b)
    && (Exchanging(s.hi) && s.lo.state == Exchange ==>
          s.lo.summaryRecv + Flying(s.toLo) + s.hi.summaryTx == b.recv + cfg.hiSummary)
    && (Exchanging(s.hi) && HasOpening(s.toLo) ==> Flying(s.toLo) + s.hi.summaryTx == cfg.hiSummary)
    && (forall i :: 0 <= i < |s.toLo| && !s.toLo[i].more ==>
          s.hi.summaryTx == [] && forall j :: i < j < |s.toLo| ==> s.toLo[j].headers == [])
    && (s.lo.peerDone && !b.done ==> s.hi.summaryTx == [] && forall i :: 0 <= i < |s.toLo| ==> s.toLo[i].headers == [])
    && (Left(s.lo) ==> SlaveDone(cfg, b, s.lo))
  }

  predicate SlaveDone(cfg: Config, b: Base, n: Neighbor) {
    && n.peerDone && n.summaryTx == []
    && b.recv <= n.summaryRecv <= b.recv + cfg.hiSummary
    && (!b.done ==> n.summaryRecv == b.recv + cfg.hiSummary)
    && n.requestList == Missing(cfg.loDb, n.summaryRecv) && (n.state == Full <==> n.requestList == [])
  }

  /** Every header of the slave is unsent, in flight, or received; a restart may repeat some. */
  ghost predicate MasterReceives(cfg: Config, b: Base, s: System) {
    && b.recv <= s.hi.summaryRecv
    && Within(cfg, b, s)
    && (!Exchanging(s.hi) ==> BaseOf(s.hi) == b && FirstPending(cfg, s))
    && (Exchanging(s.lo) && !Left(s.hi) ==>
          forall h :: h in cfg.loSummary ==> h in s.lo.summaryTx || h in s.hi.summaryRecv || h in Flying(s.toHi))
    && (!Left(s.hi) ==>
          forall i :: 0 <= i < |s.toHi| && !s.toHi[i].more ==> CoveredBy(cfg.loSummary, s.hi.summaryRecv, s.toHi[..i + 1]))
    && (Exchanging(s.hi) && s.hi.peerDone ==> HeardEnough(cfg, b, s.hi.summaryRecv))
    && (Left(s.hi) ==> MasterDone(cfg, s.hi))
  }

  /** Nothing but the slave's headers and the leftovers is sent or received. */
  ghost predicate Within(cfg: Config, b: Base, s: System) {
    && (forall h :: h in s.hi.summaryRecv ==> h in b.recv || h in cfg.loSummary)
    && (Exchanging(s.lo) ==> forall h :: h in s.lo.summaryTx ==> h in cfg.loSummary)
    && (forall h :: h in Flying(s.toHi) ==> h in cfg.loSummary)
  }

  /** The first chunk the master will see is the first chunk of the slave's list. */
  ghost predicate FirstPending(cfg: Config, s: System) {
    && LeadsWith(s.toHi, cfg.FirstChunk())
    && (Exchanging(s.lo) && Opening(s.toHi) ==> s.lo.state == Exchange && s.lo.summaryTx == cfg.loSummary)
  }

  ghost predicate CoveredBy(all: Headers, received: Headers, ch: Channel) {
    forall h :: h in all ==> h in received || h in Flying(ch)
  }

  /** The whole list, or at least its first chunk if the other side was taken for done before. */
  ghost predicate HeardEnough(cfg: Config, b: Base, received: Headers) {
    || (forall h :: h in cfg.loSummary ==> h in received)
    || (b.done && forall h :: h in cfg.FirstChunk() ==> h in received)
  }

  predicate MasterDone(cfg: Config, n: Neighbor) {
    && n.peerDone && n.summaryTx == []
    && n.requestList == Missing(cfg.hiDb, n.summaryRecv) && (n.state == Full <==> n.requestList == [])
  }

  /** A side that has left has told the other that it has nothing more to describe. */
  ghost predicate Announced(s: System) {
    && (Left(s.lo) && !Left(s.hi) ==> HasLast(s.toHi) || (Exchanging(s.hi) && s.hi.peerDone))
    && (Left(s.hi) ==> HasLast(s.toLo) || (s.lo.peerDone && !HasOpening(s.toLo)))
  }

  /** `lb` and `hb` are what the sides started with; a restart clears the slave's part. */
  ghost predicate Inv(cfg: Config, lb: Base, hb: Base, s: System) {
    && cfg.Valid() && Negotiation(s)
    && (SlaveReceives(cfg, lb, s) || SlaveReceives(cfg, NOTHING, s))
    && MasterReceives(cfg, hb, s) && Announced(s)
  }

  lemma StartInv(cfg: Config, s: System)
    requires cfg.Valid() && Start(s)
    ensures Inv(cfg, BaseOf(s.lo), BaseOf(s.hi), s)
  {
  }

  // ---------------------------------------------------------------- hellos

  lemma HelloNeighbor(n: Neighbor, adjacent: bool)
    ensures var n' := AfterHello(n, true, adjacent);
            && (n.state == ExStart || Exchanging(n) ==> n' == n)
            && (Exchanging(n) <==> Exchanging(n'))
            && n'.summaryTx == n.summaryTx && BaseOf(n') == BaseOf(n)
  {
  }

  lemma HelloKeepsInv(cfg: Config, lb: Base, hb: Base, s: System, a: Action)
    requires Inv(cfg, lb, hb, s) && a.IsHello() && !a.IsOneWay()
    ensures Inv(cfg, lb, hb, Next(cfg, s, a))
  {
    hide Ordered, Flying, Missing, AfterHello, SlaveDone, MasterDone, HeardEnough, HasLast, HasOpening, LeadsWith;
    if a.HelloLo? {
      HelloNeighbor(s.lo, a.adjacent);
    } else {
      HelloNeighbor(s.hi, a.adjacent);
    }
  }

  // ---------------------------------------------------------------- the slave sends

  /** With nothing left to send or in flight, the master has been heard completely. */
  lemma SlaveHeard(cfg: Config, b: Base, s: System)
    requires Negotiation(s) && SlaveReceives(cfg, b, s) && s.lo.state == Exchange && s.lo.peerDone
    ensures b.recv <= s.lo.summaryRecv <= b.recv + cfg.hiSummary
    ensures !b.done ==> s.lo.summaryRecv == b.recv + cfg.hiSummary
  {
    var all := b.recv + cfg.hiSummary;
    if Exchanging(s.hi) {
      assert s.lo.summaryRecv + Flying(s.toLo) + s.hi.summaryTx == s.lo.summaryRecv + (Flying(s.toLo) + s.hi.summaryTx);
      assert s.lo.summaryRecv <= all;
      if !b.done {
        FlyingNothing(s.toLo);
        assert s.lo.summaryRecv + [] + [] == s.lo.summaryRecv;
      }
    }
  }

  /** What an emission does to the sender itself. */
  lemma EmitFacts(n: Neighbor, db: Headers, clock: u32)
    requires (Left(n) ==> !n.sendFinal) && MayEmit(n) && clock > 0
    ensures var n', d := AfterEmit(n, db, clock), Emitted(n, clock);
            && BaseOf(n') == BaseOf(n) && !n'.sendFinal && n'.ddMaster == n.ddMaster
            && (n.ddSeq != 0 ==> n'.ddSeq == n.ddSeq) && d.sequence == n'.ddSeq
            && if n.state == ExStart then
                 d.OpensNegotiation() && n'.state == ExStart && n'.ddSeq != 0
               else
                 && n.state == Exchange && !d.init && d.master == n.ddMaster && n'.ddSeq == n.ddSeq
                 && n.summaryTx == d.headers + n'.summaryTx && |d.headers| == ChunkSize(n)
                 && (d.more <==> n'.summaryTx != []) && Exchanging(n')
                 && (n'.state != Exchange ==>
                       && n'.peerDone && n'.summaryTx == [] && n'.requestList == Missing(db, n'.summaryRecv)
                       && (n'.state == Full <==> n'.requestList == []))
  {
    hide Missing;
  }

  lemma EmitLoKeepsNegotiation(cfg: Config, s: System, clock: u32)
    requires Negotiation(s) && MayEmit(s.lo) && clock > 0
    ensures Negotiation(Next(cfg, s, EmitLo(clock)))
  {
    hide AfterEmit, Emitted, Missing, ChunkSize;
    EmitFacts(s.lo, cfg.loDb, clock);
  }

  lemma EmitLoKeepsSlave(cfg: Config, b: Base, s: System, clock: u32)
    requires Negotiation(s) && SlaveReceives(cfg, b, s) && MayEmit(s.lo) && clock > 0
    ensures SlaveReceives(cfg, b, Next(cfg, s, EmitLo(clock)))
  {
    hide AfterEmit, Emitted, Missing, Flying, Ordered, Opening, HasOpening, ChunkSize;
    EmitFacts(s.lo, cfg.loDb, clock);
    if s.lo.state == Exchange && s.lo.peerDone {
      SlaveHeard(cfg, b, s);
    }
  }

  lemma EmitLoKeepsFirst(cfg: Config, s: System, clock: u32)
    requires Negotiation(s) && FirstPending(cfg, s) && MayEmit(s.lo) && clock > 0
    ensures FirstPending(cfg, Next(cfg, s, EmitLo(clock)))
  {
    hide AfterEmit, Emitted, Missing;
    EmitFacts(s.lo, cfg.loDb, clock);
    var d := Emitted(s.lo, clock);
    if Opening(s.toHi) && !d.init {
      assert d.headers == cfg.loSummary[..ChunkSize(s.lo)];
      assert d.headers == cfg.FirstChunk();
    }
    PushedLead(s.toHi, d, cfg.FirstChunk());
    assert (s.toHi + [d])[|s.toHi|] == d;
  }

  lemma EmitLoKeepsMaster(cfg: Config, b: Base, s: System, clock: u32)
    requires Negotiation(s) && MasterReceives(cfg, b, s) && MayEmit(s.lo) && clock > 0
    ensures MasterReceives(cfg, b, Next(cfg, s, EmitLo(clock)))
  {
    hide AfterEmit, Emitted, Missing, MasterDone, Ordered, Opening, FirstPending, HeardEnough, ChunkSize;
    EmitFacts(s.lo, cfg.loDb, clock);
    if !Exchanging(s.hi) {
      EmitLoKeepsFirst(cfg, s, clock);
    }
    FlyingPush(s.toHi, Emitted(s.lo, clock));
    var s' := Next(cfg, s, EmitLo(clock));
    forall i | 0 <= i < |s'.toHi| && !s'.toHi[i].more && !Left(s.hi)
      ensures CoveredBy(cfg.loSummary, s'.hi.summaryRecv, s'.toHi[..i + 1])
    {
      if i < |s.toHi| {
        assert s'.toHi[..i + 1] == s.toHi[..i + 1];
      } else {
        assert s'.toHi[..i + 1] == s'.toHi;
      }
    }
  }

  // ---------------------------------------------------------------- the master sends

  lemma EmitHiKeepsNegotiation(cfg: Config, s: System, clock: u32)
    requires Negotiation(s) && MayEmit(s.hi) && clock > 0
    ensures Negotiation(Next(cfg, s, EmitHi(clock)))
  {
    hide AfterEmit, Emitted, Missing, ChunkSize;
    EmitFacts(s.hi, cfg.hiDb, clock);
  }

  lemma EmitHiOpens(cfg: Config, b: Base, s: System, clock: u32)
    requires Negotiation(s) && SlaveReceives(cfg, b, s) && s.hi.state == ExStart && clock > 0
    ensures SlaveReceives(cfg, b, Next(cfg, s, EmitHi(clock)))
  {
    hide AfterEmit, Emitted, Missing, SlaveDone, Ordered, HasOpening, ChunkSize, Flying;
    EmitFacts(s.hi, cfg.hiDb, clock);
    var s' := Next(cfg, s, EmitHi(clock));
    forall i | 0 <= i < |s'.toLo| ensures s'.toLo[i].OpensNegotiation() {
      assert i < |s.toLo| ==> s'.toLo[i] == s.toLo[i];
    }
    hide Opening;
  }

  lemma EmitHiChunk(cfg: Config, b: Base, s: System, clock: u32)
    requires Negotiation(s) && SlaveReceives(cfg, b, s) && s.hi.state == Exchange && clock > 0
    ensures SlaveReceives(cfg, b, Next(cfg, s, EmitHi(clock)))
  {
    hide AfterEmit, Emitted, Missing, SlaveDone, Ordered, Opening, HasOpening, ChunkSize, Flying;
    EmitFacts(s.hi, cfg.hiDb, clock);
    var d := Emitted(s.hi, clock);
    FlyingPush(s.toLo, d);
    PushedOpening(s.toLo, d);
    var s' := Next(cfg, s, EmitHi(clock));
    var r, f, c, e := s.lo.summaryRecv, Flying(s.toLo), d.headers, s'.hi.summaryTx;
    assert r + f + (c + e) == r + (f + c) + e;
    assert f + (c + e) == (f + c) + e;
    forall i | 0 <= i < |s'.toLo| && !s'.toLo[i].more
      ensures s'.hi.summaryTx == [] && forall j :: i < j < |s'.toLo| ==> s'.toLo[j].headers == []
    {
      assert i < |s.toLo| ==> s'.toLo[i] == s.toLo[i];
    }
  }

  lemma EmitHiKeepsSlave(cfg: Config, b: Base, s: System, clock: u32)
    requires Negotiation(s) && SlaveReceives(cfg, b, s) && MayEmit(s.hi) && clock > 0
    ensures SlaveReceives(cfg, b, Next(cfg, s, EmitHi(clock)))
  {
    hide SlaveReceives, Next, Ordered, Opening;
    if s.hi.state == ExStart {
      EmitHiOpens(cfg, b, s, clock);
    } else {
      EmitHiChunk(cfg, b, s, clock);
    }
  }

  lemma EmitHiKeepsMaster(cfg: Config, b: Base, s: System, clock: u32)
    requires Negotiation(s) && MasterReceives(cfg, b, s) && MayEmit(s.hi) && clock > 0
    ensures MasterReceives(cfg, b, Next(cfg, s, EmitHi(clock)))
  {
    hide AfterEmit, Emitted, Missing, Flying, Ordered, Opening, HeardEnough, ChunkSize;
    EmitFacts(s.hi, cfg.hiDb, clock);
  }

  // ---------------------------------------------------------------- the slave receives

  /** The slave takes an opening packet as a (re)start and a chunk as more headers. */
  lemma ReceiveLoFacts(cfg: Config, s: System, clock: u32)
    requires cfg.Valid() && Negotiation(s) && s.toLo != [] && clock > 0
    ensures var n, d, n' := s.lo, s.toLo[0], ProcessDd(cfg.loId, cfg.hiId, s.lo, s.toLo[0], cfg.loSummary, clock);
            if d.init then
              if n.state == Init || n.state == Down then n' == n
              else n'.state == Exchange && !n'.ddMaster && n'.ddSeq == d.sequence && n'.summaryTx == cfg.loSummary
                   && BaseOf(n') == (if Exchanging(n) then NOTHING else BaseOf(n))
            else
              && Exchanging(n) && Exchanging(s.hi)
              && if n.state == Exchange then
                   n' == n.(summaryRecv := n.summaryRecv + d.headers, peerDone := n.peerDone || !d.more,
                            ddSeq := d.sequence, responsePending := true)
                 else n' == n
  {
    assert s.toLo[0].init ==> s.toLo[0].OpensNegotiation();
  }

  lemma ReceiveLoKeepsNegotiation(cfg: Config, s: System, clock: u32)
    requires cfg.Valid() && Negotiation(s) && s.toLo != [] && clock > 0
    ensures Negotiation(Next(cfg, s, ReceiveLo(clock)))
  {
    hide ProcessDd;
    ReceiveLoFacts(cfg, s, clock);
  }

  /** The first opening packet starts from the leftovers, a repeated one from nothing. */
  lemma SlaveTakesOpening(cfg: Config, b: Base, s: System, clock: u32)
    requires cfg.Valid() && Negotiation(s) && SlaveReceives(cfg, b, s) && s.toLo != [] && clock > 0 && s.toLo[0].init
    ensures SlaveReceives(cfg, if Exchanging(s.lo) then NOTHING else b, Next(cfg, s, ReceiveLo(clock)))
  {
    hide ProcessDd, Missing, HasOpening, Ordered, Opening, Flying, SlaveDone;
    ReceiveLoFacts(cfg, s, clock);
    PoppedOpening(s.toLo);
    FlyingFront(s.toLo);
    assert [] + Flying(s.toLo[1..]) == Flying(s.toLo[1..]) && [] + cfg.hiSummary == cfg.hiSummary;
    assert forall i :: 0 <= i < |s.toLo[1..]| ==> s.toLo[1..][i] == s.toLo[i + 1];
  }

  lemma SlaveTakesChunk(cfg: Config, b: Base, s: System, clock: u32)
    requires cfg.Valid() && Negotiation(s) && SlaveReceives(cfg, b, s) && s.toLo != [] && clock > 0 && !s.toLo[0].init
    ensures SlaveReceives(cfg, b, Next(cfg, s, ReceiveLo(clock)))
  {
    hide ProcessDd, Missing, HasOpening, Ordered, Opening, Flying, SlaveDone;
    ReceiveLoFacts(cfg, s, clock);
    PoppedOpening(s.toLo);
    FlyingFront(s.toLo);
    var r, d, f, e := s.lo.summaryRecv, s.toLo[0].headers, Flying(s.toLo[1..]), s.hi.summaryTx;
    assert r + (d + f) + e == (r + d) + f + e;
    assert forall i :: 0 <= i < |s.toLo[1..]| ==> s.toLo[1..][i] == s.toLo[i + 1];
  }

  lemma ReceiveLoKeepsSlave(cfg: Config, b: Base, s: System, clock: u32)
    requires cfg.Valid() && Negotiation(s) && SlaveReceives(cfg, b, s) && s.toLo != [] && clock > 0
    ensures var s' := Next(cfg, s, ReceiveLo(clock)); SlaveReceives(cfg, b, s') || SlaveReceives(cfg, NOTHING, s')
  {
    hide *;
    if s.toLo[0].init {
      SlaveTakesOpening(cfg, b, s, clock);
    } else {
      SlaveTakesChunk(cfg, b, s, clock);
    }
  }

  lemma ReceiveLoKeepsMaster(cfg: Config, b: Base, s: System, clock: u32)
    requires cfg.Valid() && Negotiation(s) && MasterReceives(cfg, b, s) && s.toLo != [] && clock > 0
    ensures MasterReceives(cfg, b, Next(cfg, s, ReceiveLo(clock)))
  {
    hide ProcessDd, Missing, MasterDone, Ordered, HeardEnough;
    ReceiveLoFacts(cfg, s, clock);
  }

  // ---------------------------------------------------------------- the master receives

  /** The master ignores opening packets and takes the slave's first chunk as the end of the
      negotiation. */
  lemma ReceiveHiFacts(cfg: Config, s: System, clock: u32)
    requires cfg.Valid() && Negotiation(s) && s.toHi != [] && clock > 0
    ensures var n, d, n' := s.hi, s.toHi[0], ProcessDd(cfg.hiId, cfg.loId, s.hi, s.toHi[0], cfg.hiSummary, clock);
            if d.init then
              !Exchanging(n) && !Exchanging(n') && BaseOf(n') == BaseOf(n) && (n.state != TwoWay ==> n' == n)
            else
              && Exchanging(s.lo)
              && if Left(n) then n' == n
                 else n'.state == Exchange && n'.ddMaster
                      && n'.summaryTx == (if n.state == Exchange then n.summaryTx else cfg.hiSummary)
                      && n'.summaryRecv == n.summaryRecv + d.headers && n'.peerDone == (n.peerDone || !d.more)
  {
    assert s.toHi[0].init ==> s.toHi[0].OpensNegotiation();
  }

  lemma ReceiveHiKeepsNegotiation(cfg: Config, s: System, clock: u32)
    requires cfg.Valid() && Negotiation(s) && s.toHi != [] && clock > 0
    ensures Negotiation(Next(cfg, s, ReceiveHi(clock)))
  {
    hide ProcessDd;
    ReceiveHiFacts(cfg, s, clock);
  }

  lemma ReceiveHiKeepsSlave(cfg: Config, b: Base, s: System, clock: u32)
    requires cfg.Valid() && Negotiation(s) && SlaveReceives(cfg, b, s) && s.toHi != [] && clock > 0
    ensures SlaveReceives(cfg, b, Next(cfg, s, ReceiveHi(clock)))
  {
    hide ProcessDd, Missing, SlaveDone, HasOpening, Flying, Ordered, Opening;
    ReceiveHiFacts(cfg, s, clock);
    if !Exchanging(s.hi) && !s.toHi[0].init {
      OpeningsCarryNothing(s.toLo);
      assert b.recv + [] + cfg.hiSummary == b.recv + cfg.hiSummary && [] + cfg.hiSummary == cfg.hiSummary;
    }
  }

  lemma OpeningsCarryNothing(ch: Channel)
    requires Opening(ch)
    ensures Flying(ch) == [] && forall i :: 0 <= i < |ch| ==> ch[i].more
  {
    FlyingNothing(ch);
  }

  lemma ReceiveHiKeepsCover(cfg: Config, b: Base, s: System, clock: u32)
    requires cfg.Valid() && Negotiation(s) && MasterReceives(cfg, b, s) && s.toHi != [] && clock > 0
    ensures var s' := Next(cfg, s, ReceiveHi(clock));
            && (!Left(s'.hi) ==> forall i :: 0 <= i < |s'.toHi| && !s'.toHi[i].more ==>
                  CoveredBy(cfg.loSummary, s'.hi.summaryRecv, s'.toHi[..i + 1]))
            && (Exchanging(s'.hi) && s'.hi.peerDone ==> HeardEnough(cfg, b, s'.hi.summaryRecv))
  {
    hide ProcessDd, Missing, MasterDone, Within, Ordered, Opening;
    ReceiveHiFacts(cfg, s, clock);
    var d, rest := s.toHi[0], s.toHi[1..];
    var s' := Next(cfg, s, ReceiveHi(clock));
    assert s.toHi[..1][1..] == [] && Flying(s.toHi[..1]) == d.headers;
    if !d.init && !Left(s.hi) && !d.more {
      assert CoveredBy(cfg.loSummary, s.hi.summaryRecv, s.toHi[..1]);
      assert HeardEnough(cfg, b, s'.hi.summaryRecv);
    } else if !d.init && !Exchanging(s.hi) {
      assert d.headers == cfg.FirstChunk();
    }
    forall i | 0 <= i < |rest| && !rest[i].more && !Left(s'.hi)
      ensures CoveredBy(cfg.loSummary, s'.hi.summaryRecv, rest[..i + 1])
    {
      assert !s.toHi[i + 1].more;
      assert s.toHi[..i + 2][1..] == rest[..i + 1];
      assert CoveredBy(cfg.loSummary, s.hi.summaryRecv, s.toHi[..i + 2]);
      if d.init {
        assert d.OpensNegotiation() by { PoppedOpening(s.toHi); }
      }
    }
  }

  lemma ReceiveHiKeepsMaster(cfg: Config, b: Base, s: System, clock: u32)
    requires cfg.Valid() && Negotiation(s) && MasterReceives(cfg, b, s) && s.toHi != [] && clock > 0
    ensures MasterReceives(cfg, b, Next(cfg, s, ReceiveHi(clock)))
  {
    hide ProcessDd, Missing, HeardEnough, CoveredBy, MasterDone;
    ReceiveHiFacts(cfg, s, clock);
    ReceiveHiKeepsCover(cfg, b, s, clock);
    var d, rest := s.toHi[0], s.toHi[1..];
    assert d.init ==> d.OpensNegotiation();
    assert Flying(s.toHi) == d.headers + Flying(rest);
    assert forall i :: 0 <= i < |rest| ==> rest[i] == s.toHi[i + 1];
    if d.init && Opening(rest) {
      assert Opening(s.toHi);
    }
  }

  // ---------------------------------------------------------------- announcements

  lemma EmitKeepsAnnounced(cfg: Config, s: System, a: Action)
    requires Negotiation(s) && Announced(s) && (a.EmitLo? || a.EmitHi?) && Enabled(s, a)
    ensures Announced(Next(cfg, s, a))
  {
    hide AfterEmit, Emitted, HasLast, HasOpening, Ordered, Opening, Missing, ChunkSize;
    if a.EmitLo? {
      EmitFacts(s.lo, cfg.loDb, a.clock);
      PushedLast(s.toHi, Emitted(s.lo, a.clock));
    } else {
      EmitFacts(s.hi, cfg.hiDb, a.clock);
      PushedLast(s.toLo, Emitted(s.hi, a.clock));
      PushedOpening(s.toLo, Emitted(s.hi, a.clock));
    }
  }

  lemma ReceiveKeepsAnnounced(cfg: Config, b: Base, s: System, a: Action)
    requires cfg.Valid() && Negotiation(s) && SlaveReceives(cfg, b, s) && Announced(s)
    requires (a.ReceiveLo? || a.ReceiveHi?) && Enabled(s, a)
    ensures Announced(Next(cfg, s, a))
  {
    hide ProcessDd, HasLast, HasOpening, Opening, Missing, Flying;
    if a.ReceiveLo? {
      ReceiveLoFacts(cfg, s, a.clock);
      PoppedLast(s.toLo);
      PoppedOpening(s.toLo);
    } else {
      ReceiveHiFacts(cfg, s, a.clock);
      PoppedLast(s.toHi);
      PoppedOpening(s.toHi);
    }
  }

  // ---------------------------------------------------------------- runs

  lemma StepKeepsSlave(cfg: Config, b: Base, s: System, a: Action)
    requires cfg.Valid() && Negotiation(s) && SlaveReceives(cfg, b, s) && Announced(s) && Enabled(s, a) && !a.IsHello()
    ensures var s' := Next(cfg, s, a);
            (SlaveReceives(cfg, b, s') || SlaveReceives(cfg, NOTHING, s')) && Announced(s')
  {
    hide Negotiation, SlaveReceives, Announced;
    match a
    case EmitLo(clock) =>
      EmitLoKeepsSlave(cfg, b, s, clock);
      EmitKeepsAnnounced(cfg, s, a);
    case EmitHi(clock) =>
      EmitHiKeepsSlave(cfg, b, s, clock);
      EmitKeepsAnnounced(cfg, s, a);
    case ReceiveLo(clock) =>
      ReceiveLoKeepsSlave(cfg, b, s, clock);
      ReceiveKeepsAnnounced(cfg, b, s, a);
    case ReceiveHi(clock) =>
      ReceiveHiKeepsSlave(cfg, b, s, clock);
      ReceiveKeepsAnnounced(cfg, b, s, a);
  }

  lemma StepKeepsInv(cfg: Config, lb: Base, hb: Base, s: System, a: Action)
    requires Inv(cfg, lb, hb, s) && Enabled(s, a) && !a.IsOneWay()
    ensures Inv(cfg, lb, hb, Next(cfg, s, a))
  {
    hide Negotiation, SlaveReceives, MasterReceives, Announced;
    if a.IsHello() {
      HelloKeepsInv(cfg, lb, hb, s, a);
    } else {
      StepKeepsSlave(cfg, if SlaveReceives(cfg, lb, s) then lb else NOTHING, s, a);
      match a
      case EmitLo(clock) =>
        EmitLoKeepsNegotiation(cfg, s, clock);
        EmitLoKeepsMaster(cfg, hb, s, clock);
      case EmitHi(clock) =>
        EmitHiKeepsNegotiation(cfg, s, clock);
        EmitHiKeepsMaster(cfg, hb, s, clock);
      case ReceiveLo(clock) =>
        ReceiveLoKeepsNegotiation(cfg, s, clock);
        ReceiveLoKeepsMaster(cfg, hb, s, clock);
      case ReceiveHi(clock) =>
        ReceiveHiKeepsNegotiation(cfg, s, clock);
        ReceiveHiKeepsMaster(cfg, hb, s, clock);
    }
  }

  lemma {:induction false} ExchangeKeepsInv(cfg: Config, run: seq<System>)
    requires IsExchange(cfg, run)
    ensures Inv(cfg, BaseOf(run[0].lo), BaseOf(run[0].hi), run[|run| - 1])
  {
    var n := |run| - 1;
    if n == 0 {
      StartInv(cfg, run[0]);
    } else {
      hide Inv, Next, Enabled, Start, BaseOf;
      ExchangeKeepsInv(cfg, run[..n]);
      assert IsQuietStep(cfg, run[n - 1], run[n - 1 + 1]);
      var a: Action :| !a.IsOneWay() && Enabled(run[n - 1], a) && run[n] == Next(cfg, run[n - 1], a);
      StepKeepsInv(cfg, BaseOf(run[0].lo), BaseOf(run[0].hi), run[n - 1], a);
    }
  }

  // ---------------------------------------------------------------- the theorem

  ghost predicate SameElements(a: Headers, b: Headers) {
    forall h :: h in a <==> h in b
  }

  /** What must hold of a side that has left Exchange: it received exactly the peer's headers, sent all
      of its own, requests exactly what it needs, and is Full just when it needs nothing. */
  ghost predicate ExchangedAll(n: Neighbor, theirs: Headers, db: Headers) {
    && SameElements(n.summaryRecv, theirs) && n.summaryTx == []
    && (forall h :: h in n.requestList <==> h in theirs && Needed(db, h))
    && (n.state == Full <==> n.requestList == [])
  }

  /** Whoever has left Exchange did so with everything, and the higher router id is the master. */
  ghost predicate Correct(cfg: Config, s: System) {
    && (Left(s.lo) ==> !s.lo.ddMaster && ExchangedAll(s.lo, cfg.hiSummary, cfg.loDb))
    && (Left(s.hi) ==> s.hi.ddMaster && ExchangedAll(s.hi, cfg.loSummary, cfg.hiDb) && Exchanging(s.lo))
  }

  /** A side that left with the right set of headers has the right requests. */
  lemma RightSetIsCorrect(cfg: Config, lb: Base, hb: Base, s: System)
    requires Inv(cfg, lb, hb, s)
    requires Left(s.lo) ==> SameElements(s.lo.summaryRecv, cfg.hiSummary)
    requires Left(s.hi) ==> SameElements(s.hi.summaryRecv, cfg.loSummary)
    ensures Correct(cfg, s)
  {
    hide Missing, Needed, Flying, HeardEnough, Ordered, Opening, HasLast, HasOpening, Within, FirstPending, CoveredBy;
    forall h ensures h in Missing(cfg.loDb, s.lo.summaryRecv) <==> h in s.lo.summaryRecv && Needed(cfg.loDb, h)
             ensures h in Missing(cfg.hiDb, s.hi.summaryRecv) <==> h in s.hi.summaryRecv && Needed(cfg.hiDb, h)
    {
      MissingMember(cfg.loDb, s.lo.summaryRecv, h);
      MissingMember(cfg.hiDb, s.hi.summaryRecv, h);
    }
  }

  /** What a side that has left holds, whatever it started with. */
  lemma LeftHolds(cfg: Config, lb: Base, hb: Base, s: System)
    requires Inv(cfg, lb, hb, s)
    ensures Left(s.lo) ==>
              || s.lo.summaryRecv == cfg.hiSummary
              || (lb.recv <= s.lo.summaryRecv <= lb.recv + cfg.hiSummary
                  && (!lb.done ==> s.lo.summaryRecv == lb.recv + cfg.hiSummary))
    ensures Left(s.hi) ==>
              && hb.recv <= s.hi.summaryRecv
              && (forall h :: h in s.hi.summaryRecv ==> h in hb.recv || h in cfg.loSummary)
              && HeardEnough(cfg, hb, s.hi.summaryRecv)
  {
    hide Missing, Flying, HeardEnough, Negotiation, Announced, HasOpening, FirstPending, CoveredBy;
    assert [] + cfg.hiSummary == cfg.hiSummary;
  }

  /**
   Database exchange: in every exchange that starts with fresh neighbors, when a side leaves Exchange it
   has the peer's full header list and has sent its own, requests exactly the headers it needs, and the
   higher router id is the master. The slave's copy is exact, in order and without repetition.
   */
  lemma ExchangeCorrect(cfg: Config, run: seq<System>)
    requires IsExchange(cfg, run) && Fresh(run[0].lo) && Fresh(run[0].hi)
    ensures var s := run[|run| - 1];
            Correct(cfg, s) && (Left(s.lo) ==> s.lo.summaryRecv == cfg.hiSummary)
  {
    ExchangeKeepsInv(cfg, run);
    var s := run[|run| - 1];
    LeftHolds(cfg, NOTHING, NOTHING, s);
    hide Inv, Correct;
    assert [] + cfg.hiSummary == cfg.hiSummary;
    RightSetIsCorrect(cfg, NOTHING, NOTHING, s);
  }
}

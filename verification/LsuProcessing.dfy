/**
 What processing an LSU amounts to, LSA by LSA and packet by packet (`process_lsu` and `flood_lsas_to_others` of
 src/instance.rs; sections 13 and 13.3 of RFC 2328).
 */
module LsuProcessing {
  import opened Numbers
  import opened LsaTypes
  import opened LinkStateDatabase
  import opened Instance

  /** The databases just before LSA `i` is looked at. */
  ghost function StoreAt(stub: bool, routerId: u32, store: Store, lsas: seq<Lsa>, i: nat): Store
    requires i <= |lsas|
  {
    Receive(stub, routerId, store, lsas[..i]).store
  }

  /** The database an LSA belongs to. */
  ghost function Home(store: Store, l: Lsa): Entries {
    if l.header.lsType == AsExternal then store.external else store.area
  }

  /** Type 5 LSAs are not looked at in a stub area. */
  ghost predicate Ignored(stub: bool, l: Lsa) {
    stub && l.header.lsType == AsExternal
  }

  /** Our copy is newer than the LSA. */
  ghost predicate HeldNewer(store: Store, l: Lsa) {
    l.Key() in Home(store, l) && IsMoreRecentThan(Home(store, l)[l.Key()].lsa.header, l.header) == Greater
  }

  /** We have no copy, or an older one. */
  ghost predicate Brings(store: Store, l: Lsa) {
    l.Key() !in Home(store, l) || IsMoreRecentThan(l.header, Home(store, l)[l.Key()].lsa.header) == Greater
  }

  ghost predicate AckedAt(stub: bool, routerId: u32, store: Store, lsas: seq<Lsa>, i: nat)
    requires i < |lsas|
  {
    !Ignored(stub, lsas[i]) && !HeldNewer(StoreAt(stub, routerId, store, lsas, i), lsas[i])
  }

  ghost predicate ChangedAt(stub: bool, routerId: u32, store: Store, lsas: seq<Lsa>, i: nat)
    requires i < |lsas|
  {
    !Ignored(stub, lsas[i]) && Brings(StoreAt(stub, routerId, store, lsas, i), lsas[i])
  }

  /** The newer copy is sent back only from the area database. */
  ghost predicate AnsweredAt(stub: bool, routerId: u32, store: Store, lsas: seq<Lsa>, i: nat)
    requires i < |lsas|
  {
    && !Ignored(stub, lsas[i]) && HeldNewer(StoreAt(stub, routerId, store, lsas, i), lsas[i])
    && lsas[i].Key() in StoreAt(stub, routerId, store, lsas, i).area
  }

  /** The positions at which the flag is set, in increasing order. */
  ghost predicate Picks(idx: seq<nat>, flags: seq<bool>) {
    && (forall j :: 0 <= j < |idx| ==> idx[j] < |flags|)
    && (forall j, k :: 0 <= j < k < |idx| ==> idx[j] < idx[k])
    && (forall i :: 0 <= i < |flags| ==> (i in idx <==> flags[i]))
  }

  ghost function Extended(idx: seq<nat>, n: nat, flag: bool): seq<nat> {
    if flag then idx + [n] else idx
  }

  lemma PicksSnoc(idx: seq<nat>, flags: seq<bool>, flag: bool)
    requires Picks(idx, flags)
    ensures Picks(Extended(idx, |flags|, flag), flags + [flag])
  {
    var idx', flags' := Extended(idx, |flags|, flag), flags + [flag];
    forall i | 0 <= i < |flags'| ensures i in idx' <==> flags'[i] {
      if i < |flags| {
        assert flags'[i] == flags[i];
      }
    }
  }

  /** The LSAs at these positions, in order. */
  ghost predicate Carries(lsas: seq<Lsa>, idx: seq<nat>, sent: seq<Lsa>) {
    |sent| == |idx| && forall j :: 0 <= j < |idx| ==> idx[j] < |lsas| && sent[j] == lsas[idx[j]]
  }

  /** Their headers. */
  ghost predicate Names(lsas: seq<Lsa>, idx: seq<nat>, headers: seq<LsaHeader>) {
    |headers| == |idx| && forall j :: 0 <= j < |idx| ==> idx[j] < |lsas| && headers[j] == lsas[idx[j]].header
  }

  // ---------------------------------------------------------------- the databases

  /** One step: an LSA that brings something replaces what is held, with the mark that says whether it is our own;
      any other leaves the databases alone. */
  lemma StoreStep(stub: bool, routerId: u32, store: Store, lsas: seq<Lsa>, i: nat)
    requires i < |lsas|
    ensures var before, after := StoreAt(stub, routerId, store, lsas, i), StoreAt(stub, routerId, store, lsas, i + 1);
            var l := lsas[i];
            if !ChangedAt(stub, routerId, store, lsas, i) then after == before
            else if l.header.lsType == AsExternal then
              after == before.(external := before.external[l.Key() := LsdbEntry(l, l.header.advertisingRouter == routerId)])
            else after == before.(area := before.area[l.Key() := LsdbEntry(l, l.header.advertisingRouter == routerId)])
  {
    assert lsas[..i + 1][..i] == lsas[..i];
  }

  // ---------------------------------------------------------------- acknowledgments, changes and answers

  /** The positions that were acknowledged, that changed something, and that were answered. */
  datatype Log = Log(acked: seq<nat>, changed: seq<nat>, answered: seq<nat>)

  ghost function AckFlags(stub: bool, routerId: u32, store: Store, lsas: seq<Lsa>, n: nat): (flags: seq<bool>)
    requires n <= |lsas|
    ensures |flags| == n
  {
    seq(n, i requires 0 <= i < n => AckedAt(stub, routerId, store, lsas, i))
  }

  ghost function ChangeFlags(stub: bool, routerId: u32, store: Store, lsas: seq<Lsa>, n: nat): (flags: seq<bool>)
    requires n <= |lsas|
    ensures |flags| == n
  {
    seq(n, i requires 0 <= i < n => ChangedAt(stub, routerId, store, lsas, i))
  }

  ghost function AnswerFlags(stub: bool, routerId: u32, store: Store, lsas: seq<Lsa>, n: nat): (flags: seq<bool>)
    requires n <= |lsas|
    ensures |flags| == n
  {
    seq(n, i requires 0 <= i < n => AnsweredAt(stub, routerId, store, lsas, i))
  }

  ghost predicate Logs(stub: bool, routerId: u32, store: Store, lsas: seq<Lsa>, n: nat, log: Log)
    requires n <= |lsas|
  {
    && Picks(log.acked, AckFlags(stub, routerId, store, lsas, n))
    && Picks(log.changed, ChangeFlags(stub, routerId, store, lsas, n))
    && Picks(log.answered, AnswerFlags(stub, routerId, store, lsas, n))
  }

  /** The outcome lists just these LSAs, in order. */
  ghost predicate Follows(stub: bool, routerId: u32, store: Store, lsas: seq<Lsa>, log: Log, o: Outcome) {
    && Names(lsas, log.acked, o.acks) && Carries(lsas, log.changed, o.changed)
    && RepliesAt(stub, routerId, store, lsas, log.answered, o.replies)
  }

  ghost predicate RepliesAt(stub: bool, routerId: u32, store: Store, lsas: seq<Lsa>, idx: seq<nat>, replies: seq<Lsa>) {
    |replies| == |idx|
    && forall j :: 0 <= j < |idx| ==> idx[j] < |lsas| && ReplyAt(stub, routerId, store, lsas, idx[j], replies[j])
  }

  /** The reply to LSA `i` is the copy we held at that moment. */
  ghost predicate ReplyAt(stub: bool, routerId: u32, store: Store, lsas: seq<Lsa>, i: nat, reply: Lsa)
    requires i < |lsas|
  {
    var area := StoreAt(stub, routerId, store, lsas, i).area;
    lsas[i].Key() in area && reply == area[lsas[i].Key()].lsa
  }

  ghost predicate CallsForSpf(t: LsaType) {
    t == Router || t == Network || t == SummaryNetwork
  }

  /** One LSA of the update. */
  lemma OneLsa(stub: bool, routerId: u32, o: Outcome, l: Lsa)
    ensures var o' := ReceiveOne(stub, routerId, o, l);
            && o'.acks == o.acks + (if !Ignored(stub, l) && !HeldNewer(o.store, l) then [l.header] else [])
            && o'.changed == o.changed + (if !Ignored(stub, l) && Brings(o.store, l) then [l] else [])
            && o'.replies == o.replies + (if !Ignored(stub, l) && HeldNewer(o.store, l) && l.Key() in o.store.area
                                          then [o.store.area[l.Key()].lsa] else [])
            && o'.spf == (o.spf || (!Ignored(stub, l) && Brings(o.store, l) && CallsForSpf(l.header.lsType)))
  {
    if l.Key() in Home(o.store, l) {
      var held := Home(o.store, l)[l.Key()].lsa.header;
      RecencyIsStrictOrder(l.header, held, held);
    }
    assert o.acks + [] == o.acks && o.changed + [] == o.changed && o.replies + [] == o.replies;
  }

  lemma {:induction false} ReceiveLog(stub: bool, routerId: u32, store: Store, lsas: seq<Lsa>, n: nat) returns (log: Log)
    requires n <= |lsas|
    ensures Logs(stub, routerId, store, lsas, n, log)
    ensures Follows(stub, routerId, store, lsas, log, Receive(stub, routerId, store, lsas[..n]))
    ensures Receive(stub, routerId, store, lsas[..n]).spf <==>
              exists i :: 0 <= i < n && ChangedAt(stub, routerId, store, lsas, i) && CallsForSpf(lsas[i].header.lsType)
  {
    hide Receive, ReceiveOne, Ignored, HeldNewer, Brings, CallsForSpf, Picks, Follows, AckedAt, ChangedAt, AnsweredAt,
      AckFlags, ChangeFlags, AnswerFlags;
    if n == 0 {
      log := Log([], [], []);
      NothingReceived(stub, routerId, store, lsas);
    } else {
      var i := n - 1;
      var front := ReceiveLog(stub, routerId, store, lsas, i);
      var ack, change, answer := AckedAt(stub, routerId, store, lsas, i), ChangedAt(stub, routerId, store, lsas, i),
                                 AnsweredAt(stub, routerId, store, lsas, i);
      log := Log(Extended(front.acked, i, ack), Extended(front.changed, i, change), Extended(front.answered, i, answer));
      PicksSnoc(front.acked, AckFlags(stub, routerId, store, lsas, i), ack);
      PicksSnoc(front.changed, ChangeFlags(stub, routerId, store, lsas, i), change);
      PicksSnoc(front.answered, AnswerFlags(stub, routerId, store, lsas, i), answer);
      FlagsSnoc(stub, routerId, store, lsas, i);
      FollowsSnoc(stub, routerId, store, lsas, i, front, log);
    }
  }

  lemma NothingReceived(stub: bool, routerId: u32, store: Store, lsas: seq<Lsa>)
    ensures Logs(stub, routerId, store, lsas, 0, Log([], [], []))
    ensures Follows(stub, routerId, store, lsas, Log([], [], []), Receive(stub, routerId, store, lsas[..0]))
    ensures !Receive(stub, routerId, store, lsas[..0]).spf
  {
  }

  lemma FlagsSnoc(stub: bool, routerId: u32, store: Store, lsas: seq<Lsa>, i: nat)
    requires i < |lsas|
    ensures AckFlags(stub, routerId, store, lsas, i + 1)
         == AckFlags(stub, routerId, store, lsas, i) + [AckedAt(stub, routerId, store, lsas, i)]
    ensures ChangeFlags(stub, routerId, store, lsas, i + 1)
         == ChangeFlags(stub, routerId, store, lsas, i) + [ChangedAt(stub, routerId, store, lsas, i)]
    ensures AnswerFlags(stub, routerId, store, lsas, i + 1)
         == AnswerFlags(stub, routerId, store, lsas, i) + [AnsweredAt(stub, routerId, store, lsas, i)]
  {
    hide AckedAt, ChangedAt, AnsweredAt;
  }

  lemma FollowsSnoc(stub: bool, routerId: u32, store: Store, lsas: seq<Lsa>, i: nat, front: Log, log: Log)
    requires i < |lsas| && Follows(stub, routerId, store, lsas, front, Receive(stub, routerId, store, lsas[..i]))
    requires log == Log(Extended(front.acked, i, AckedAt(stub, routerId, store, lsas, i)),
                        Extended(front.changed, i, ChangedAt(stub, routerId, store, lsas, i)),
                        Extended(front.answered, i, AnsweredAt(stub, routerId, store, lsas, i)))
    ensures Follows(stub, routerId, store, lsas, log, Receive(stub, routerId, store, lsas[..i + 1]))
    ensures Receive(stub, routerId, store, lsas[..i + 1]).spf ==
              (Receive(stub, routerId, store, lsas[..i]).spf
               || (ChangedAt(stub, routerId, store, lsas, i) && CallsForSpf(lsas[i].header.lsType)))
  {
    hide ReceiveOne, Ignored, HeldNewer, Brings, CallsForSpf, Home;
    assert lsas[..i + 1][..i] == lsas[..i];
    OneLsa(stub, routerId, Receive(stub, routerId, store, lsas[..i]), lsas[i]);
  }

  // ---------------------------------------------------------------- the flood

  /** A neighbor other than `fromRouter` that has got as far as Exchange. */
  ghost predicate SomeoneToTell(iface: Interface, fromRouter: u32) {
    exists id :: id in iface.neighbors && id != fromRouter
      && (iface.neighbors[id] == Exchange || iface.neighbors[id] == Loading || iface.neighbors[id] == Full)
  }

  ghost function AdmitFlags(stub: bool, lsas: seq<Lsa>): (flags: seq<bool>)
    ensures |flags| == |lsas|
  {
    seq(|lsas|, i requires 0 <= i < |lsas| => !Ignored(stub, lsas[i]))
  }

  /** The LSAs that leave, in order: all of them, but no Type 5 LSAs in a stub area. */
  lemma {:induction false} AdmittedInOrder(stub: bool, lsas: seq<Lsa>) returns (idx: seq<nat>)
    ensures Picks(idx, AdmitFlags(stub, lsas)) && Carries(lsas, idx, Admitted(stub, lsas))
  {
    if lsas == [] {
      idx := [];
    } else {
      hide Picks;
      var n := |lsas| - 1;
      var front := AdmittedInOrder(stub, lsas[..n]);
      var flag := !Ignored(stub, lsas[n]);
      PicksSnoc(front, AdmitFlags(stub, lsas[..n]), flag);
      assert AdmitFlags(stub, lsas) == AdmitFlags(stub, lsas[..n]) + [flag];
      idx := Extended(front, n, flag);
    }
  }

  /** Whether interface `k` gets the flood. */
  ghost predicate Receives(ifaces: seq<Interface>, k: nat, input: Option<nat>, fromRouter: u32)
    requires k < |ifaces|
  {
    !ifaces[k].down && input != Some(k) && SomeoneToTell(ifaces[k], fromRouter)
  }

  ghost function FloodFlags(ifaces: seq<Interface>, input: Option<nat>, fromRouter: u32, any: bool, n: nat): seq<bool>
    requires n <= |ifaces|
  {
    seq(n, k requires 0 <= k < n => any && Receives(ifaces, k, input, fromRouter))
  }

  ghost predicate FloodsTo(idx: seq<nat>, lsas: seq<Lsa>, out: seq<Response>) {
    |out| == |idx| && forall j :: 0 <= j < |idx| ==> out[j] == Flood(idx[j], lsas)
  }

  lemma {:induction false} FloodsInOrder(ifaces: seq<Interface>, stub: bool, input: Option<nat>, fromRouter: u32, lsas: seq<Lsa>,
                                         n: nat) returns (idx: seq<nat>)
    requires n <= |ifaces|
    ensures Picks(idx, FloodFlags(ifaces, input, fromRouter, Admitted(stub, lsas) != [], n))
    ensures FloodsTo(idx, Admitted(stub, lsas), FloodOut(ifaces, stub, input, fromRouter, lsas, n))
  {
    if n == 0 {
      idx := [];
    } else {
      hide Admitted, Picks, Eligible, SomeoneToTell;
      var k := n - 1;
      var any := Admitted(stub, lsas) != [];
      var front := FloodsInOrder(ifaces, stub, input, fromRouter, lsas, k);
      EligibleMeans(ifaces[k], fromRouter);
      var flag := any && Receives(ifaces, k, input, fromRouter);
      PicksSnoc(front, FloodFlags(ifaces, input, fromRouter, any, k), flag);
      assert FloodFlags(ifaces, input, fromRouter, any, n) == FloodFlags(ifaces, input, fromRouter, any, k) + [flag];
      idx := Extended(front, k, flag);
    }
  }

  lemma EligibleMeans(iface: Interface, fromRouter: u32)
    ensures Eligible(iface, fromRouter) <==> SomeoneToTell(iface, fromRouter)
  {
  }

  // ---------------------------------------------------------------- the packets

  /**
   The packets sent for an LSU on interface `idx`: first one reply for each answered LSA, on the input interface, with our
   copy; then, exactly if something is to be acknowledged, one acknowledgment on the input interface that lists all of it;
   then, exactly if something changed, one LSU with the changed LSAs on each interface that is to receive it.
   */
  ghost predicate Sends(idx: nat, replies: seq<Lsa>, acks: seq<LsaHeader>, told: seq<nat>, flooded: seq<Lsa>, out: seq<Response>) {
    var r, a := |replies|, |replies| + (if acks == [] then 0 else 1);
    && |out| == a + |told|
    && (forall j :: 0 <= j < r ==> out[j] == Reply(idx, [replies[j]]))
    && (acks != [] ==> out[r] == Acknowledge(idx, acks))
    && (forall j :: 0 <= j < |told| ==> out[a + j] == Flood(told[j], flooded))
  }

  lemma ResponsesMeaning(ifaces: seq<Interface>, stub: bool, idx: nat, fromRouter: u32, o: Outcome) returns (told: seq<nat>)
    ensures Picks(told, FloodFlags(ifaces, Some(idx), fromRouter, Admitted(stub, o.changed) != [], |ifaces|))
    ensures Sends(idx, o.replies, o.acks, told, Admitted(stub, o.changed), Responses(ifaces, stub, idx, fromRouter, o))
  {
    hide FloodOut, Receives;
    if o.changed == [] {
      assert Admitted(stub, o.changed) == [];
      told := [];
    } else {
      told := FloodsInOrder(ifaces, stub, Some(idx), fromRouter, o.changed, |ifaces|);
    }
  }

  /**
   `process_lsu` as a whole. Some log lists, in order, the LSAs that were acknowledged (all but ignored ones and those of
   which we hold a newer copy), that changed a database (new or newer ones) and that were answered (older ones outside the
   AS-wide database); the packets are those of this log, and SPF is asked for exactly when a Router-LSA, a Network-LSA or a
   Type 3 Summary-LSA changed.
   */
  lemma LsuMeaning(ifaces: seq<Interface>, stub: bool, routerId: u32, store: Store, idx: nat, fromRouter: u32, lsas: seq<Lsa>)
    returns (log: Log, told: seq<nat>, replies: seq<Lsa>, acks: seq<LsaHeader>, flooded: seq<Lsa>)
    ensures Logs(stub, routerId, store, lsas, |lsas|, log)
    ensures RepliesAt(stub, routerId, store, lsas, log.answered, replies)
    ensures Names(lsas, log.acked, acks) && Carries(lsas, log.changed, flooded)
    ensures Picks(told, FloodFlags(ifaces, Some(idx), fromRouter, log.changed != [], |ifaces|))
    ensures var o := Receive(stub, routerId, store, lsas);
            && Sends(idx, replies, acks, told, flooded, Responses(ifaces, stub, idx, fromRouter, o))
            && (o.spf <==> exists i :: 0 <= i < |lsas| && ChangedAt(stub, routerId, store, lsas, i) && CallsForSpf(lsas[i].header.lsType))
  {
    hide Receives, AckedAt, ChangedAt, AnsweredAt, ReplyAt, Responses, Receive, CallsForSpf, Picks, Sends;
    assert lsas[..|lsas|] == lsas;
    var o := Receive(stub, routerId, store, lsas);
    log := ReceiveLog(stub, routerId, store, lsas, |lsas|);
    told := ResponsesMeaning(ifaces, stub, idx, fromRouter, o);
    ChangedIsAdmitted(stub, routerId, store, lsas, log, o);
    replies, acks, flooded := o.replies, o.acks, o.changed;
  }

  /** What changed something was not ignored, so all of it is flooded. */
  lemma ChangedIsAdmitted(stub: bool, routerId: u32, store: Store, lsas: seq<Lsa>, log: Log, o: Outcome)
    requires Logs(stub, routerId, store, lsas, |lsas|, log) && Follows(stub, routerId, store, lsas, log, o)
    ensures Admitted(stub, o.changed) == o.changed
  {
    hide AckedAt, AnsweredAt, ReplyAt, Brings, StoreAt;
    forall j | 0 <= j < |o.changed| ensures !Ignored(stub, o.changed[j]) {
      assert log.changed[j] in log.changed;
      assert ChangeFlags(stub, routerId, store, lsas, |lsas|)[log.changed[j]];
    }
    AdmittedAll(stub, o.changed);
  }

  lemma {:induction false} AdmittedAll(stub: bool, lsas: seq<Lsa>)
    requires forall j :: 0 <= j < |lsas| ==> !Ignored(stub, lsas[j])
    ensures Admitted(stub, lsas) == lsas
  {
    if lsas != [] {
      var n := |lsas| - 1;
      AdmittedAll(stub, lsas[..n]);
      assert lsas == lsas[..n] + [lsas[n]];
    }
  }
}

/**
 Reconciliation of our own Type 5 LSAs with the redistributed prefixes (`originate_external_lsas` and
 `flush_self_externals_outside` of src/instance.rs; section 14.1 of RFC 2328).
 */
module ExternalReconciliation {
  import opened Numbers
  import opened LsaTypes
  import opened LinkStateDatabase
  import LsaCodec

  /** The options every LSA of ours carries: the E bit. */
  const STANDARD_OPTIONS: u8 := 0x02
  const DEFAULT_ROUTE: u32 := 0

  datatype Prefix = Prefix(address: u32, mask: u32)

  datatype Summary = Summary(prefix: u32, length: u8)

  /** The rule for connected routes. `NoRule` stands for a missing rule and for one that names an
      unknown route-map; a known route-map is given by the prefixes it lets through. */
  datatype Rule = NoRule | Active(metric: u32, metricType2: bool, routeMap: Option<set<Prefix>>)

  predicate IsExternal(l: Lsa) {
    l.header.lsType.AsExternal? && l.body.AsExternalBody?
  }

  /** The AS-wide database: Type 5 LSAs under their own keys. */
  ghost predicate Valid(entries: Entries) {
    WellKeyed(entries) && forall k :: k in entries ==> IsExternal(entries[k].lsa)
  }

  predicate Live(e: LsdbEntry) {
    e.lsa.header.lsAge < MAX_AGE
  }

  function KeyFor(routerId: u32, id: u32): LsaKey {
    LsaKey(AsExternal, id, routerId)
  }

  /** The link-state ids we currently advertise. */
  ghost function LiveSelf(entries: Entries, routerId: u32): set<u32> {
    set k | k in entries && k.advertisingRouter == routerId && Live(entries[k]) :: k.linkStateId
  }

  // ---------------------------------------------------------------- encode and parse again

  /** An LSA after the encode and re-parse that fills in its length and checksum. */
  function Refreshed(l: Lsa): Lsa
    requires IsExternal(l)
  {
    ReparseSucceeds(l);
    LsaCodec.ParseLsa(LsaCodec.EncodeLsa(l)).value
  }

  /** Re-parsing a Type 5 LSA succeeds and keeps all of the header but length and checksum. */
  lemma ReparseSucceeds(l: Lsa)
    requires IsExternal(l)
    ensures LsaCodec.EncodedFits(l)
    ensures var r := LsaCodec.ParseLsa(LsaCodec.EncodeLsa(l));
            && r.Ok? && r.value.body.AsExternalBody?
            && r.value.header == LsaCodec.Corrected(l).header
  {
    hide LsaCodec.Be32, LsaCodec.ParseHeader, LsaCodec.EncodeHeader, LsaCodec.LsaChecksum;
    assert |LsaCodec.EncodeBody(l.body)| == 16;
    LsaCodec.EncodeLsaShape(l);
    var header := LsaCodec.Corrected(l).header;
    LsaCodec.ParseEncodedHeader(header, LsaCodec.EncodeBody(l.body));
  }

  lemma RefreshedHeader(l: Lsa)
    requires IsExternal(l)
    ensures var r := Refreshed(l);
            && IsExternal(r) && r.Key() == l.Key() && r.header.lsAge == l.header.lsAge
            && r.header.lsSequenceNumber == l.header.lsSequenceNumber && r.header.options == l.header.options
  {
    hide LsaCodec.ParseLsa, LsaCodec.EncodeLsa, LsaCodec.LsaChecksum, LsaCodec.EncodeBody;
    ReparseSucceeds(l);
  }

  // ---------------------------------------------------------------- withdrawing

  /** The MaxAge instance that withdraws an LSA. */
  function Withdrawal(l: Lsa): Lsa
    requires IsExternal(l)
  {
    Refreshed(l.(header := l.header.(lsAge := MAX_AGE, lsSequenceNumber := WrapI32(l.header.lsSequenceNumber + 1))))
  }

  lemma WithdrawalHeader(l: Lsa)
    requires IsExternal(l)
    ensures var w := Withdrawal(l);
            && IsExternal(w) && w.Key() == l.Key() && w.header.lsAge == MAX_AGE
            && w.header.lsSequenceNumber == WrapI32(l.header.lsSequenceNumber + 1)
            && w.header.options == l.header.options && (l.body.metric < 0x100_0000 ==> w.body == l.body)
  {
    hide Refreshed;
    var older := l.(header := l.header.(lsAge := MAX_AGE, lsSequenceNumber := WrapI32(l.header.lsSequenceNumber + 1)));
    RefreshedHeader(older);
    if l.body.metric < 0x100_0000 {
      RefreshedBody(older);
    }
  }

  /** The MaxAge successor of an instance: aged out, one number higher and otherwise as it was. */
  predicate Succeeds(w: Lsa, l: Lsa)
    requires IsExternal(l)
  {
    && w.Key() == l.Key() && w.header.lsAge == 3600 && w.header.lsSequenceNumber == l.header.lsSequenceNumber + 1
    && w.header.options == l.header.options && (l.body.metric < 0x100_0000 ==> w.body == l.body)
  }

  predicate Withdrawn(entries: Entries, routerId: u32, keep: set<u32>, k: LsaKey)
    requires k in entries
  {
    k.advertisingRouter == routerId && Live(entries[k]) && k.linkStateId !in keep
  }

  function FlushOne(entries: Entries, routerId: u32, k: LsaKey): Entries
    requires k in entries && IsExternal(entries[k].lsa)
  {
    Installed(entries, routerId, Withdrawal(entries[k].lsa))
  }

  /** The database with every live LSA of ours outside `keep` withdrawn. */
  ghost function Flushed(entries: Entries, routerId: u32, keep: set<u32>): Entries
    requires Valid(entries)
  {
    map k | k in entries :: if Withdrawn(entries, routerId, keep, k) then FlushOne(entries, routerId, k)[k] else entries[k]
  }

  /** Flushing one key touches that key only. */
  lemma FlushOneEffect(entries: Entries, routerId: u32, k: LsaKey)
    requires Valid(entries) && k in entries
    ensures var after := FlushOne(entries, routerId, k);
            && Valid(after) && after.Keys == entries.Keys
            && (forall j :: j in entries && j != k ==> after[j] == entries[j])
            && (entries[k].lsa.header.lsSequenceNumber < MAX_SEQUENCE_NUMBER ==> Succeeds(after[k].lsa, entries[k].lsa))
            && (entries[k].lsa.header.lsSequenceNumber == MAX_SEQUENCE_NUMBER ==> after[k] == entries[k])
  {
    hide Withdrawal;
    WithdrawalHeader(entries[k].lsa);
  }

  /** What flushing a key does depends on the entry under that key only. */
  lemma FlushOneLocal(entries: Entries, other: Entries, routerId: u32, k: LsaKey)
    requires Valid(entries) && Valid(other) && k in entries && k in other && entries[k] == other[k]
    ensures FlushOne(entries, routerId, k)[k] == FlushOne(other, routerId, k)[k]
  {
    hide Refreshed;
    var l := entries[k].lsa;
    RefreshedHeader(l.(header := l.header.(lsAge := MAX_AGE, lsSequenceNumber := WrapI32(l.header.lsSequenceNumber + 1))));
  }

  /** Flushing in progress: the keys of `left` are still to be withdrawn. */
  ghost predicate Flushing(start: Entries, routerId: u32, keep: set<u32>, left: set<LsaKey>, now: Entries) {
    && Valid(start) && Valid(now) && now.Keys == start.Keys
    && (forall k :: k in left ==> k in start && Withdrawn(start, routerId, keep, k))
    && (forall k :: k in start ==>
          now[k] == if Withdrawn(start, routerId, keep, k) && k !in left then FlushOne(start, routerId, k)[k] else start[k])
  }

  lemma FlushingStep(start: Entries, routerId: u32, keep: set<u32>, left: set<LsaKey>, now: Entries, key: LsaKey)
    requires Flushing(start, routerId, keep, left, now) && key in left
    ensures key in now && IsExternal(now[key].lsa)
    ensures Flushing(start, routerId, keep, left - {key}, FlushOne(now, routerId, key))
  {
    hide FlushOne, Withdrawn;
    FlushOneEffect(now, routerId, key);
    FlushOneLocal(now, start, routerId, key);
  }

  lemma FlushingStarts(start: Entries, routerId: u32, keep: set<u32>, left: set<LsaKey>)
    requires Valid(start) && left == set k | k in start && Withdrawn(start, routerId, keep, k)
    ensures Flushing(start, routerId, keep, left, start)
  {
    hide FlushOne, Withdrawn;
  }

  lemma FlushingEnds(start: Entries, routerId: u32, keep: set<u32>, now: Entries)
    requires Flushing(start, routerId, keep, {}, now)
    ensures Valid(start) && Valid(now) && now == Flushed(start, routerId, keep)
  {
    hide FlushOne, Withdrawn;
  }

  /** `flush_self_externals_outside`: list the headers to withdraw, then withdraw them one by one. */
  method FlushSelfExternalsOutside(lsdb: Lsdb, keep: set<u32>)
    requires Valid(lsdb.entries)
    modifies lsdb
    ensures Valid(lsdb.entries) && lsdb.entries == Flushed(old(lsdb.entries), lsdb.routerId, keep)
  {
    hide Flushing, Withdrawal, Installed, Flushed, Valid;
    ghost var start := lsdb.entries;
    var routerId := lsdb.routerId;
    var toFlush := set k | k in lsdb.entries && Withdrawn(lsdb.entries, routerId, keep, k);
    FlushingStarts(start, routerId, keep, toFlush);
    while toFlush != {}
      invariant Flushing(start, routerId, keep, toFlush, lsdb.entries)
      decreases toFlush
    {
      var key :| key in toFlush;
      FlushingStep(start, routerId, keep, toFlush, lsdb.entries, key);
      var lsa := Withdrawal(lsdb.entries[key].lsa);
      var _ := lsdb.Install(lsa);
      toFlush := toFlush - {key};
    }
    FlushingEnds(start, routerId, keep, lsdb.entries);
  }

  // ---------------------------------------------------------------- originating

  function Draft(entries: Entries, routerId: u32, rule: Rule, p: Prefix): Lsa
    requires rule.Active?
  {
    Lsa(LsaHeader(0, STANDARD_OPTIONS, AsExternal, p.address, routerId,
                  NextSequence(entries, KeyFor(routerId, p.address)), 0, 36),
        AsExternalBody(p.mask, rule.metricType2, rule.metric, 0, 0))
  }

  function OriginateOne(entries: Entries, routerId: u32, rule: Rule, p: Prefix): Entries
    requires rule.Active?
  {
    Installed(entries, routerId, Instance(entries, routerId, rule, p))
  }

  function OriginateAll(entries: Entries, routerId: u32, rule: Rule, kept: seq<Prefix>): Entries
    requires rule.Active?
  {
    if kept == [] then entries
    else OriginateOne(OriginateAll(entries, routerId, rule, kept[..|kept| - 1]), routerId, rule, kept[|kept| - 1])
  }

  /** The instance made for a prefix. */
  function Instance(entries: Entries, routerId: u32, rule: Rule, p: Prefix): Lsa
    requires rule.Active?
  {
    Refreshed(Draft(entries, routerId, rule, p))
  }

  /** The instances made for the kept prefixes, each numbered after what the earlier ones left. */
  function Instances(entries: Entries, routerId: u32, rule: Rule, kept: seq<Prefix>): (lsas: seq<Lsa>)
    requires rule.Active?
    ensures |lsas| == |kept|
  {
    if kept == [] then []
    else
      var front := kept[..|kept| - 1];
      Instances(entries, routerId, rule, front)
      + [Instance(OriginateAll(entries, routerId, rule, front), routerId, rule, kept[|kept| - 1])]
  }

  lemma OriginateOneEffect(entries: Entries, routerId: u32, rule: Rule, p: Prefix)
    requires Valid(entries) && rule.Active?
    ensures var after := OriginateOne(entries, routerId, rule, p);
            var key := KeyFor(routerId, p.address);
            && Valid(after) && key in after
            && (forall k :: k != key ==> (k in after <==> k in entries) && (k in entries ==> after[k] == entries[k]))
            && (key in entries && entries[key].lsa.header.lsSequenceNumber == MAX_SEQUENCE_NUMBER ==> after[key] == entries[key])
            && (key !in entries || entries[key].lsa.header.lsSequenceNumber < MAX_SEQUENCE_NUMBER ==>
                  && Live(after[key])
                  && (key in entries ==>
                        after[key].lsa.header.lsSequenceNumber == entries[key].lsa.header.lsSequenceNumber + 1))
  {
    hide Refreshed;
    RefreshedHeader(Draft(entries, routerId, rule, p));
  }

  ghost predicate Names(kept: seq<Prefix>, id: u32) {
    exists p :: p in kept && p.address == id
  }

  /** Stuck at the maximum: the next sequence number wraps and is refused. */
  predicate AtMaximum(entries: Entries, k: LsaKey) {
    k in entries && entries[k].lsa.header.lsSequenceNumber == MAX_SEQUENCE_NUMBER
  }

  /** What originating does to one kept id: live unless stuck at MaxAge, and a higher sequence number. */
  predicate Renewed(entries: Entries, key: LsaKey, after: Entries) {
    && key in after
    && (AtMaximum(entries, key) ==> after[key] == entries[key])
    && (!AtMaximum(entries, key) ==> Live(after[key]))
    && (key in entries && !AtMaximum(entries, key) ==>
          after[key].lsa.header.lsSequenceNumber > entries[key].lsa.header.lsSequenceNumber)
  }

  predicate SameAt(entries: Entries, k: LsaKey, after: Entries) {
    (k in after <==> k in entries) && (k in entries ==> after[k] == entries[k])
  }

  ghost predicate Originated(entries: Entries, routerId: u32, kept: seq<Prefix>, after: Entries) {
    && Valid(after)
    && (forall k: LsaKey :: SameAt(entries, k, after) || (k == KeyFor(routerId, k.linkStateId) && Names(kept, k.linkStateId)))
    && (forall id :: Names(kept, id) ==> Renewed(entries, KeyFor(routerId, id), after))
  }

  /** Originating once more, for the same key or another. */
  lemma RenewedAgain(entries: Entries, before: Entries, after: Entries, key: LsaKey)
    requires SameAt(entries, key, before) || Renewed(entries, key, before)
    requires Renewed(before, key, after)
    ensures Renewed(entries, key, after)
  {
  }

  lemma OriginateOneRenews(entries: Entries, routerId: u32, rule: Rule, p: Prefix)
    requires Valid(entries) && rule.Active?
    ensures var after := OriginateOne(entries, routerId, rule, p);
            && Valid(after) && Renewed(entries, KeyFor(routerId, p.address), after)
            && forall k :: k != KeyFor(routerId, p.address) ==> SameAt(entries, k, after)
  {
    hide OriginateOne;
    OriginateOneEffect(entries, routerId, rule, p);
  }

  lemma OriginatedStep(entries: Entries, before: Entries, after: Entries, routerId: u32, kept: seq<Prefix>, p: Prefix)
    requires Originated(entries, routerId, kept, before) && Valid(after)
    requires Renewed(before, KeyFor(routerId, p.address), after)
    requires forall k :: k != KeyFor(routerId, p.address) ==> SameAt(before, k, after)
    ensures Originated(entries, routerId, kept + [p], after)
  {
    hide Valid, Renewed, Names, SameAt;
    var key := KeyFor(routerId, p.address);
    forall id ensures Names(kept + [p], id) <==> Names(kept, id) || p.address == id {
      NamesSnoc(kept, p, id);
    }
    forall id | Names(kept + [p], id) ensures Renewed(entries, KeyFor(routerId, id), after) {
      if id == p.address {
        RenewedAgain(entries, before, after, key);
      } else {
        RenewedElsewhere(entries, before, after, KeyFor(routerId, id));
      }
    }
    forall k: LsaKey
      ensures SameAt(entries, k, after) || (k == KeyFor(routerId, k.linkStateId) && Names(kept + [p], k.linkStateId))
    {
      if k != key && SameAt(entries, k, before) {
        SameAtTransitive(entries, k, before, after);
      }
    }
  }

  lemma SameAtTransitive(entries: Entries, k: LsaKey, before: Entries, after: Entries)
    requires SameAt(entries, k, before) && SameAt(before, k, after)
    ensures SameAt(entries, k, after)
  {
  }

  lemma {:induction false} OriginateAllEffect(entries: Entries, routerId: u32, rule: Rule, kept: seq<Prefix>)
    requires Valid(entries) && rule.Active?
    ensures Originated(entries, routerId, kept, OriginateAll(entries, routerId, rule, kept))
  {
    hide *;
    if kept == [] {
      NothingOriginated(entries, routerId);
      assert OriginateAll(entries, routerId, rule, kept) == entries by { OriginateNone(entries, routerId, rule); }
    } else {
      var n := |kept| - 1;
      var before := OriginateAll(entries, routerId, rule, kept[..n]);
      OriginateAllUnfolds(entries, routerId, rule, kept);
      OriginateAllEffect(entries, routerId, rule, kept[..n]);
      OriginatedValid(entries, routerId, kept[..n], before);
      OriginateOneRenews(before, routerId, rule, kept[n]);
      OriginatedStep(entries, before, OriginateOne(before, routerId, rule, kept[n]), routerId, kept[..n], kept[n]);
      assert kept[..n] + [kept[n]] == kept;
    }
  }

  lemma OriginateNone(entries: Entries, routerId: u32, rule: Rule)
    requires rule.Active?
    ensures OriginateAll(entries, routerId, rule, []) == entries
  {
  }

  lemma OriginateAllUnfolds(entries: Entries, routerId: u32, rule: Rule, kept: seq<Prefix>)
    requires rule.Active? && kept != []
    ensures var n := |kept| - 1;
            OriginateAll(entries, routerId, rule, kept)
            == OriginateOne(OriginateAll(entries, routerId, rule, kept[..n]), routerId, rule, kept[n])
  {
    hide OriginateOne;
  }

  lemma OriginatedValid(entries: Entries, routerId: u32, kept: seq<Prefix>, after: Entries)
    requires Originated(entries, routerId, kept, after)
    ensures Valid(after)
  {
    hide Valid;
  }

  lemma NothingOriginated(entries: Entries, routerId: u32)
    requires Valid(entries)
    ensures Originated(entries, routerId, [], entries)
  {
    hide Valid, Renewed;
  }

  lemma RenewedElsewhere(entries: Entries, before: Entries, after: Entries, key: LsaKey)
    requires Renewed(entries, key, before) && SameAt(before, key, after)
    ensures Renewed(entries, key, after)
  {
  }

  lemma NamesSnoc(kept: seq<Prefix>, p: Prefix, id: u32)
    ensures Names(kept + [p], id) <==> Names(kept, id) || p.address == id
  {
    if Names(kept, id) {
      var q :| q in kept && q.address == id;
      assert q in kept + [p];
    }
    if p.address == id {
      assert p in kept + [p];
    }
  }

  // ---------------------------------------------------------------- reconciling

  /** `prefix_covered_by`: the address lies in the summary range. */
  predicate CoveredBy(address: u32, s: Summary) {
    if s.length == 0 then true
    else if s.length > 32 then false
    else address - address % Pow2(32 - s.length) == s.prefix - s.prefix % Pow2(32 - s.length)
  }

  predicate Keeps(rule: Rule, summaries: seq<Summary>, p: Prefix)
    requires rule.Active?
  {
    && (forall i :: 0 <= i < |summaries| ==> !CoveredBy(p.address, summaries[i]))
    && (rule.routeMap.Some? ==> p in rule.routeMap.value)
  }

  /** The prefixes left after summary suppression and the route-map. */
  function Kept(rule: Rule, summaries: seq<Summary>, externals: seq<Prefix>): seq<Prefix>
    requires rule.Active?
  {
    if externals == [] then []
    else
      var front := Kept(rule, summaries, externals[..|externals| - 1]);
      var last := externals[|externals| - 1];
      if Keeps(rule, summaries, last) then front + [last] else front
  }

  /** The ids managed elsewhere: summary aggregates and the default route. */
  function ManagedElsewhere(summaries: seq<Summary>): set<u32> {
    (set i | 0 <= i < |summaries| :: summaries[i].prefix) + {DEFAULT_ROUTE}
  }

  function KeepIds(kept: seq<Prefix>, summaries: seq<Summary>): set<u32> {
    (set i | 0 <= i < |kept| :: kept[i].address) + ManagedElsewhere(summaries)
  }

  ghost function Reconciled(entries: Entries, routerId: u32, rule: Rule, externals: seq<Prefix>, summaries: seq<Summary>): Entries
    requires Valid(entries)
  {
    if rule.NoRule? then Flushed(entries, routerId, {})
    else
      var kept := Kept(rule, summaries, externals);
      OriginateAll(Flushed(entries, routerId, KeepIds(kept, summaries)), routerId, rule, kept)
  }

  /** `originate_external_lsas`. */
  method OriginateExternalLsas(lsdb: Lsdb, rule: Rule, externals: seq<Prefix>, summaries: seq<Summary>)
    returns (originated: seq<Lsa>)
    requires Valid(lsdb.entries)
    modifies lsdb
    ensures lsdb.entries == Reconciled(old(lsdb.entries), lsdb.routerId, rule, externals, summaries)
    ensures originated == (if rule.NoRule? then [] else
              var kept := Kept(rule, summaries, externals);
              Instances(Flushed(old(lsdb.entries), lsdb.routerId, KeepIds(kept, summaries)), lsdb.routerId, rule, kept))
  {
    hide Flushed, Valid, OriginateAll, Instances;
    if rule.NoRule? {
      FlushSelfExternalsOutside(lsdb, {});
      return [];
    }
    var kept := FilterKept(rule, summaries, externals);
    FlushSelfExternalsOutside(lsdb, KeepIds(kept, summaries));
    originated := OriginateKept(lsdb, rule, kept);
  }

  /** The origination loop: encode, re-parse, install, and hand back for flooding. */
  method OriginateKept(lsdb: Lsdb, rule: Rule, kept: seq<Prefix>) returns (originated: seq<Lsa>)
    requires rule.Active?
    modifies lsdb
    ensures lsdb.entries == OriginateAll(old(lsdb.entries), lsdb.routerId, rule, kept)
    ensures originated == Instances(old(lsdb.entries), lsdb.routerId, rule, kept)
  {
    hide NextSequence, Refreshed, Installed;
    originated := [];
    for i := 0 to |kept|
      invariant lsdb.entries == OriginateAll(old(lsdb.entries), lsdb.routerId, rule, kept[..i])
      invariant originated == Instances(old(lsdb.entries), lsdb.routerId, rule, kept[..i])
    {
      assert kept[..i + 1][..i] == kept[..i];
      var lsa := Refreshed(Draft(lsdb.entries, lsdb.routerId, rule, kept[i]));
      var _ := lsdb.Install(lsa);
      originated := originated + [lsa];
    }
    assert kept[..|kept|] == kept;
  }

  /** No later prefix has the address of prefix `i`. */
  predicate LastOfItsAddress(kept: seq<Prefix>, i: nat)
    requires i < |kept|
  {
    forall j :: i < j < |kept| ==> kept[j].address != kept[i].address
  }

  /** A new instance for the prefix: age 0, the next sequence number and, with a metric that fits its
      24-bit field, the body that was asked for. */
  predicate Made(before: Entries, routerId: u32, rule: Rule, p: Prefix, lsa: Lsa)
    requires rule.Active?
  {
    && IsExternal(lsa) && lsa.Key() == LsaKey(AsExternal, p.address, routerId) && lsa.header.lsAge == 0 && lsa.header.options == 2
    && lsa.header.lsSequenceNumber == NextSequence(before, KeyFor(routerId, p.address))
    && (rule.metric < 0x100_0000 ==> lsa.body == AsExternalBody(p.mask, rule.metricType2, rule.metric, 0, 0))
  }

  /** The database holds this very instance, unless the number before it was the maximum. */
  predicate HeldUnlessStuck(before: Entries, key: LsaKey, after: Entries, lsa: Lsa) {
    key in after && (after[key].lsa == lsa <==> !AtMaximum(before, key))
  }

  /** The LSAs handed back for flooding: one new instance per kept prefix, and what is flooded last for
      an address is what the database holds. */
  lemma {:induction false} InstancesMeaning(entries: Entries, routerId: u32, rule: Rule, kept: seq<Prefix>, i: nat)
    requires Valid(entries) && rule.Active? && i < |kept|
    ensures var lsa := Instances(entries, routerId, rule, kept)[i];
            var before, after := OriginateAll(entries, routerId, rule, kept[..i]), OriginateAll(entries, routerId, rule, kept);
            && Made(before, routerId, rule, kept[i], lsa)
            && (LastOfItsAddress(kept, i) ==> HeldUnlessStuck(before, KeyFor(routerId, kept[i].address), after, lsa))
  {
    hide *;
    var n := |kept| - 1;
    var front := OriginateAll(entries, routerId, rule, kept[..n]);
    OriginateAllUnfolds(entries, routerId, rule, kept);
    InstancesUnfold(entries, routerId, rule, kept, i);
    LastAmongFront(routerId, kept, i);
    OriginateAllEffect(entries, routerId, rule, kept[..n]);
    OriginatedValid(entries, routerId, kept[..n], front);
    if i == n {
      InstanceInstalled(front, routerId, rule, kept[n]);
    } else {
      InstancesMeaning(entries, routerId, rule, kept[..n], i);
      assert kept[..n][..i] == kept[..i];
      if LastOfItsAddress(kept, i) {
        OriginateOneRenews(front, routerId, rule, kept[n]);
        StillHeld(OriginateAll(entries, routerId, rule, kept[..i]), KeyFor(routerId, kept[i].address), front,
                  OriginateOne(front, routerId, rule, kept[n]), Instances(entries, routerId, rule, kept)[i]);
      }
    }
  }

  lemma LastAmongFront(routerId: u32, kept: seq<Prefix>, i: nat)
    requires i < |kept|
    ensures var n := |kept| - 1;
            i < n && LastOfItsAddress(kept, i) ==>
              LastOfItsAddress(kept[..n], i) && KeyFor(routerId, kept[i].address) != KeyFor(routerId, kept[n].address)
  {
  }

  lemma InstancesUnfold(entries: Entries, routerId: u32, rule: Rule, kept: seq<Prefix>, i: nat)
    requires rule.Active? && i < |kept|
    ensures var n := |kept| - 1;
            Instances(entries, routerId, rule, kept)[i]
            == if i == n then Instance(OriginateAll(entries, routerId, rule, kept[..n]), routerId, rule, kept[n])
               else Instances(entries, routerId, rule, kept[..n])[i]
  {
    hide Instance, OriginateAll;
  }

  lemma StillHeld(before: Entries, key: LsaKey, middle: Entries, after: Entries, lsa: Lsa)
    requires HeldUnlessStuck(before, key, middle, lsa) && SameAt(middle, key, after)
    ensures HeldUnlessStuck(before, key, after, lsa)
  {
  }

  lemma InstanceInstalled(entries: Entries, routerId: u32, rule: Rule, p: Prefix)
    requires Valid(entries) && rule.Active?
    ensures var lsa := Instance(entries, routerId, rule, p);
            && Made(entries, routerId, rule, p, lsa)
            && HeldUnlessStuck(entries, KeyFor(routerId, p.address), OriginateOne(entries, routerId, rule, p), lsa)
  {
    hide Refreshed;
    var draft := Draft(entries, routerId, rule, p);
    RefreshedHeader(draft);
    if rule.metric < 0x100_0000 {
      RefreshedBody(draft);
    }
  }

  lemma RefreshedBody(l: Lsa)
    requires IsExternal(l) && l.body.metric < 0x100_0000
    ensures Refreshed(l).body == l.body
  {
    ReparseSucceeds(l);
    LsaCodec.ParseEncodedLsa(l, []);
    assert LsaCodec.EncodeLsa(l) + [] == LsaCodec.EncodeLsa(l);
    hide LsaCodec.ParseLsa, LsaCodec.EncodeLsa, LsaCodec.LsaChecksum, LsaCodec.EncodeBody;
  }

  method FilterKept(rule: Rule, summaries: seq<Summary>, externals: seq<Prefix>) returns (kept: seq<Prefix>)
    requires rule.Active?
    ensures kept == Kept(rule, summaries, externals)
    ensures forall p :: p in kept <==> p in externals && Permitted(rule, summaries, p)
  {
    hide Permitted;
    kept := [];
    for i := 0 to |externals|
      invariant kept == Kept(rule, summaries, externals[..i])
    {
      assert externals[..i + 1][..i] == externals[..i];
      if Keeps(rule, summaries, externals[i]) {
        kept := kept + [externals[i]];
      }
    }
    assert externals[..|externals|] == externals;
    forall p ensures p in kept <==> p in externals && Permitted(rule, summaries, p) {
      KeptMember(rule, summaries, externals, p);
    }
  }

  /** The leading bits of the address are those of the summary prefix. */
  ghost predicate InRange(address: u32, s: Summary) {
    s.length == 0 || (s.length <= 32 && address / Pow2(32 - s.length) == s.prefix / Pow2(32 - s.length))
  }

  /** Outside every summary range, and in the permitted set if there is a route-map. */
  ghost predicate Permitted(rule: Rule, summaries: seq<Summary>, p: Prefix)
    requires rule.Active?
  {
    && (forall s :: s in summaries ==> !InRange(p.address, s))
    && (rule.routeMap == None || (rule.routeMap.Some? && p in rule.routeMap.value))
  }

  lemma CoveredMeans(address: u32, s: Summary)
    ensures CoveredBy(address, s) <==> InRange(address, s)
  {
    hide Pow2;
    if 0 < s.length <= 32 {
      SameQuotient(address, s.prefix, Pow2(32 - s.length));
    }
  }

  lemma KeepsMeans(rule: Rule, summaries: seq<Summary>, p: Prefix)
    requires rule.Active?
    ensures Keeps(rule, summaries, p) <==> Permitted(rule, summaries, p)
  {
    hide CoveredBy, InRange;
    forall i | 0 <= i < |summaries| ensures CoveredBy(p.address, summaries[i]) <==> InRange(p.address, summaries[i]) {
      CoveredMeans(p.address, summaries[i]);
    }
    if exists s :: s in summaries && InRange(p.address, s) {
      var s :| s in summaries && InRange(p.address, s);
      var i :| 0 <= i < |summaries| && summaries[i] == s;
      assert CoveredBy(p.address, summaries[i]);
    }
  }

  /** Prefix by prefix: a permitted one is kept, at its place, and any other is not. */
  lemma KeptSnoc(rule: Rule, summaries: seq<Summary>, externals: seq<Prefix>, p: Prefix)
    requires rule.Active?
    ensures Kept(rule, summaries, []) == []
    ensures Kept(rule, summaries, externals + [p])
         == Kept(rule, summaries, externals) + (if Permitted(rule, summaries, p) then [p] else [])
  {
    hide Keeps, Permitted;
    KeepsMeans(rule, summaries, p);
    assert (externals + [p])[..|externals|] == externals;
  }

  lemma {:induction false} KeptMember(rule: Rule, summaries: seq<Summary>, externals: seq<Prefix>, p: Prefix)
    requires rule.Active?
    ensures p in Kept(rule, summaries, externals) <==> p in externals && Permitted(rule, summaries, p)
  {
    hide Permitted;
    if externals != [] {
      var n := |externals| - 1;
      KeptMember(rule, summaries, externals[..n], p);
      KeptSnoc(rule, summaries, externals[..n], externals[n]);
      assert externals[..n] + [externals[n]] == externals;
    }
  }

  /** The ids that should be advertised: those of the permitted prefixes, and of the default route and the summaries where
      they are advertised already. */
  lemma ExpectedMeans(entries: Entries, routerId: u32, rule: Rule, externals: seq<Prefix>, summaries: seq<Summary>, id: u32)
    requires rule.Active?
    ensures id in Expected(entries, routerId, rule, externals, summaries) <==>
              || (exists p :: p in externals && Permitted(rule, summaries, p) && p.address == id)
              || (id in LiveSelf(entries, routerId) && (id == 0 || exists s :: s in summaries && s.prefix == id))
  {
    hide Permitted, LiveSelf, Kept;
    var kept := Kept(rule, summaries, externals);
    NamesAddresses(kept, id);
    ManagedMeans(summaries, id);
    hide ManagedElsewhere;
    if Names(kept, id) {
      var p :| p in kept && p.address == id;
      KeptMember(rule, summaries, externals, p);
    }
    if p :| p in externals && Permitted(rule, summaries, p) && p.address == id {
      KeptMember(rule, summaries, externals, p);
    }
  }

  lemma ManagedMeans(summaries: seq<Summary>, id: u32)
    ensures id in ManagedElsewhere(summaries) <==> id == 0 || exists s :: s in summaries && s.prefix == id
  {
    if s :| s in summaries && s.prefix == id {
      var i :| 0 <= i < |summaries| && summaries[i] == s;
    }
  }

  /** The effect of flushing, key by key. */
  lemma FlushedEffect(entries: Entries, routerId: u32, keep: set<u32>, k: LsaKey)
    requires Valid(entries)
    ensures var after := Flushed(entries, routerId, keep);
            && (k in after <==> k in entries)
            && (k in entries && !Withdrawn(entries, routerId, keep, k) ==> after[k] == entries[k])
            && (k in entries && Withdrawn(entries, routerId, keep, k) ==>
                  if AtMaximum(entries, k) then after[k] == entries[k] else Succeeds(after[k].lsa, entries[k].lsa))
  {
    hide FlushOne;
    if k in entries {
      FlushOneEffect(entries, routerId, k);
    }
  }

  lemma FlushedValid(entries: Entries, routerId: u32, keep: set<u32>)
    requires Valid(entries)
    ensures Valid(Flushed(entries, routerId, keep))
  {
    hide FlushOne;
    var after := Flushed(entries, routerId, keep);
    forall k | k in after ensures after[k].lsa.Key() == k && IsExternal(after[k].lsa) {
      FlushOneEffect(entries, routerId, k);
      var one := FlushOne(entries, routerId, k);
      assert k in one && one[k].lsa.Key() == k && IsExternal(one[k].lsa);
    }
  }

  /** An id that one call cannot bring to its right state: to be withdrawn, or to be brought back from
      MaxAge, but already at the maximum sequence number. */
  predicate Stuck(entries: Entries, key: LsaKey, kept: bool, keep: bool) {
    AtMaximum(entries, key) && if Live(entries[key]) then !keep else kept
  }

  /** What one call does to one of our ids. */
  lemma ReconciledAt(entries: Entries, routerId: u32, rule: Rule, externals: seq<Prefix>, summaries: seq<Summary>, id: u32)
    requires Valid(entries) && rule.Active?
    ensures var after := Reconciled(entries, routerId, rule, externals, summaries);
            var kept := Kept(rule, summaries, externals);
            var key := KeyFor(routerId, id);
            var isKept, isKeep := Names(kept, id), id in KeepIds(kept, summaries);
            var shouldBeLive := isKept || (id in ManagedElsewhere(summaries) && key in entries && Live(entries[key]));
            && ((key in after && Live(after[key])) == shouldBeLive <==> !Stuck(entries, key, isKept, isKeep))
            && (key in entries && Live(entries[key]) && !isKeep && !AtMaximum(entries, key) ==>
                  key in after && Succeeds(after[key].lsa, entries[key].lsa))
  {
    hide Valid, OriginateAll, Flushed;
    var kept := Kept(rule, summaries, externals);
    var keep := KeepIds(kept, summaries);
    var key := KeyFor(routerId, id);
    FlushedEffect(entries, routerId, keep, key);
    FlushedValid(entries, routerId, keep);
    OriginateAllEffect(Flushed(entries, routerId, keep), routerId, rule, kept);
    NamesKeepIds(kept, summaries, id);
    hide Names, KeepIds, ManagedElsewhere, Kept;
  }

  lemma NamesKeepIds(kept: seq<Prefix>, summaries: seq<Summary>, id: u32)
    ensures id in KeepIds(kept, summaries) <==> Names(kept, id) || id in ManagedElsewhere(summaries)
  {
    if p :| p in kept && p.address == id {
      var i :| 0 <= i < |kept| && kept[i] == p;
    }
  }

  lemma ReconciledValid(entries: Entries, routerId: u32, rule: Rule, externals: seq<Prefix>, summaries: seq<Summary>)
    requires Valid(entries)
    ensures Valid(Reconciled(entries, routerId, rule, externals, summaries))
  {
    hide Valid, OriginateAll, Flushed;
    if rule.NoRule? {
      FlushedValid(entries, routerId, {});
    } else {
      var kept := Kept(rule, summaries, externals);
      FlushedValid(entries, routerId, KeepIds(kept, summaries));
      OriginateAllEffect(Flushed(entries, routerId, KeepIds(kept, summaries)), routerId, rule, kept);
    }
  }

  lemma LiveSelfMember(entries: Entries, routerId: u32, id: u32)
    requires Valid(entries)
    ensures id in LiveSelf(entries, routerId) <==> KeyFor(routerId, id) in entries && Live(entries[KeyFor(routerId, id)])
  {
    if id in LiveSelf(entries, routerId) {
      var k :| k in entries && k.advertisingRouter == routerId && Live(entries[k]) && k.linkStateId == id;
      assert entries[k].lsa.Key() == k;
      assert k == KeyFor(routerId, id);
    }
  }

  /** The ids that should be live after a call with an active rule. */
  ghost function Expected(entries: Entries, routerId: u32, rule: Rule, externals: seq<Prefix>, summaries: seq<Summary>): set<u32>
    requires rule.Active?
  {
    var kept := Kept(rule, summaries, externals);
    (set i | 0 <= i < |kept| :: kept[i].address) + (ManagedElsewhere(summaries) * LiveSelf(entries, routerId))
  }

  /** Some id of ours cannot be brought to its right state. */
  ghost predicate AnyStuck(entries: Entries, routerId: u32, kept: seq<Prefix>, summaries: seq<Summary>) {
    exists id: u32 :: Stuck(entries, KeyFor(routerId, id), Names(kept, id), id in KeepIds(kept, summaries))
  }

  /**
   Type 5 reconciliation. After a call with an active rule the ids we advertise are exactly the kept
   prefixes and those summary and default ids that were live before, if and only if no LSA it has to
   withdraw or revive sits at the maximum sequence number.
   */
  lemma ReconciliationExact(entries: Entries, routerId: u32, rule: Rule, externals: seq<Prefix>, summaries: seq<Summary>)
    requires Valid(entries) && rule.Active?
    ensures LiveSelf(Reconciled(entries, routerId, rule, externals, summaries), routerId)
            == Expected(entries, routerId, rule, externals, summaries)
            <==> !AnyStuck(entries, routerId, Kept(rule, summaries, externals), summaries)
  {
    var after := Reconciled(entries, routerId, rule, externals, summaries);
    var expected := Expected(entries, routerId, rule, externals, summaries);
    var kept := Kept(rule, summaries, externals);
    ReconciledValid(entries, routerId, rule, externals, summaries);
    forall id: u32
      ensures (id in LiveSelf(after, routerId) <==> id in expected)
              <==> !Stuck(entries, KeyFor(routerId, id), Names(kept, id), id in KeepIds(kept, summaries))
    {
      ReconciledAt(entries, routerId, rule, externals, summaries, id);
      LiveSelfMember(after, routerId, id);
      LiveSelfMember(entries, routerId, id);
      NamesAddresses(kept, id);
    }
  }

  lemma NamesAddresses(kept: seq<Prefix>, id: u32)
    ensures Names(kept, id) <==> id in set i | 0 <= i < |kept| :: kept[i].address
  {
    if p :| p in kept && p.address == id {
      var i :| 0 <= i < |kept| && kept[i] == p;
    }
  }

  /** Without a rule everything of ours is withdrawn, except what sits at the maximum. */
  lemma WithdrawalExact(entries: Entries, routerId: u32, externals: seq<Prefix>, summaries: seq<Summary>)
    requires Valid(entries)
    ensures var after := Reconciled(entries, routerId, NoRule, externals, summaries);
            forall id :: id in LiveSelf(after, routerId) <==>
                           id in LiveSelf(entries, routerId) && AtMaximum(entries, KeyFor(routerId, id))
  {
    hide Flushed, Valid;
    var after := Reconciled(entries, routerId, NoRule, externals, summaries);
    FlushedValid(entries, routerId, {});
    forall id: u32
      ensures id in LiveSelf(after, routerId) <==> id in LiveSelf(entries, routerId) && AtMaximum(entries, KeyFor(routerId, id))
    {
      FlushedEffect(entries, routerId, {}, KeyFor(routerId, id));
      LiveSelfMember(after, routerId, id);
      LiveSelfMember(entries, routerId, id);
    }
  }

  /** LSAs of other routers and other types are left alone by every call. */
  lemma OthersUntouched(entries: Entries, routerId: u32, rule: Rule, externals: seq<Prefix>, summaries: seq<Summary>, k: LsaKey)
    requires Valid(entries) && k.advertisingRouter != routerId
    ensures SameAt(entries, k, Reconciled(entries, routerId, rule, externals, summaries))
  {
    hide Flushed, Valid, OriginateAll;
    if rule.NoRule? {
      FlushedEffect(entries, routerId, {}, k);
    } else {
      var kept := Kept(rule, summaries, externals);
      var keep := KeepIds(kept, summaries);
      FlushedEffect(entries, routerId, keep, k);
      FlushedValid(entries, routerId, keep);
      OriginateAllEffect(Flushed(entries, routerId, keep), routerId, rule, kept);
    }
  }

  // ---------------------------------------------------------------- any sequence of calls

  /** A Type 5 LSA received from a neighbor, or a call with the configuration of the moment. */
  datatype Event = Received(lsa: Lsa) | Call(rule: Rule, externals: seq<Prefix>, summaries: seq<Summary>)

  ghost predicate IsRun(routerId: u32, events: seq<Event>, run: seq<Entries>) {
    && |run| == |events| + 1 && run[0] == map[]
    && (forall i :: 0 <= i < |events| ==> IsStep(routerId, events[i], run[i], run[i + 1]))
  }

  ghost predicate IsStep(routerId: u32, ev: Event, before: Entries, after: Entries) {
    match ev
    case Received(lsa) => IsExternal(lsa) && after == Installed(before, routerId, lsa)
    case Call(rule, externals, summaries) => Valid(before) ==> after == Reconciled(before, routerId, rule, externals, summaries)
  }

  lemma ReceivedValid(entries: Entries, routerId: u32, lsa: Lsa)
    requires Valid(entries) && IsExternal(lsa)
    ensures Valid(Installed(entries, routerId, lsa))
  {
  }

  /** The database holds nothing but Type 5 LSAs under their own keys throughout every run. */
  lemma {:induction false} RunValid(routerId: u32, events: seq<Event>, run: seq<Entries>, i: nat)
    requires IsRun(routerId, events, run) && i <= |events|
    ensures Valid(run[i])
  {
    if i > 0 {
      hide Valid, Reconciled, Installed;
      RunValid(routerId, events, run, i - 1);
      assert IsStep(routerId, events[i - 1], run[i - 1], run[i - 1 + 1]);
      match events[i - 1]
      case Received(lsa) => ReceivedValid(run[i - 1], routerId, lsa);
      case Call(rule, externals, summaries) => ReconciledValid(run[i - 1], routerId, rule, externals, summaries);
    }
  }

  /** Held at MaxAge with the next sequence number. */
  predicate WithdrawnAt(before: Entries, key: LsaKey, after: Entries)
    requires key in before && IsExternal(before[key].lsa)
  {
    key in after && Succeeds(after[key].lsa, before[key].lsa)
  }

  /** Ids we advertised and no longer should are withdrawn properly unless at the maximum. */
  ghost predicate WithdrawsAll(before: Entries, routerId: u32, keep: set<u32>, after: Entries) {
    forall id :: id in LiveSelf(before, routerId) && id !in keep ==>
      KeyFor(routerId, id) in before && IsExternal(before[KeyFor(routerId, id)].lsa)
      && (WithdrawnAt(before, KeyFor(routerId, id), after) <==> !AtMaximum(before, KeyFor(routerId, id)))
  }

  lemma ReconciledWithdraws(entries: Entries, routerId: u32, rule: Rule, externals: seq<Prefix>, summaries: seq<Summary>)
    requires Valid(entries) && rule.Active?
    ensures WithdrawsAll(entries, routerId, KeepIds(Kept(rule, summaries, externals), summaries),
                         Reconciled(entries, routerId, rule, externals, summaries))
  {
    hide Valid, Kept, KeepIds, Reconciled, LiveSelf;
    var kept := Kept(rule, summaries, externals);
    forall id | id in LiveSelf(entries, routerId) && id !in KeepIds(kept, summaries)
      ensures var key := KeyFor(routerId, id);
              && key in entries && IsExternal(entries[key].lsa)
              && (WithdrawnAt(entries, key, Reconciled(entries, routerId, rule, externals, summaries)) <==> !AtMaximum(entries, key))
    {
      LiveSelfMember(entries, routerId, id);
      HeldIsExternal(entries, KeyFor(routerId, id));
      ReconciledAt(entries, routerId, rule, externals, summaries, id);
      NamesKeepIds(kept, summaries, id);
      if AtMaximum(entries, KeyFor(routerId, id)) {
        StuckStays(entries, routerId, rule, externals, summaries, id);
      }
    }
  }

  lemma HeldIsExternal(entries: Entries, k: LsaKey)
    requires Valid(entries) && k in entries
    ensures IsExternal(entries[k].lsa)
  {
  }

  /** An LSA that has to go but is at the maximum stays as it is. */
  lemma StuckStays(entries: Entries, routerId: u32, rule: Rule, externals: seq<Prefix>, summaries: seq<Summary>, id: u32)
    requires Valid(entries) && rule.Active? && AtMaximum(entries, KeyFor(routerId, id))
    requires id !in KeepIds(Kept(rule, summaries, externals), summaries)
    ensures SameAt(entries, KeyFor(routerId, id), Reconciled(entries, routerId, rule, externals, summaries))
  {
    hide Valid, OriginateAll, Flushed;
    var kept := Kept(rule, summaries, externals);
    var keep := KeepIds(kept, summaries);
    FlushedEffect(entries, routerId, keep, KeyFor(routerId, id));
    FlushedValid(entries, routerId, keep);
    OriginateAllEffect(Flushed(entries, routerId, keep), routerId, rule, kept);
    NamesKeepIds(kept, summaries, id);
    hide Names, KeepIds, ManagedElsewhere, Kept;
  }

  /**
   Over any run: the database stays valid; each call with an active rule leaves exactly the right ids
   live if and only if nothing is stuck; and what it withdraws ends at MaxAge with a higher sequence
   number if and only if it was below the maximum.
   */
  lemma EveryCallReconciles(routerId: u32, events: seq<Event>, run: seq<Entries>, i: nat)
    requires IsRun(routerId, events, run) && i < |events| && events[i].Call? && events[i].rule.Active?
    ensures Valid(run[i]) && Valid(run[i + 1])
    ensures var Call(rule, externals, summaries) := events[i];
            var kept := Kept(rule, summaries, externals);
            && (LiveSelf(run[i + 1], routerId) == Expected(run[i], routerId, rule, externals, summaries)
                <==> !AnyStuck(run[i], routerId, kept, summaries))
            && WithdrawsAll(run[i], routerId, KeepIds(kept, summaries), run[i + 1])
  {
    RunValid(routerId, events, run, i);
    RunValid(routerId, events, run, i + 1);
    hide Valid, Kept, KeepIds, Reconciled, LiveSelf, Expected, AnyStuck, WithdrawsAll;
    assert IsStep(routerId, events[i], run[i], run[i + 1]);
    var Call(rule, externals, summaries) := events[i];
    ReconciliationExact(run[i], routerId, rule, externals, summaries);
    ReconciledWithdraws(run[i], routerId, rule, externals, summaries);
  }

  /** The condition does fail: once a neighbor has sent us our own live LSA at the maximum, a call that
      does not keep its id leaves it advertised. */
  lemma StuckRun(routerId: u32, lsa: Lsa, rule: Rule, externals: seq<Prefix>, summaries: seq<Summary>)
    requires IsExternal(lsa) && lsa.header.advertisingRouter == routerId
    requires lsa.header.lsAge < MAX_AGE && lsa.header.lsSequenceNumber == MAX_SEQUENCE_NUMBER
    requires rule.Active? && lsa.header.linkStateId !in KeepIds(Kept(rule, summaries, externals), summaries)
    ensures exists run :: IsRun(routerId, [Received(lsa), Call(rule, externals, summaries)], run)
              && lsa.header.linkStateId in LiveSelf(run[2], routerId)
              && lsa.header.linkStateId !in Expected(run[1], routerId, rule, externals, summaries)
  {
    hide Kept, KeepIds, Reconciled, Expected, Valid, Installed, LiveSelf, Live, AtMaximum;
    var id := lsa.header.linkStateId;
    var one := Installed(map[], routerId, lsa);
    FirstReceived(routerId, lsa);
    var two := Reconciled(one, routerId, rule, externals, summaries);
    StuckStays(one, routerId, rule, externals, summaries, id);
    ReconciledValid(one, routerId, rule, externals, summaries);
    LiveSelfMember(two, routerId, id);
    if id in Expected(one, routerId, rule, externals, summaries) {
      ExpectedKept(one, routerId, rule, externals, summaries, id);
    }
    var events := [Received(lsa), Call(rule, externals, summaries)];
    assert IsStep(routerId, events[0], map[], one) && IsStep(routerId, events[1], one, two);
    assert IsRun(routerId, events, [map[], one, two]);
  }

  lemma FirstReceived(routerId: u32, lsa: Lsa)
    requires IsExternal(lsa) && lsa.header.advertisingRouter == routerId
    requires lsa.header.lsAge < MAX_AGE && lsa.header.lsSequenceNumber == MAX_SEQUENCE_NUMBER
    ensures var entries := Installed(map[], routerId, lsa);
            var key := KeyFor(routerId, lsa.header.linkStateId);
            Valid(entries) && AtMaximum(entries, key) && Live(entries[key])
  {
    assert Installed(map[], routerId, lsa) == map[lsa.Key() := LsdbEntry(lsa, true)];
  }

  lemma ExpectedKept(entries: Entries, routerId: u32, rule: Rule, externals: seq<Prefix>, summaries: seq<Summary>, id: u32)
    requires rule.Active? && id in Expected(entries, routerId, rule, externals, summaries)
    ensures id in KeepIds(Kept(rule, summaries, externals), summaries)
  {
  }
}

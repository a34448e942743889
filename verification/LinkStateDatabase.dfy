/** The OSPFv2 link-state database of src/lsdb.rs, without elapsed time. */
module LinkStateDatabase {
  import opened Numbers
  import opened LsaTypes
  import LsaCodec

  datatype LsdbEntry = LsdbEntry(lsa: Lsa, selfOriginated: bool)

  datatype InstallResult = New | Updated | Duplicate | Older {
    predicate Changed() {
      New? || Updated?
    }
  }

  type Entries = map<LsaKey, LsdbEntry>

  /** Every LSA is stored under its own key. */
  ghost predicate WellKeyed(entries: Entries) {
    forall k :: k in entries ==> entries[k].lsa.Key() == k
  }

  function Verdict(entries: Entries, lsa: Lsa): InstallResult {
    if lsa.Key() in entries then
      match IsMoreRecentThan(lsa.header, entries[lsa.Key()].lsa.header)
      case Greater => Updated
      case Equal => Duplicate
      case Less => Older
    else New
  }

  function Installed(entries: Entries, routerId: u32, lsa: Lsa): Entries {
    if Verdict(entries, lsa).Changed() then
      entries[lsa.Key() := LsdbEntry(lsa, lsa.header.advertisingRouter == routerId)]
    else entries
  }

  function Bumped(entries: Entries, key: LsaKey, newSeq: i32): Entries {
    if key in entries && entries[key].lsa.header.lsSequenceNumber < newSeq then
      var e := entries[key];
      entries[key := e.(lsa := e.lsa.(header := e.lsa.header.(lsSequenceNumber := newSeq)))]
    else entries
  }

  /** The sequence number of the next instance of an LSA we originate. */
  function NextSequence(entries: Entries, key: LsaKey): i32 {
    if key in entries then WrapI32(entries[key].lsa.header.lsSequenceNumber + 1) else INITIAL_SEQUENCE_NUMBER
  }

  function RouterKey(routerId: u32): LsaKey {
    LsaKey(Router, routerId, routerId)
  }

  /** The Router-LSA as first built, before its checksum is known. */
  function RouterLsaDraft(entries: Entries, routerId: u32, flags: u8, links: seq<RouterLink>, options: u8): Lsa {
    Lsa(LsaHeader(0, options, Router, routerId, routerId, NextSequence(entries, RouterKey(routerId)), 0,
                  (LSA_HEADER_LEN + |LsaCodec.EncodeBody(RouterBody(flags, links))|) % 0x1_0000),
        RouterBody(flags, links))
  }

  class Lsdb {
    var entries: Entries
    const routerId: u32

    constructor (routerId: u32)
      ensures entries == map[] && this.routerId == routerId
    {
      this.entries := map[];
      this.routerId := routerId;
    }

    method Install(lsa: Lsa) returns (r: InstallResult)
      modifies this
      ensures entries == Installed(old(entries), routerId, lsa)
      ensures r == Verdict(old(entries), lsa)
    {
      var key := lsa.Key();
      var selfOriginated := lsa.header.advertisingRouter == routerId;
      if key in entries {
        match IsMoreRecentThan(lsa.header, entries[key].lsa.header)
        case Greater =>
          entries := entries[key := LsdbEntry(lsa, selfOriginated)];
          return Updated;
        case Equal => return Duplicate;
        case Less => return Older;
      } else {
        entries := entries[key := LsdbEntry(lsa, selfOriginated)];
        return New;
      }
    }

    method BumpSeq(key: LsaKey, newSeq: i32) returns (bumped: bool)
      modifies this
      ensures entries == Bumped(old(entries), key, newSeq)
      ensures bumped <==> key in old(entries) && old(entries)[key].lsa.header.lsSequenceNumber < newSeq
    {
      if key in entries {
        var existing := entries[key];
        if existing.lsa.header.lsSequenceNumber < newSeq {
          var header := existing.lsa.header.(lsSequenceNumber := newSeq);
          entries := entries[key := existing.(lsa := existing.lsa.(header := header))];
          return true;
        }
      }
      return false;
    }

    /** Encode, re-parse to pick up length and checksum, install, and hand back for flooding. The source
        panics when its own bytes do not parse, which takes links that announce TOS entries. */
    method OriginateRouterLsa(flags: u8, links: seq<RouterLink>, options: u8) returns (lsa: Lsa)
      requires var draft := RouterLsaDraft(entries, routerId, flags, links, options);
               LsaCodec.EncodedFits(draft) && LsaCodec.ParseLsa(LsaCodec.EncodeLsa(draft)).Ok?
      modifies this
      ensures var draft := RouterLsaDraft(old(entries), routerId, flags, links, options);
              && LsaCodec.ParseLsa(LsaCodec.EncodeLsa(draft)) == LsaCodec.Ok(lsa)
              && lsa.header == LsaCodec.Corrected(draft).header
              && (LsaCodec.Encodable(draft) ==> lsa == LsaCodec.Corrected(draft))
      ensures entries == Installed(old(entries), routerId, lsa)
      ensures var h := lsa.header;
              && h.lsAge == 0 && h.options == options && h.lsType == Router
              && h.linkStateId == routerId && h.advertisingRouter == routerId
              && (h.Key() !in old(entries) ==> h.lsSequenceNumber == -0x7FFF_FFFF)
              && (h.Key() in old(entries) && old(entries)[h.Key()].lsa.header.lsSequenceNumber < 0x7FFF_FFFF ==>
                    h.lsSequenceNumber == old(entries)[h.Key()].lsa.header.lsSequenceNumber + 1)
      ensures (forall l :: l in links ==> l.numTos == 0) ==> lsa.body == RouterBody(flags, links)
    {
      hide RouterLsaDraft, LsaCodec.ParseLsa, LsaCodec.EncodeLsa, LsaCodec.Corrected, LsaCodec.EncodedFits, LsaCodec.Encodable;
      var draft := RouterLsaDraft(entries, routerId, flags, links, options);
      RouterLsaReparsed(entries, routerId, flags, links, options);
      var encoded := LsaCodec.EncodeLsaBuffer(draft);
      lsa := LsaCodec.ParseLsa(encoded).Extract();
      var _ := Install(lsa);
    }
  }

  lemma RouterLsaReparsed(entries: Entries, routerId: u32, flags: u8, links: seq<RouterLink>, options: u8)
    requires var draft := RouterLsaDraft(entries, routerId, flags, links, options);
             LsaCodec.EncodedFits(draft) && LsaCodec.ParseLsa(LsaCodec.EncodeLsa(draft)).Ok?
    ensures var draft := RouterLsaDraft(entries, routerId, flags, links, options);
            var lsa := LsaCodec.ParseLsa(LsaCodec.EncodeLsa(draft)).value;
            var h := lsa.header;
            && h == LsaCodec.Corrected(draft).header
            && (LsaCodec.Encodable(draft) ==> lsa == LsaCodec.Corrected(draft))
            && h.lsAge == 0 && h.options == options && h.lsType == Router
            && h.linkStateId == routerId && h.advertisingRouter == routerId
            && (h.Key() !in entries ==> h.lsSequenceNumber == -0x7FFF_FFFF)
            && (h.Key() in entries && entries[h.Key()].lsa.header.lsSequenceNumber < 0x7FFF_FFFF ==>
                  h.lsSequenceNumber == entries[h.Key()].lsa.header.lsSequenceNumber + 1)
            && ((forall l :: l in links ==> l.numTos == 0) ==> lsa.body == RouterBody(flags, links))
  {
    hide LsaCodec.ParseLsa, LsaCodec.EncodeLsa, LsaCodec.EncodedFits, LsaCodec.EncodableBody, LsaCodec.LsaChecksum,
      LsaCodec.WireLength;
    var draft := RouterLsaDraft(entries, routerId, flags, links, options);
    LsaCodec.ParsedHeader(draft);
    if forall l :: l in links ==> l.numTos == 0 {
      LsaCodec.PlainLinksEncodable(draft);
    }
    if LsaCodec.Encodable(draft) {
      LsaCodec.ParseEncodedLsa(draft, []);
      assert LsaCodec.EncodeLsa(draft) + [] == LsaCodec.EncodeLsa(draft);
    }
  }

  // ---------------------------------------------------------------- properties

  /** What the database holds for a key never goes down in rank, and covers what was offered. */
  lemma InstallMonotone(entries: Entries, routerId: u32, lsa: Lsa)
    requires WellKeyed(entries)
    ensures WellKeyed(Installed(entries, routerId, lsa))
    ensures var after := Installed(entries, routerId, lsa);
            && lsa.Key() in after && AtLeast(after[lsa.Key()].lsa.header, lsa.header)
            && (forall k :: k in entries ==> k in after && AtLeast(after[k].lsa.header, entries[k].lsa.header))
  {
  }

  function InstallAll(entries: Entries, routerId: u32, lsas: seq<Lsa>): Entries {
    if lsas == [] then entries
    else Installed(InstallAll(entries, routerId, lsas[..|lsas| - 1]), routerId, lsas[|lsas| - 1])
  }

  lemma {:induction false} InstallAllMonotone(entries: Entries, routerId: u32, lsas: seq<Lsa>)
    requires WellKeyed(entries)
    ensures var after := InstallAll(entries, routerId, lsas);
            && WellKeyed(after)
            && (forall k :: k in entries ==> k in after && AtLeast(after[k].lsa.header, entries[k].lsa.header))
  {
    if lsas != [] {
      var n := |lsas| - 1;
      InstallAllMonotone(entries, routerId, lsas[..n]);
      InstallMonotone(InstallAll(entries, routerId, lsas[..n]), routerId, lsas[n]);
    }
  }

  /** The self-LSA recovery of `process_dd` in src/instance.rs, on one database: every listed header
      of our own that we hold lifts our sequence number to the listed one. */
  function Recovered(entries: Entries, routerId: u32, listed: seq<LsaHeader>): Entries {
    if listed == [] then entries
    else
      var before := Recovered(entries, routerId, listed[..|listed| - 1]);
      var h := listed[|listed| - 1];
      if h.advertisingRouter == routerId then Bumped(before, h.Key(), h.lsSequenceNumber) else before
  }

  lemma {:induction false} RecoveredCovers(entries: Entries, routerId: u32, listed: seq<LsaHeader>)
    requires WellKeyed(entries)
    ensures var after := Recovered(entries, routerId, listed);
            && WellKeyed(after) && after.Keys == entries.Keys
            && (forall k :: k in entries ==>
                  after[k].lsa.header.lsSequenceNumber >= entries[k].lsa.header.lsSequenceNumber)
            && (forall i :: 0 <= i < |listed| && listed[i].advertisingRouter == routerId && listed[i].Key() in entries ==>
                  after[listed[i].Key()].lsa.header.lsSequenceNumber >= listed[i].lsSequenceNumber)
  {
    if listed != [] {
      RecoveredCovers(entries, routerId, listed[..|listed| - 1]);
    }
  }

  lemma {:induction false} RecoveredRises(entries: Entries, routerId: u32, listed: seq<LsaHeader>, k: LsaKey)
    requires k in entries
    ensures var after := Recovered(entries, routerId, listed);
            k in after && after[k].lsa.header.lsSequenceNumber >= entries[k].lsa.header.lsSequenceNumber
  {
    if listed != [] {
      RecoveredRises(entries, routerId, listed[..|listed| - 1], k);
    }
  }

  lemma {:induction false} RecoveredKeys(entries: Entries, routerId: u32, listed: seq<LsaHeader>)
    ensures Recovered(entries, routerId, listed).Keys == entries.Keys
  {
    if listed != [] {
      RecoveredKeys(entries, routerId, listed[..|listed| - 1]);
    }
  }

  /** Each held LSA has its own or the highest listed sequence number, and is otherwise as before. */
  ghost predicate LiftedBy(entries: Entries, routerId: u32, listed: seq<LsaHeader>, external: bool, after: Entries) {
    && after.Keys == entries.Keys
    && (forall k :: k in entries ==> LiftedAt(entries[k], routerId, listed, external, k, after[k]))
  }

  ghost predicate LiftedAt(before: LsdbEntry, routerId: u32, listed: seq<LsaHeader>, external: bool, k: LsaKey, after: LsdbEntry) {
    var s := after.lsa.header.lsSequenceNumber;
    && after == before.(lsa := before.lsa.(header := before.lsa.header.(lsSequenceNumber := s)))
    && s >= before.lsa.header.lsSequenceNumber
    && (forall h :: h in listed && Concerns(h, routerId, external, k) ==> s >= h.lsSequenceNumber)
    && (s == before.lsa.header.lsSequenceNumber
        || exists h :: h in listed && Concerns(h, routerId, external, k) && h.lsSequenceNumber == s)
  }

  /** A listed header of ours for this key, in the database of its type. */
  ghost predicate Concerns(h: LsaHeader, routerId: u32, external: bool, k: LsaKey) {
    h.advertisingRouter == routerId && (h.lsType == AsExternal) == external && h.Key() == k
  }

  lemma {:induction false} RecoveredLifts(entries: Entries, routerId: u32, listed: seq<LsaHeader>, external: bool)
    requires forall h :: h in listed ==> (h.lsType == AsExternal) == external
    ensures LiftedBy(entries, routerId, listed, external, Recovered(entries, routerId, listed))
  {
    if listed != [] {
      var n := |listed| - 1;
      RecoveredLifts(entries, routerId, listed[..n], external);
      assert listed == listed[..n] + [listed[n]];
      var before, after := Recovered(entries, routerId, listed[..n]), Recovered(entries, routerId, listed);
      forall k | k in entries ensures LiftedAt(entries[k], routerId, listed, external, k, after[k]) {
        assert LiftedAt(entries[k], routerId, listed[..n], external, k, before[k]);
        LiftedSnoc(entries[k], routerId, listed[..n], external, k, before[k], listed[n], after[k]);
      }
    }
  }

  lemma LiftedSnoc(start: LsdbEntry, routerId: u32, listed: seq<LsaHeader>, external: bool, k: LsaKey, before: LsdbEntry,
                   h: LsaHeader, after: LsdbEntry)
    requires LiftedAt(start, routerId, listed, external, k, before)
    requires var s := before.lsa.header.lsSequenceNumber;
             after == if Concerns(h, routerId, external, k) && s < h.lsSequenceNumber
                      then before.(lsa := before.lsa.(header := before.lsa.header.(lsSequenceNumber := h.lsSequenceNumber)))
                      else before
    ensures LiftedAt(start, routerId, listed + [h], external, k, after)
  {
    if Concerns(h, routerId, external, k) && before.lsa.header.lsSequenceNumber < h.lsSequenceNumber {
      assert h in listed + [h];
    } else if before.lsa.header.lsSequenceNumber != start.lsa.header.lsSequenceNumber {
      var g :| g in listed && Concerns(g, routerId, external, k) && g.lsSequenceNumber == before.lsa.header.lsSequenceNumber;
      assert g in listed + [h];
    }
  }

  /** Bumps are never undone: the database differs from where it started once one has happened. */
  lemma BumpStep(entries: Entries, routerId: u32, listed: seq<LsaHeader>, key: LsaKey, newSeq: i32)
    ensures var now := Recovered(entries, routerId, listed);
            Bumped(now, key, newSeq) != entries <==>
              now != entries || (key in now && now[key].lsa.header.lsSequenceNumber < newSeq)
  {
    var now := Recovered(entries, routerId, listed);
    RecoveredKeys(entries, routerId, listed);
    hide Recovered;
    if key in now && now[key].lsa.header.lsSequenceNumber < newSeq {
      RecoveredRises(entries, routerId, listed, key);
      assert Bumped(now, key, newSeq)[key].lsa.header.lsSequenceNumber > entries[key].lsa.header.lsSequenceNumber;
    }
  }

  /**
   Restart recovery (section 13.4 of RFC 2328). We hold one of our own Router-LSAs and a Database
   Description lists it at sequence s. After any further installs, the next origination exceeds s
   exactly when the sequence number held by then is not the maximum; it then replaces our copy, and
   every peer still holding s installs it as Updated.
   */
  lemma RestartRecovery(entries: Entries, routerId: u32, listed: seq<LsaHeader>, i: nat, later: seq<Lsa>,
                        flags: u8, links: seq<RouterLink>, options: u8, peer: Entries)
    requires WellKeyed(entries) && RouterKey(routerId) in entries
    requires i < |listed| && listed[i].Key() == RouterKey(routerId)
    requires RouterKey(routerId) in peer
    requires peer[RouterKey(routerId)].lsa.header.lsSequenceNumber == listed[i].lsSequenceNumber
    ensures var s := listed[i].lsSequenceNumber;
            var key := RouterKey(routerId);
            var held := InstallAll(Recovered(entries, routerId, listed), routerId, later);
            var draft := RouterLsaDraft(held, routerId, flags, links, options);
            && key in held
            && (draft.header.lsSequenceNumber > s <==> held[key].lsa.header.lsSequenceNumber < MAX_SEQUENCE_NUMBER)
            && (held[key].lsa.header.lsSequenceNumber < MAX_SEQUENCE_NUMBER && LsaCodec.EncodedFits(draft) ==>
                  var lsa := LsaCodec.Corrected(draft);
                  && Installed(held, routerId, lsa)[key].lsa == lsa
                  && Verdict(peer, lsa) == Updated)
  {
    hide LsaCodec.EncodedFits, LsaCodec.LsaChecksum, LsaCodec.WireLength, LsaCodec.EncodeBody;
    RecoveredCovers(entries, routerId, listed);
    InstallAllMonotone(Recovered(entries, routerId, listed), routerId, later);
    hide Recovered, InstallAll;
    var held := InstallAll(Recovered(entries, routerId, listed), routerId, later);
    assert RouterKey(routerId) in held && held[RouterKey(routerId)].lsa.header.lsSequenceNumber >= listed[i].lsSequenceNumber;
    NextReplaces(held, routerId, flags, links, options, peer, listed[i].lsSequenceNumber);
  }

  /** Numbered after what is held, the next instance replaces it, and any lower one, unless it wraps. */
  lemma NextReplaces(held: Entries, routerId: u32, flags: u8, links: seq<RouterLink>, options: u8, peer: Entries, s: i32)
    requires WellKeyed(held) && RouterKey(routerId) in held && held[RouterKey(routerId)].lsa.header.lsSequenceNumber >= s
    requires RouterKey(routerId) in peer && peer[RouterKey(routerId)].lsa.header.lsSequenceNumber == s
    ensures var key := RouterKey(routerId);
            var draft := RouterLsaDraft(held, routerId, flags, links, options);
            && (draft.header.lsSequenceNumber > s <==> held[key].lsa.header.lsSequenceNumber < MAX_SEQUENCE_NUMBER)
            && (held[key].lsa.header.lsSequenceNumber < MAX_SEQUENCE_NUMBER && LsaCodec.EncodedFits(draft) ==>
                  var lsa := LsaCodec.Corrected(draft);
                  && Installed(held, routerId, lsa)[key].lsa == lsa
                  && Verdict(peer, lsa) == Updated)
  {
    hide LsaCodec.EncodedFits, LsaCodec.LsaChecksum, LsaCodec.WireLength, LsaCodec.EncodeBody;
  }

  /** The condition of `RestartRecovery` is met when no instance involved is at the maximum. */
  lemma {:induction false} HeldBelowMaximum(entries: Entries, routerId: u32, key: LsaKey, later: seq<Lsa>)
    requires key in entries && entries[key].lsa.header.lsSequenceNumber < MAX_SEQUENCE_NUMBER
    requires forall l :: l in later && l.Key() == key ==> l.header.lsSequenceNumber < MAX_SEQUENCE_NUMBER
    ensures var held := InstallAll(entries, routerId, later);
            key in held && held[key].lsa.header.lsSequenceNumber < MAX_SEQUENCE_NUMBER
  {
    if later != [] {
      HeldBelowMaximum(entries, routerId, key, later[..|later| - 1]);
    }
  }

  /** A peer that floods our own LSA at the maximum defeats the recovery: the next sequence number
      wraps to the lowest one. */
  lemma RecoveryFailsAtMaximum(own: Lsa, s: i32)
    requires own.Key() == RouterKey(own.header.advertisingRouter)
    requires own.header.lsSequenceNumber < s < MAX_SEQUENCE_NUMBER
    ensures var id := own.header.advertisingRouter;
            var listed := own.header.(lsSequenceNumber := s);
            var stale := own.(header := own.header.(lsSequenceNumber := MAX_SEQUENCE_NUMBER));
            var held := InstallAll(Recovered(map[own.Key() := LsdbEntry(own, true)], id, [listed]), id, [stale]);
            NextSequence(held, RouterKey(id)) < s
  {
    var id := own.header.advertisingRouter;
    var listed := own.header.(lsSequenceNumber := s);
    var entries := map[own.Key() := LsdbEntry(own, true)];
    assert [listed][..0] == [];
    assert Recovered(entries, id, [listed]) == Bumped(entries, own.Key(), s);
    var stale := own.(header := own.header.(lsSequenceNumber := MAX_SEQUENCE_NUMBER));
    assert [stale][..0] == [];
  }
}

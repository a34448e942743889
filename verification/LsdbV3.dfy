/** The OSPFv3 link-state database of src/lsdb_v3.rs and its content generation. */
module LsdbV3 {
  import opened Numbers
  import opened OspfV3Types

  const U64 := 0x1_0000_0000_0000_0000
  type u64 = x: int | 0 <= x < 0x1_0000_0000_0000_0000

  /** `area` is None for AS-scope LSAs. */
  datatype LsaKeyV3 = LsaKeyV3(area: Option<u32>, lsType: LsaV3Type, linkStateId: u32, advertisingRouter: u32)

  datatype LsaEntryV3 = LsaEntryV3(header: LsaV3Header, raw: seq<u8>, area: Option<u32>) {
    function Key(): LsaKeyV3 {
      LsaKeyV3(area, header.lsType, header.linkStateId, header.advertisingRouter)
    }
  }

  type Entries = map<LsaKeyV3, LsaEntryV3>

  /** An insert changes the content when the key is new or its (sequence, checksum) differs. */
  predicate Changes(entries: Entries, e: LsaEntryV3) {
    e.Key() !in entries
    || entries[e.Key()].header.lsSequenceNumber != e.header.lsSequenceNumber
    || entries[e.Key()].header.lsChecksum != e.header.lsChecksum
  }

  function Inserted(entries: Entries, e: LsaEntryV3): Entries {
    entries[e.Key() := e]
  }

  function InsertedAll(entries: Entries, es: seq<LsaEntryV3>): Entries {
    if es == [] then entries else Inserted(InsertedAll(entries, es[..|es| - 1]), es[|es| - 1])
  }

  /** How many of a sequence of inserts change the content. */
  function ChangeCount(entries: Entries, es: seq<LsaEntryV3>): nat {
    if es == [] then 0
    else
      var n := |es| - 1;
      ChangeCount(entries, es[..n]) + if Changes(InsertedAll(entries, es[..n]), es[n]) then 1 else 0
  }

  /** The instances SPF runs on: the identity of an LSA instance is (sequence number, checksum). */
  function Instances(entries: Entries): map<LsaKeyV3, (i32, u16)> {
    map k | k in entries :: (entries[k].header.lsSequenceNumber, entries[k].header.lsChecksum)
  }

  lemma AddModulo(a: nat, b: nat)
    ensures (a % U64 + b) % U64 == (a + b) % U64
  {
  }

  class Lsdb {
    var entries: Entries
    var generation: u64

    constructor ()
      ensures entries == map[] && generation == 0
    {
      entries, generation := map[], 0;
    }

    method Insert(e: LsaEntryV3)
      modifies this
      ensures entries == Inserted(old(entries), e)
      ensures generation == (old(generation) + if Changes(old(entries), e) then 1 else 0) % U64
      ensures var k := LsaKeyV3(e.area, e.header.lsType, e.header.linkStateId, e.header.advertisingRouter);
              && k in entries && entries[k] == e
              && (forall j :: j != k ==> (j in entries <==> j in old(entries)) && (j in entries ==> entries[j] == old(entries)[j]))
              && (generation == old(generation) <==>
                    && k in old(entries) && old(entries)[k].header.lsSequenceNumber == e.header.lsSequenceNumber
                    && old(entries)[k].header.lsChecksum == e.header.lsChecksum)
              && (generation != old(generation) ==> generation == (old(generation) + 1) % 0x1_0000_0000_0000_0000)
    {
      var key := e.Key();
      var changed := true;
      if key in entries {
        changed := entries[key].header.lsSequenceNumber != e.header.lsSequenceNumber
          || entries[key].header.lsChecksum != e.header.lsChecksum;
      }
      if changed {
        generation := (generation + 1) % U64;
      }
      entries := entries[key := e];
    }

    /** A batch of inserts, as origination does. */
    method InsertAll(es: seq<LsaEntryV3>)
      modifies this
      ensures entries == InsertedAll(old(entries), es)
      ensures generation == (old(generation) + ChangeCount(old(entries), es)) % U64
    {
      for i := 0 to |es|
        invariant entries == InsertedAll(old(entries), es[..i])
        invariant generation == (old(generation) + ChangeCount(old(entries), es[..i])) % U64
      {
        hide Changes, Inserted;
        assert es[..i + 1][..i] == es[..i];
        var changed := if Changes(entries, es[i]) then 1 else 0;
        AddModulo(old(generation) + ChangeCount(old(entries), es[..i]), changed);
        Insert(es[i]);
      }
      assert es[..|es|] == es;
    }
  }

  /** Inserts that change nothing leave the instances alone, however many there are. */
  lemma {:induction false} NoChangeSameInstances(entries: Entries, es: seq<LsaEntryV3>)
    requires ChangeCount(entries, es) == 0
    ensures Instances(InsertedAll(entries, es)) == Instances(entries)
  {
    if es != [] {
      var n := |es| - 1;
      NoChangeSameInstances(entries, es[..n]);
    }
  }
}

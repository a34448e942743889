/** The SPF gate of the OSPFv3 daemon loop (the `spf_tick` arm of src/daemon_v3.rs). */
module SpfGate {
  import opened Numbers
  import opened LsdbV3

  const USIZE_MAX: u64 := 0xFFFF_FFFF_FFFF_FFFF
  const LONGEST_VEC := 0x7FFF_FFFF_FFFF_FFFF

  /** What the gate remembers, with the instances the last SPF run used and the number of content
      changes since. */
  datatype Gate = Gate(
    entries: Entries, generation: u64, lastGeneration: u64, lastNeighborCount: u64, force: bool,
    used: Option<map<LsaKeyV3, (i32, u16)>>, changesSince: nat)

  /** LSA inserts between ticks, a forced recomputation, or a tick with the neighbors of the moment and
      the LSAs the router re-originates when SPF does run. */
  datatype Event = Insert(e: LsaEntryV3) | Force | Tick(neighbors: nat, own: seq<LsaEntryV3>)

  function Start(): Gate {
    Gate(map[], 0, USIZE_MAX, USIZE_MAX, false, None, 0)
  }

  predicate Skips(g: Gate, neighbors: nat) {
    !g.force && g.generation == g.lastGeneration && neighbors == g.lastNeighborCount
  }

  predicate Possible(ev: Event) {
    ev.Tick? ==> ev.neighbors <= LONGEST_VEC
  }

  function After(g: Gate, ev: Event): Gate
    requires Possible(ev)
  {
    match ev
    case Insert(e) =>
      var changed := if Changes(g.entries, e) then 1 else 0;
      g.(entries := Inserted(g.entries, e), generation := (g.generation + changed) % U64,
         changesSince := g.changesSince + changed)
    case Force => g.(force := true)
    case Tick(neighbors, own) =>
      if Skips(g, neighbors) then g
      else
        var entries := InsertedAll(g.entries, own);
        var generation := (g.generation + ChangeCount(g.entries, own)) % U64;
        Gate(entries, generation, generation, neighbors, false, Some(Instances(entries)), 0)
  }

  function Run(events: seq<Event>): Gate
    requires forall ev :: ev in events ==> Possible(ev)
  {
    if events == [] then Start() else After(Run(events[..|events| - 1]), events[|events| - 1])
  }

  /** Once SPF has run, the generation counts the changes since modulo 2^64, and with none of them
      the instances are the ones SPF used. Before that, no tick can be skipped. */
  ghost predicate Inv(g: Gate) {
    if g.used.None? then g.lastNeighborCount == USIZE_MAX
    else
      && g.generation == (g.lastGeneration + g.changesSince) % U64
      && (g.changesSince == 0 ==> Instances(g.entries) == g.used.value)
  }

  lemma InsertKeepsInv(g: Gate, e: LsaEntryV3)
    requires Inv(g)
    ensures Inv(After(g, Insert(e)))
  {
    var changed := if Changes(g.entries, e) then 1 else 0;
    AddModulo(g.lastGeneration + g.changesSince, changed);
    if changed == 0 {
      assert Instances(Inserted(g.entries, e)) == Instances(g.entries);
    }
    hide Changes, Inserted;
  }

  lemma TickKeepsInv(g: Gate, neighbors: nat, own: seq<LsaEntryV3>)
    requires Inv(g) && neighbors <= LONGEST_VEC
    ensures Inv(After(g, Tick(neighbors, own)))
  {
    hide InsertedAll, ChangeCount, Instances;
  }

  lemma {:induction false} RunInv(events: seq<Event>)
    requires forall ev :: ev in events ==> Possible(ev)
    ensures Inv(Run(events))
  {
    if events != [] {
      var n := |events| - 1;
      RunInv(events[..n]);
      var g := Run(events[..n]);
      assert Possible(events[n]);
      match events[n]
      case Insert(e) => InsertKeepsInv(g, e);
      case Force =>
      case Tick(neighbors, own) => TickKeepsInv(g, neighbors, own);
    }
  }

  /**
   Gate soundness: over any sequence of events with fewer than 2^64 content changes since SPF last
   ran, a tick that skips SPF finds exactly the LSA instances that run used; and with the neighbor
   count unchanged and nothing forced, a tick skips only if nothing changed.
   */
  lemma SkippedTickIsUpToDate(events: seq<Event>, neighbors: nat)
    requires neighbors <= LONGEST_VEC
    requires forall ev :: ev in events ==> Possible(ev)
    ensures var g := Run(events);
            && (Skips(g, neighbors) ==> g.used.Some? && g.changesSince % U64 == 0)
            && (Skips(g, neighbors) && g.changesSince < U64 ==> Instances(g.entries) == g.used.value)
            && (g.used.Some? && !g.force && neighbors == g.lastNeighborCount ==>
                  (Skips(g, neighbors) <==> g.changesSince % U64 == 0))
  {
    RunInv(events);
    var g := Run(events);
    if g.used.Some? {
      SameModulo(g.lastGeneration, g.changesSince);
    }
  }

  /**
   When a tick runs SPF: exactly if it never ran, if a run was forced since, if the number of neighbors is not that of the
   last run, or if the content changed since, up to multiples of 2^64. It then runs on the database with our own LSAs
   re-originated and forgets the rest; otherwise nothing happens.
   */
  lemma TickRunsExactly(events: seq<Event>, neighbors: nat, own: seq<LsaEntryV3>)
    requires neighbors <= LONGEST_VEC
    requires forall ev :: ev in events ==> Possible(ev)
    ensures var g := Run(events);
            var g' := After(g, Tick(neighbors, own));
            if g.used.None? || g.force || neighbors != g.lastNeighborCount || g.changesSince % 0x1_0000_0000_0000_0000 != 0 then
              && g'.entries == InsertedAll(g.entries, own) && g'.used == Some(Instances(g'.entries))
              && !g'.force && g'.lastNeighborCount == neighbors && g'.changesSince == 0
            else g' == g
  {
    hide InsertedAll, ChangeCount, Instances;
    SkippedTickIsUpToDate(events, neighbors);
    RunInv(events);
  }

  /** A forced run is remembered until a tick has run SPF. */
  lemma ForceIsRemembered(events: seq<Event>)
    requires forall ev :: ev in events ==> Possible(ev)
    ensures Run(events + [Force]).force
    ensures forall e :: After(Run(events + [Force]), Insert(e)).force
  {
    assert (events + [Force])[..|events|] == events;
  }

  lemma SameModulo(a: u64, n: nat)
    ensures (a + n) % U64 == a <==> n % U64 == 0
  {
  }

  class DaemonV3 {
    const lsdb: Lsdb
    var lastGeneration: u64
    var lastNeighborCount: u64
    var force: bool

    constructor ()
      ensures fresh(lsdb) && lsdb.entries == map[] && lsdb.generation == 0
      ensures lastGeneration == USIZE_MAX && lastNeighborCount == USIZE_MAX && !force
    {
      lsdb := new Lsdb();
      lastGeneration, lastNeighborCount, force := USIZE_MAX, USIZE_MAX, false;
    }

    ghost predicate Matches(g: Gate)
      reads this, lsdb
    {
      && lsdb.entries == g.entries && lsdb.generation == g.generation
      && lastGeneration == g.lastGeneration && lastNeighborCount == g.lastNeighborCount && force == g.force
    }

    /** The tick: skip, or re-originate, run SPF on the result, and remember what it ran on. */
    method SpfTick(neighbors: nat, own: seq<LsaEntryV3>, ghost g: Gate) returns (ran: bool)
      requires neighbors <= LONGEST_VEC && Matches(g)
      modifies this, lsdb
      ensures ran <==> !Skips(g, neighbors)
      ensures old(force) || neighbors != old(lastNeighborCount) || old(lsdb.generation) != old(lastGeneration) ==> ran
      ensures Matches(After(g, Tick(neighbors, own)))
    {
      var genBefore := lsdb.generation;
      if !force && genBefore == lastGeneration && neighbors == lastNeighborCount {
        return false;
      }
      lsdb.InsertAll(own);
      var genAfter := lsdb.generation;
      force := false;
      lastGeneration := genAfter;
      lastNeighborCount := neighbors;
      return true;
    }
  }
}

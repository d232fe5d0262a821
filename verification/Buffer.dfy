/** The translation lookaside buffer as the hardware keeps it: an array written in place. */
module Buffer {
  import opened Sv48
  import Tlb

  class TranslationBuffer {
    const storage: array<Tlb.Slot>
    var population: nat
    var evictTarget: nat
    var asid: nat
    var stats: Tlb.Stats

    ghost predicate Valid()
      reads this, storage
    {
      Tlb.Ok(Model())
    }

    ghost function Model(): Tlb.State
      reads this, storage
    {
      Tlb.State(storage[..], population, evictTarget, asid, stats)
    }

    constructor (max: nat)
      ensures 0 < max ==> Valid()
      ensures fresh(storage) && storage.Length == max
      ensures population == 0 && evictTarget == 0 && asid == 0 && stats == Tlb.Stats(0, 0, 0, 0, 0, 0)
    {
      storage := new Tlb.Slot[max](_ => Tlb.Slot(0, 0, 0, false));
      population, evictTarget, asid := 0, 0, 0;
      stats := Tlb.Stats(0, 0, 0, 0, 0, 0);
    }

    method Lookup(vPage: nat) returns (r: Option<nat>)
      requires Valid()
      modifies this`stats
      ensures Valid() && (r, Model()) == Tlb.Lookup(old(Model()), vPage)
    {
      stats := stats.(lookups := stats.lookups + 1);
      var i := 0;
      while i < population
        invariant i <= population && Valid()
        invariant Tlb.Find(old(Model()), vPage, 0) == Tlb.Find(old(Model()), vPage, i)
      {
        if Tlb.Matches(storage[i], vPage, asid) {
          stats := stats.(hits := stats.hits + 1);
          return Some(storage[i].ppn);
        }
        i := i + 1;
      }
      return None;
    }

    method Add(vPage: nat, pPage: nat)
      requires Valid()
      modifies this, storage
      ensures Valid() && Model() == Tlb.Add(old(Model()), vPage, pPage)
    {
      Tlb.StoreKeeps(Model(), Tlb.Slot(vPage, pPage, asid, true));
      if population < storage.Length {
        storage[population] := Tlb.Slot(vPage, pPage, asid, true);
        population := population + 1;
        stats := stats.(population := stats.population + 1);
        return;
      }
      for i := 0 to population
        invariant Model() == old(Model())
      {
        if !storage[i].valid {
          // The program would store past the end here; no populated slot is invalid.
          assert false;
        }
      }
      stats := stats.(addEvictions := stats.addEvictions + 1);
      storage[evictTarget] := Tlb.Slot(vPage, pPage, asid, true);
      evictTarget := (evictTarget + 1) % storage.Length;
    }

    method Flush()
      requires Valid()
      modifies this
      ensures Valid() && Model() == Tlb.Flush(old(Model()))
    {
      stats := stats.(flushes := stats.flushes + 1, flushEvictions := stats.flushEvictions + population,
                      population := 0);
      population := 0;
    }

    method SetAsid(asid: nat)
      requires Valid()
      modifies this`asid
      ensures Valid() && Model() == Tlb.SetAsid(old(Model()), asid)
    {
      this.asid := asid;
    }
  }
}

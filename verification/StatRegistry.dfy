/** The registry of traffic counters, one per tracked interface name. */
module StatRegistry {

  /** Registered names; the value says whether the counter's Start succeeded. */
  type Registry = map<string, bool>

  /** LoadOrStore comes before Start, and a counter whose Start fails stays registered. */
  function AddCounter(r: Registry, name: string, starts: bool): (Registry, bool) {
    if name in r then (r, false) else (r[name := starts], starts)
  }

  function RemoveCounter(r: Registry, name: string): (Registry, bool) {
    (r - {name}, name in r)
  }

  class StatCounterManager {
    var counters: Registry

    constructor ()
      ensures counters == map[]
    {
      counters := map[];
    }

    method Add(name: string, starts: bool) returns (ok: bool)
      modifies this
      ensures (counters, ok) == AddCounter(old(counters), name, starts)
      ensures ok <==> name !in old(counters) && starts
      ensures name in counters && forall other :: other != name ==>
        (other in counters <==> other in old(counters))
    {
      if name in counters {
        return false;
      }
      counters := counters[name := starts];
      ok := starts;
    }

    method Remove(name: string) returns (ok: bool)
      modifies this
      ensures (counters, ok) == RemoveCounter(old(counters), name)
      ensures (ok <==> name in old(counters)) && counters.Keys == old(counters).Keys - {name}
    {
      ok := name in counters;
      counters := counters - {name};
    }
  }
}

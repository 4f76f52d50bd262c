/** GLFWMonitor: monitor handles wrapped as objects, and the process-wide
    cache of the last monitor list, invalidated all at once. */
module GlfwMonitor {

  class Monitor {
    /** The native handle; fixed for the object's lifetime. */
    const handle: int
    var valid: bool

    constructor (handle: int)
      ensures this.handle == handle && valid
    {
      this.handle := handle;
      valid := true;
    }
  }

  /** The static `monitors` field: null until the first query, then the
      array handed out by every query until `InvalidateAll`. */
  class Monitors {
    var cache: array?<Monitor?>

    ghost predicate Valid()
      reads this, cache
    {
      cache != null ==> forall i :: 0 <= i < cache.Length ==> cache[i] != null
    }

    constructor ()
      ensures Valid() && cache == null
    {
      cache := null;
    }

    /** `getMonitors`: `connected` is the list of handles `glfwGetMonitors`
        reports; it is only consulted when nothing is cached. */
    method GetMonitors(connected: seq<int>) returns (r: array<Monitor?>)
      requires Valid()
      modifies this
      ensures Valid() && cache == r
      ensures old(cache) != null ==> r == old(cache)
      ensures old(cache) == null ==> fresh(r) && r.Length == |connected|
      ensures old(cache) == null ==> forall i :: 0 <= i < r.Length ==>
        r[i] != null && fresh(r[i]) && r[i].handle == connected[i] && r[i].valid
      ensures old(cache) == null ==> forall i, j :: 0 <= i < j < r.Length ==> r[i] != r[j]
    {
      if cache == null {
        var fetched := new Monitor?[|connected|];
        for index := 0 to fetched.Length
          invariant forall i :: 0 <= i < index ==>
            fetched[i] != null && fresh(fetched[i]) && fetched[i].handle == connected[i] && fetched[i].valid
          invariant forall i, j :: 0 <= i < j < index ==> fetched[i] != fetched[j]
        {
          fetched[index] := new Monitor(connected[index]);
        }
        cache := fetched;
      }
      r := cache;
    }

    /** `getPrimary`: the first monitor of the (possibly just filled) cache,
        or null when no monitor is connected. */
    method GetPrimary(connected: seq<int>) returns (m: Monitor?)
      requires Valid()
      modifies this
      ensures Valid() && cache != null
      ensures old(cache) != null ==> cache == old(cache)
      ensures old(cache) == null ==> fresh(cache) && cache.Length == |connected|
      ensures old(cache) == null ==> forall i :: 0 <= i < cache.Length ==>
        cache[i] != null && fresh(cache[i]) && cache[i].handle == connected[i] && cache[i].valid
      ensures m == if cache.Length > 0 then cache[0] else null
    {
      if cache == null {
        var _ := GetMonitors(connected);
      }
      m := if cache.Length > 0 then cache[0] else null;
    }

    /** `invalidateAll`: every monitor of the cached array becomes invalid and
        the cache is dropped; nothing else changes. */
    method InvalidateAll()
      requires Valid()
      modifies this, if cache == null then {} else set i | 0 <= i < cache.Length :: cache[i]
      ensures Valid() && cache == null
      ensures old(cache) != null ==> forall i :: 0 <= i < old(cache).Length ==> !old(cache)[i].valid
    {
      if cache != null {
        var all := cache;
        for index := 0 to all.Length
          invariant forall i :: 0 <= i < index ==> !all[i].valid
        {
          all[index].valid := false;
        }
      }
      cache := null;
    }
  }

  /** Scenario: two queries in a row share their objects; after invalidation
      the old objects stay invalid and the next query hands out new, valid
      ones. */
  method CacheScenario(monitors: Monitors, connected: seq<int>)
    returns (first: array<Monitor?>, second: array<Monitor?>, third: array<Monitor?>)
    requires monitors.Valid() && monitors.cache == null && |connected| > 0
    modifies monitors
    ensures first == second && first != third
    ensures forall i :: 0 <= i < first.Length ==> first[i] != null && !first[i].valid
    ensures third.Length == |connected|
    ensures forall i :: 0 <= i < third.Length ==>
      third[i] != null && third[i].valid && third[i].handle == connected[i]
    ensures forall i, j :: 0 <= i < first.Length && 0 <= j < third.Length ==> first[i] != third[j]
  {
    first := monitors.GetMonitors(connected);
    second := monitors.GetMonitors(connected);
    monitors.InvalidateAll();
    third := monitors.GetMonitors(connected);
  }
}

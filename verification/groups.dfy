/**
  `ProcessGroups` of src/lib.rs: the usages of the processes sharing one
  executable name, keyed by pid, with a running total maintained on insertion.
 */
module Groups {

  import opened Usage

  /** A process identifier, an `i32` in the source. */
  newtype Pid = x: int | -0x8000_0000 <= x < 0x8000_0000

  /** One group: the pid-to-usage map and the running total (`usage_totals`). */
  datatype ProcessGroup = ProcessGroup(pidToUsage: map<Pid, MemoryUsage>, usageTotals: MemoryUsage)

  /** `ProcessGroups::default()`: no pids, zero totals. */
  const EmptyGroup := ProcessGroup(map[], Zero)

  /**
    `add_usage`: records `usage` for `pid`, replacing any earlier entry for
    that pid, and adds `usage` to the running total in every case.
   */
  function AddUsage(g: ProcessGroup, pid: Pid, usage: MemoryUsage): (g': ProcessGroup)
    ensures pid in g'.pidToUsage && g'.pidToUsage[pid] == usage
    ensures g'.pidToUsage.Keys == g.pidToUsage.Keys + {pid}
    ensures forall p | p in g.pidToUsage && p != pid :: g'.pidToUsage[p] == g.pidToUsage[p]
    ensures g'.usageTotals == Add(g.usageTotals, usage)
  {
    ProcessGroup(g.pidToUsage[pid := usage], Add(g.usageTotals, usage))
  }

  /** Some key of a non-empty map, fixed once per map. */
  ghost function PickKey(m: map<Pid, MemoryUsage>): (k: Pid)
    requires m != map[]
    ensures k in m
  {
    var k :| k in m; k
  }

  /** The sum of the values of a map, one summand per key. */
  ghost function MapSum(m: map<Pid, MemoryUsage>): MemoryUsage
    decreases m.Keys
  {
    if m == map[] then Zero
    else
      var k := PickKey(m);
      Add(MapSum(m - {k}), m[k])
  }

  /** The totals invariant: the running total is the sum over the current map. */
  ghost predicate TotalsMatch(g: ProcessGroup)
  {
    g.usageTotals == MapSum(g.pidToUsage)
  }

  /** Any key can be taken out of the map sum, whichever key the definition picks. */
  lemma {:induction false} MapSumRemove(m: map<Pid, MemoryUsage>, k: Pid)
    requires k in m
    ensures MapSum(m) == Add(MapSum(m - {k}), m[k])
    decreases m.Keys
  {
    var j := PickKey(m);
    if j != k {
      var rest := m - {j} - {k};
      assert m - {k} - {j} == rest;
      MapSumRemove(m - {j}, k);
      MapSumRemove(m - {k}, j);
      assert MapSum(m) == Add(Add(MapSum(rest), m[k]), m[j]);
      assert MapSum(m - {k}) == Add(MapSum(rest), m[j]);
    }
  }

  lemma EmptyGroupTotalsMatch()
    ensures TotalsMatch(EmptyGroup)
  {
  }

  /** Adding a pid the group does not hold yet keeps the totals invariant. */
  lemma AddUsageFreshKeepsTotals(g: ProcessGroup, pid: Pid, usage: MemoryUsage)
    requires TotalsMatch(g) && pid !in g.pidToUsage
    ensures TotalsMatch(AddUsage(g, pid, usage))
  {
    var m' := g.pidToUsage[pid := usage];
    assert m' - {pid} == g.pidToUsage;
    MapSumRemove(m', pid);
  }

  /**
    Adding a pid the group already holds overwrites its entry but still counts
    the replaced usage: the total exceeds the map sum by exactly that usage.
   */
  lemma AddUsageRepeatedOvercounts(g: ProcessGroup, pid: Pid, usage: MemoryUsage)
    requires TotalsMatch(g) && pid in g.pidToUsage
    ensures AddUsage(g, pid, usage).usageTotals == Add(MapSum(AddUsage(g, pid, usage).pidToUsage), g.pidToUsage[pid])
  {
    var m := g.pidToUsage;
    var m' := m[pid := usage];
    assert m' - {pid} == m - {pid};
    MapSumRemove(m, pid);
    MapSumRemove(m', pid);
  }

  /** Two insertions under one pid: the map holds one usage, the total counts two. */
  lemma RepeatedPidBreaksTotals()
    ensures var u := MemoryUsage(1, 1, 0);
            var g := AddUsage(AddUsage(EmptyGroup, 7, u), 7, u);
            g.pidToUsage == map[7 := u] && g.usageTotals == MemoryUsage(2, 2, 0) && !TotalsMatch(g)
  {
    var u := MemoryUsage(1, 1, 0);
    var m: map<Pid, MemoryUsage> := map[7 := u];
    assert m - {7} == map[];
    MapSumRemove(m, 7);
  }

}

/** Clients that exercise the module contracts on small concrete modules. */
module Scenarios {
  import opened Wrappers
  import opened Parameters
  import opened Pegs
  import opened Tracing
  import opened Framework

  function NoHook(fqn: string, idx: int): bool { true }

  /** A SUM counter of 5 is flushed into the total, and a second aggregation adds nothing. */
  method SimpleModuleAggregates()
  {
    var live := new PegCount[1];
    live[0] := 5;
    SimplePegsLayout();
    var hooks := Hooks(NoHook, NoHook, None, false, Some(SimplePegs));
    var m := new Module("simple", "a simple module", hooks, live);
    m.SumStats(false);
    assert m.counts == [5] && live[0] == 0;
    var packets := m.GetGlobalCount("packets");
    assert packets == 5;
    m.SumStats(false);
    assert m.counts == [5] && live[0] == 0;
  }

  /** Resetting twice leaves the same count and all-zero totals. */
  method ResetTwice()
  {
    var live := new PegCount[1];
    SimplePegsLayout();
    var hooks := Hooks(NoHook, NoHook, None, false, Some(SimplePegs));
    var m := new Module("simple", "a simple module", hooks, live);
    m.ResetStats();
    var n, c := m.numCounts, m.counts;
    m.ResetStats();
    assert m.numCounts == n == 1 && m.counts == c == [0];
  }

  /** The built-in mask: `all` with a nonzero reading sets bit 1. */
  method DefaultMaskSetsAll()
  {
    var word := new TraceVar(0);
    var t := new Module.Full("mod", "traced", Some(NoParams), false, word, None, null,
                             Hooks(NoHook, NoHook, None, false, None), null);
    DefaultTraceValuesLayout();
    TraceSegmentAnywhere("mod", "all");
    assert "mod" + TraceSegment + "all" == "mod.trace.all";
    var ok := t.Set("mod.trace.all", Value("all", 1));
    assert ok && word.bits == 1;
  }

  /** A list module refuses a value at depth 1 and hands it on at depth 2. */
  method ListModuleNeedsTwoLevels()
  {
    var accepting := (fqn: string, v: Value) => true;
    var hooks := Hooks(NoHook, NoHook, Some(accepting), false, None);
    var m := new Module.Full("lst", "a list", Some(NoParams), true, null, None, null, hooks, null);
    var _ := m.VerifiedBegin("lst", 0);
    var ok := m.VerifiedSet("lst.opt", Value("opt", 1));
    assert m.tableLevel == 1 && !ok;
    var _ := m.VerifiedBegin("lst", 0);
    ok := m.VerifiedSet("lst.opt", Value("opt", 1));
    assert m.tableLevel == 2 && ok;
    var _ := m.VerifiedEnd("lst", 0);
    var _ := m.VerifiedEnd("lst", 0);
    assert m.tableLevel == 0;
  }
}

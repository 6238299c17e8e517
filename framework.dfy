/**
 * `snort::Module`, the base of every inspection module: its trace-mask
 * selection at construction, the default `set`, the depth-guarded
 * `verified_begin`/`verified_set`/`verified_end` wrappers, and the peg-counter
 * bookkeeping `reset_stats`, `sum_stats` and `get_global_count`.
 */
module Framework {
  import opened Wrappers
  import opened Parameters
  import opened Pegs
  import opened Tracing

  /**
   * What a concrete module supplies through its virtual members: `begin`,
   * `end`, an optional override of `set`, `global_stats`, and `get_pegs`.
   */
  datatype Hooks = Hooks(
    begin: (string, int) -> bool,
    end: (string, int) -> bool,
    setOverride: Option<(string, Value) -> bool>,
    globalStats: bool,
    pegs: Option<seq<PegInfo>>)

  /**
   * The static tables a module exposes: a descriptor table, when present,
   * is terminated; a live counter array (`get_counts`) comes with a
   * descriptor table and has a slot for each counter it declares.
   */
  predicate ValidHooks(hooks: Hooks, live: array?<PegCount>)
  {
    (hooks.pegs.Some? ==> Pegs.Terminated(hooks.pegs.value)) &&
    (live != null ==> hooks.pegs.Some? && live.Length >= CountOf(hooks.pegs.value))
  }

  function Zeros(n: nat): (z: seq<PegCount>)
    ensures |z| == n && forall i :: 0 <= i < n ==> z[i] == 0
  {
    seq(n, _ => 0)
  }

  /** `std::vector::resize`: keeps the common prefix, pads with zeros. */
  function Resize(s: seq<PegCount>, n: nat): (r: seq<PegCount>)
    ensures |r| == n
    ensures forall i :: 0 <= i < n && i < |s| ==> r[i] == s[i]
    ensures forall i :: |s| <= i < n ==> r[i] == 0
  {
    if n <= |s| then s[..n] else s + Zeros(n - |s|)
  }

  class Module {
    const name: string
    const help: string
    const params: Option<seq<Parameter>>
    const defaultParams: seq<Parameter>
    const list: bool
    const trace: TraceVar?
    const traceMask: TraceMask?
    const hooks: Hooks
    /** The live counters `get_counts()` returns (null when the module has none). */
    const live: array?<PegCount>

    /** How many counters there are; -1 until first resolved. */
    var numCounts: int
    /** The recorded totals. */
    var counts: seq<PegCount>
    /** The depth of the table being configured. */
    var tableLevel: int

    /** The number of counters the descriptor table declares (0 without a table). */
    function Resolved(): nat
    {
      if hooks.pegs.None? then 0 else CountOf(hooks.pegs.value)
    }

    ghost predicate Valid()
      reads this
    {
      ValidHooks(hooks, live) &&
      (traceMask != null ==> trace != null) &&
      (numCounts < 0 ==> numCounts == -1 && counts == []) &&
      (numCounts >= 0 ==> numCounts == Resolved() && |counts| == numCounts)
    }

    /** The trace entries of this module's mask, None when it has no mask. */
    function MaskValues(): Option<seq<TraceValue>>
    {
      if traceMask == null then None else Some(traceMask.values)
    }

    /** The totals `sum_stats` starts from: zeroed by the implicit reset when unresolved. */
    ghost function Reconciled(): seq<PegCount>
      reads this
    {
      if numCounts < 0 then Zeros(Resolved()) else counts
    }

    /** `Module(const char*, const char*)`: `init` alone. */
    constructor (s: string, h: string, hooks: Hooks, live: array?<PegCount>)
      requires ValidHooks(hooks, live)
      ensures Valid()
      ensures name == s && help == h && this.hooks == hooks && this.live == live
      ensures params == Some(NoParams) && defaultParams == NoParams && !list
      ensures trace == null && traceMask == null
      ensures numCounts == -1 && counts == [] && tableLevel == 0
    {
      name, help := s, h;
      params := Some(NoParams);
      defaultParams := NoParams;
      list := false;
      numCounts := -1;
      trace, traceMask := null, null;
      this.hooks, this.live := hooks, live;
      counts, tableLevel := [], 0;
    }

    /**
     * The full constructor: `init`, then the schema, the list flag and the
     * trace target; a module with a trace target but no trace schema of its
     * own gets the built-in `trace` table and the `{ "all", 1 }` mask.
     */
    constructor Full(s: string, h: string, p: Option<seq<Parameter>>, isList: bool, t: TraceVar?,
                     moduleTraceParam: Option<seq<Parameter>>, moduleTraceMask: TraceMask?,
                     hooks: Hooks, live: array?<PegCount>)
      requires ValidHooks(hooks, live)
      ensures Valid()
      ensures name == s && help == h && this.hooks == hooks && this.live == live
      ensures params == p && list == isList && trace == t
      ensures t == null ==> defaultParams == NoParams && traceMask == null
      ensures t != null && moduleTraceParam.Some? ==>
                defaultParams == moduleTraceParam.value && traceMask == moduleTraceMask
      ensures t != null && moduleTraceParam.None? ==>
                defaultParams == DefaultTraceParams && traceMask != null && fresh(traceMask) &&
                traceMask.values == DefaultTraceValues
      ensures numCounts == -1 && counts == [] && tableLevel == 0
    {
      name, help := s, h;
      numCounts := -1;
      list := isList;
      trace := t;
      params := p;
      if t != null {
        if moduleTraceParam.Some? {
          defaultParams := moduleTraceParam.value;
          traceMask := moduleTraceMask;
        } else {
          defaultParams := DefaultTraceParams;
          traceMask := new TraceMask(DefaultTraceValues);
        }
      } else {
        defaultParams := NoParams;
        traceMask := null;
      }
      this.hooks, this.live := hooks, live;
      counts, tableLevel := [], 0;
    }

    /** The default `Module::set`: only `.trace.` options, and only through the trace mask. */
    method Set(fqn: string, v: Value) returns (ok: bool)
      requires Valid()
      modifies trace
      ensures trace == null ==> !ok
      ensures trace != null ==>
                ok == DefaultSet(fqn, MaskValues(), v, old(trace.bits)).accepted &&
                trace.bits == DefaultSet(fqn, MaskValues(), v, old(trace.bits)).trace
    {
      if Contains(fqn, TraceSegment) {
        if traceMask == null {
          return false;
        }
        ok := traceMask.Set(v, trace);
        return;
      }
      return false;
    }

    /** `verified_begin`: one level deeper, then the module's own `begin`. */
    method VerifiedBegin(fqn: string, idx: int) returns (ok: bool)
      requires Valid()
      modifies this`tableLevel
      ensures Valid()
      ensures tableLevel == old(tableLevel) + 1
      ensures ok == hooks.begin(fqn, idx)
    {
      tableLevel := tableLevel + 1;
      ok := hooks.begin(fqn, idx);
    }

    /**
     * `verified_set`: a list module refuses values while the table depth is
     * below 2; otherwise the module's `set` decides. An override is a pure
     * function here, so the clause that it leaves the trace word alone comes
     * from that abstraction, not from the source.
     */
    method VerifiedSet(fqn: string, v: Value) returns (ok: bool)
      requires Valid()
      modifies trace
      ensures list && tableLevel < 2 ==> !ok && (trace != null ==> trace.bits == old(trace.bits))
      ensures !(list && tableLevel < 2) && hooks.setOverride.Some? ==>
                ok == hooks.setOverride.value(fqn, v) && (trace != null ==> trace.bits == old(trace.bits))
      ensures !(list && tableLevel < 2) && hooks.setOverride.None? && trace == null ==> !ok
      ensures !(list && tableLevel < 2) && hooks.setOverride.None? && trace != null ==>
                ok == DefaultSet(fqn, MaskValues(), v, old(trace.bits)).accepted &&
                trace.bits == DefaultSet(fqn, MaskValues(), v, old(trace.bits)).trace
    {
      if list && tableLevel < 2 {
        return false;
      }
      if hooks.setOverride.Some? {
        ok := hooks.setOverride.value(fqn, v);
      } else {
        ok := Set(fqn, v);
      }
    }

    /** `verified_end`: one level up, then the module's own `end`. */
    method VerifiedEnd(fqn: string, idx: int) returns (ok: bool)
      requires Valid()
      modifies this`tableLevel
      ensures Valid()
      ensures tableLevel == old(tableLevel) - 1
      ensures ok == hooks.end(fqn, idx)
    {
      tableLevel := tableLevel - 1;
      ok := hooks.end(fqn, idx);
    }

    /** `enable_trace`: every bit of the trace mask into the trace word. */
    method EnableTrace()
      requires Valid()
      modifies trace
      ensures traceMask != null ==> trace.bits == old(trace.bits) | OrAll(traceMask.values)
      ensures traceMask == null && trace != null ==> trace.bits == old(trace.bits)
    {
      if traceMask != null {
        traceMask.SetAll(trace);
      }
    }

    /**
     * `reset_stats`: resolves the counter count from the descriptor table
     * whenever it is not positive, sizes the totals to it, and zeroes them.
     */
    method ResetStats()
      requires Valid()
      modifies this`numCounts, this`counts
      ensures Valid()
      ensures numCounts == Resolved()
      ensures counts == Zeros(Resolved())
    {
      if numCounts <= 0 {
        numCounts := 0;
        var pegs := hooks.pegs;
        if pegs.None? {
          return;
        }
        var infos := pegs.value;
        while infos[numCounts].name.Some?
          invariant 0 <= numCounts <= CountOf(infos)
          invariant counts == old(counts)
          decreases CountOf(infos) - numCounts
        {
          numCounts := numCounts + 1;
        }
        counts := Resize(counts, numCounts);
      }
      for i := 0 to numCounts
        invariant numCounts == Resolved() && |counts| == numCounts
        invariant forall j :: 0 <= j < i ==> counts[j] == 0
      {
        counts := counts[i := 0];
      }
    }

    /** `add_peg_count` of `module.h`, taken to be `counts[i] += v` on a 64-bit counter. */
    method AddPegCount(i: nat, v: PegCount)
      requires i < |counts|
      modifies this`counts
      ensures counts == old(counts)[i := Add64(old(counts)[i], v)]
    {
      counts := counts[i := Add64(counts[i], v)];
    }

    /** `set_peg_count` of `module.h`, taken to be `counts[i] = v`. */
    method SetPegCount(i: nat, v: PegCount)
      requires i < |counts|
      modifies this`counts
      ensures counts == old(counts)[i := v]
    {
      counts := counts[i := v];
    }

    /** `set_max_peg_count` of `module.h`, taken to be `counts[i] = max(counts[i], v)`. */
    method SetMaxPegCount(i: nat, v: PegCount)
      requires i < |counts|
      modifies this`counts
      ensures counts == old(counts)[i := if v > old(counts)[i] then v else old(counts)[i]]
    {
      if v > counts[i] {
        counts := counts[i := v];
      }
    }

    /** The loop of `sum_stats` for a global module: each total becomes its live value. */
    method CopyLiveCounts()
      requires Valid() && numCounts >= 0 && live != null
      modifies this`counts
      ensures Valid()
      ensures counts == live[..][..numCounts]
    {
      var p := live;
      for i := 0 to numCounts
        invariant |counts| == numCounts
        invariant forall j :: 0 <= j < i ==> counts[j] == p[j]
      {
        SetPegCount(i, p[i]);
      }
      assert counts == p[..][..numCounts];
    }

    /** One case of the switch in `sum_stats`: counter i, of the given kind. */
    method FoldCounter(i: nat, kind: CountType, accumulateNow: bool)
      requires live != null && i < |counts| && i < live.Length
      modifies this`counts, live
      ensures counts == old(counts)[i := Total(kind, old(counts)[i], old(live[i]), accumulateNow)]
      ensures live[..] == old(live[..])[i := Live(kind, old(live[i]))]
    {
      var p := live;
      match kind
      case End =>
      case Sum =>
        AddPegCount(i, p[i]);
        p[i] := 0;
      case Now =>
        if accumulateNow {
          AddPegCount(i, p[i]);
        }
      case Max =>
        SetMaxPegCount(i, p[i]);
    }

    /**
     * The loop of `sum_stats` for any other module: each total follows its
     * kind, and a SUM counter's live slot is cleared.
     */
    method FoldLiveCounts(accumulateNow: bool)
      requires Valid() && numCounts >= 0 && live != null
      modifies this`counts, live
      ensures Valid()
      ensures counts == FoldPass(Kinds(hooks.pegs.value), old(counts), old(live[..]), accumulateNow)
      ensures live[..] == ClearPass(Kinds(hooks.pegs.value), old(live[..]))
    {
      var p := live;
      var infos := hooks.pegs.value;
      ghost var kinds := Kinds(infos);
      for i := 0 to numCounts
        invariant |counts| == numCounts == |kinds|
        invariant forall j :: 0 <= j < i ==> counts[j] == Total(kinds[j], old(counts)[j], old(p[j]), accumulateNow)
        invariant forall j :: i <= j < numCounts ==> counts[j] == old(counts)[j]
        invariant forall j :: 0 <= j < i ==> p[j] == Live(kinds[j], old(p[j]))
        invariant forall j :: i <= j < p.Length ==> p[j] == old(p[j])
      {
        FoldCounter(i, infos[i].kind, accumulateNow);
      }
      assert counts == FoldPass(kinds, old(counts), old(p[..]), accumulateNow);
      assert p[..] == ClearPass(kinds, old(p[..]));
    }

    /**
     * `sum_stats`: folds the live counters into the totals, after an implicit
     * reset when the counter count is unresolved. A global module copies
     * them; any other module applies each counter's kind.
     */
    method SumStats(accumulateNow: bool)
      requires Valid()
      modifies this`numCounts, this`counts, live
      ensures Valid()
      ensures numCounts == Resolved()
      ensures live == null ==> counts == old(Reconciled())
      ensures live != null && hooks.globalStats ==>
                counts == old(live[..])[..numCounts] && live[..] == old(live[..])
      ensures live != null && !hooks.globalStats ==>
                counts == FoldPass(Kinds(hooks.pegs.value), old(Reconciled()), old(live[..]), accumulateNow) &&
                live[..] == ClearPass(Kinds(hooks.pegs.value), old(live[..]))
    {
      if numCounts < 0 {
        ResetStats();
      }
      var p := live;
      if p == null {
        return;
      }
      if hooks.globalStats {
        CopyLiveCounts();
      } else {
        FoldLiveCounts(accumulateNow);
      }
    }

    /** `get_global_count`: the total of the first counter called `name`. */
    method GetGlobalCount(name: string) returns (r: PegCount)
      requires Valid()
      requires hooks.pegs.Some? && numCounts >= 0
      requires Declares(hooks.pegs.value, name)
      ensures IndexOf(hooks.pegs.value, name).Some?
      ensures r == counts[IndexOf(hooks.pegs.value, name).value]
    {
      var infos := hooks.pegs.value;
      var i := 0;
      while infos[i].name.Some?
        invariant 0 <= i <= CountOf(infos)
        invariant forall j :: 0 <= j < i ==> infos[j].name != Some(name)
        decreases CountOf(infos) - i
      {
        if infos[i].name.value == name {
          return counts[i];
        }
        i := i + 1;
      }
      assert false;
    }
  }
}

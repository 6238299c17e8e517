# snort::Module base class: a Dafny model

This project models the base class `snort::Module`, which every inspection module of the Snort 3 plugin framework derives from, and its helper `TraceMask`. Both come from `src/framework/module.cc`. It covers:

- **Parameter schemas and `Command::get_arg_list`.** A schema is a C array of `Parameter` rows ended by a null-named row. `get_arg_list` renders the names before that row as `"(a, b, c)"`.
- **`TraceMask::set`.** It scans `{alias, mask}` pairs front to back. The first pair whose alias names the option ORs its bits into the module's `Trace` word, but only when the option's `uint8` reading is nonzero. The related `enable_trace` ORs in every entry's bits.
- **Trace-mask selection at construction.** A module given a trace target but no trace schema of its own gets the built-in `trace` table and the `{ "all", 1 }` mask.
- **The default `Module::set`.** It accepts only option paths that contain `.trace.` as a substring, and only on a module that has a trace mask.
- **The configuration-walk guards.** `verified_begin` and `verified_end` move the table depth `table_level` up and down. `verified_set` makes a list module refuse scalar values below depth 2.
- **Peg-counter bookkeeping.** `reset_stats` works out the counter count lazily and zeroes the totals. `sum_stats` folds the live counters into the totals by kind: SUM adds and clears, NOW adds only on request, MAX keeps the high-water mark, and a global module copies. `get_global_count` looks up a total by name.

Layout:

- `wrappers.dfy`: `Option`, which stands for a nullable pointer.
- `parameters.dfy`: `Parameter` and `Command`, the built-in trace tables, `GetArgList`.
- `pegs.dfy`: `PegInfo` tables, 64-bit wrapping counters, the per-kind fold rule, and lemmas about repeated aggregation.
- `tracing.dfy`: `TraceValue`, the `TraceMask` class, the `TraceVar` cell that a `Trace*` points to, `strstr` as `Contains`, and the default `set` as the function `DefaultSet`.
- `framework.dfy`: the class `Module`.
- `walk.dfy`: depth over a walk of table boundaries, and `Replay`, a client that drives a module the way the configuration parser does.
- `scenarios.dfy`: client methods on small concrete modules.

Modelling decisions:

- A sentinel-terminated C array is a `seq` that includes its terminator row. `Terminated` states that the terminator exists, and that is what the C loops rely on.
- The virtual members `begin`, `end`, `set` (when overridden), `global_stats` and `get_pegs` are the constructor argument `Hooks`. `get_counts()` is the constructor argument `live`, an `array?<PegCount>` that `sum_stats` updates in place.
- Assumed semantics of helpers defined in `module.h`, which this model does not include:
  - `add_peg_count(i, v)` is `counts[i] += v` on a 64-bit unsigned counter, so it wraps (`Add64`).
  - `set_peg_count(i, v)` is `counts[i] = v`.
  - `set_max_peg_count(i, v)` is `counts[i] = max(counts[i], v)`.
  - `TraceMask::set(Trace*)` ORs every entry's mask into the word.
  - `Trace` is a 64-bit word (`bv64`).
  - `table_level` starts at 0, `counts` starts empty, and `trace` and `trace_mask` start null.

Three details of the code that the model keeps as written:

- `reset_stats` zeroes the totals `counts`, not the live counters.
- `reset_stats` re-scans the descriptor table whenever `num_counts <= 0`, not only while it is negative. The scan finds the same count again, so a later reset gives the same result.
- A `PegInfo` table ends at the first entry with a null name. The entry's kind (END or not) does not decide this.

## Model

| member | source | states |
|---|---|---|
| Parameters.Names | src/framework/module.cc:55 | the names before the first null-named row: each listed name is that row's name, the next row is the terminator, and a terminated table yields fewer names than rows |
| Parameters.GetArgList | src/framework/module.cc:50-64 | the rendered text equals `ArgList(params)`: "(" + the names before the terminator joined by ", " + ")"; a null list gives "()" |
| Parameters.JoinIsJoinFront | src/framework/module.cc:55-61 | the left-to-right join built by the loop equals the reference rendering: the first name, then ", " before every later name |
| Parameters.ArgListShape | src/framework/module.cc:52-62 | the rendered list is "(" + the reference join of the names + ")" |
| Parameters.EmptyArgList | src/framework/module.cc:53-55 | a null list, or one whose first row is the terminator, renders as "()" |
| Parameters.SingleArgList | src/framework/module.cc:55-62 | a one-option list renders as "(" + name + ")", with no separator |
| Parameters.NamesStopAtSentinel | src/framework/module.cc:55 | rows after the terminator never affect the names read, so the scan does not read past the terminator |
| Pegs.CountOf | src/framework/module.cc:198-199 | the counter count is the index of the first null-named descriptor: every earlier one is named, and in a terminated table it lies inside the table |
| Pegs.IndexOf | src/framework/module.cc:212-215 | the first descriptor index before the terminator whose name equals the query; it is absent exactly when no such descriptor exists |
| Pegs.SumFlushesDelta | src/framework/module.cc:158-161 | SUM: the total grows by the live value modulo 2^64, the live value becomes 0, and a second pass with no new writes changes nothing |
| Pegs.NowIsGated | src/framework/module.cc:163-166 | NOW: the total is unchanged without the request and grows by the live value with it; the live value is never cleared |
| Pegs.MaxIsHighWater | src/framework/module.cc:168-170 | MAX: the total becomes the larger of the old total and the live value, and the live value is kept |
| Pegs.SumRuns | src/framework/module.cc:158-161 | over any sequence of aggregations, a SUM total equals its start plus the sum of the deltas seen, modulo 2^64 |
| Pegs.MaxRuns | src/framework/module.cc:168-170 | over any sequence of aggregations, a MAX total is at least its start and every reading, and equals one of them |
| Pegs.NowRunsWithoutRequest | src/framework/module.cc:163-166 | over any sequence of aggregations without the NOW request, a NOW total never changes |
| Pegs.PassWithoutNowIsIdempotent | src/framework/module.cc:151-172 | without the NOW request, aggregating again with no new live writes leaves both the totals and the live array unchanged |
| Pegs.SimplePegsLayout | src/framework/module.cc:249-253 | `simple_pegs` is terminated, declares one SUM counter, and "packets" is at index 0 |
| Tracing.FirstAlias | src/framework/module.cc:71-80 | the first entry whose alias names the option: every earlier entry differs, and it is absent exactly when no entry matches |
| Tracing.TraceMask.Set | src/framework/module.cc:66-84 | returns whether some alias matches; the word becomes `TraceAfter`: old word OR the first match's mask when the reading is nonzero, otherwise unchanged |
| Tracing.TraceMask.SetAll | src/framework/module.cc:244 | the word becomes the old word OR the OR of every entry's mask |
| Tracing.NoMatchLeavesWord | src/framework/module.cc:71-83 | with no matching alias the lookup finds nothing and the word is left bit for bit |
| Tracing.FirstMatchFound | src/framework/module.cc:71-78 | the first entry whose alias matches is the one the lookup finds |
| Tracing.TraceAfterAt | src/framework/module.cc:75-77 | once entry i is found, the word becomes old OR its mask on a nonzero reading and stays old on a zero reading |
| Tracing.FirstMatchDecides | src/framework/module.cc:73-78 | the first matching entry is the one found; a nonzero reading gives old OR its mask, a zero reading leaves the word |
| Tracing.LaterEntriesIgnored | src/framework/module.cc:73-80 | once an entry matches, appending entries changes neither the match nor the resulting word |
| Tracing.SetOnlyAddsBits | src/framework/module.cc:76-77 | setting a trace option never clears a bit of the word |
| Tracing.OrAllCoversAt | src/framework/module.cc:244 | the all-bits word contains entry i's mask (OR-ing that mask into it changes nothing) |
| Tracing.OrAllCovers | src/framework/module.cc:244 | the all-bits word contains each entry's mask |
| Tracing.OrAllIsLeast | src/framework/module.cc:244 | the all-bits word is contained in any word that contains every entry's mask |
| Tracing.Contains | src/framework/module.cc:125 | `strstr(fqn, pat) != nullptr`: true exactly when `pat` occurs at some position of `fqn` |
| Tracing.TraceSegmentAnywhere | src/framework/module.cc:125 | any path with `.trace.` anywhere in it counts as a trace option, whether or not `.trace.` is a whole path segment |
| Tracing.DefaultSetRefuses | src/framework/module.cc:125-128 | a path without `.trace.`, or a module without a trace mask, is refused and the word is unchanged |
| Tracing.DefaultSetDelegates | src/framework/module.cc:125-126 | a `.trace.` path on a module with a mask is accepted exactly when some alias matches, and the word is exactly what the mask's own lookup produces |
| Tracing.DefaultTraceValuesLayout | src/framework/module.cc:42-48 | the built-in mask has one option `all` bound to mask value 1: "all" with reading 1 sets word 0 to 1, and every other name misses |
| Framework.Module.constructor | src/framework/module.cc:86-97 | `init`: the given name and help, an empty parameter list, not a list module, no trace target or mask, `num_counts == -1` |
| Framework.Module.Full | src/framework/module.cc:99-121 | after `init`, sets the schema, list flag and trace target; with a target, a given trace schema brings its own mask, and no schema brings `default_trace_params` and the `{ "all", 1 }` mask; without a target there is no mask |
| Framework.Module.Set | src/framework/module.cc:123-129 | the result and the new trace word are those of `DefaultSet`; a module with no trace target refuses |
| Framework.Module.VerifiedBegin | src/framework/module.cc:221-225 | the depth grows by exactly 1 and the result is the module's `begin` |
| Framework.Module.VerifiedSet | src/framework/module.cc:227-233 | a list module below depth 2 refuses whatever the path or value and changes nothing; otherwise the override or the default `set` decides; the depth never changes |
| Framework.Module.VerifiedEnd | src/framework/module.cc:235-239 | the depth shrinks by exactly 1 and the result is the module's `end` |
| Framework.Module.EnableTrace | src/framework/module.cc:241-245 | with a mask, every entry's bits are ORed into the trace word; without one, nothing changes |
| Framework.Module.ResetStats | src/framework/module.cc:188-206 | afterwards `num_counts` is the terminator index (0 without a table) and the totals are that many zeros, whatever the state before, so a second call gives the same state |
| Framework.Module.AddPegCount | src/framework/module.cc:159 | `add_peg_count(i, v)`: only total i changes, and it grows by v modulo 2^64 |
| Framework.Module.SetPegCount | src/framework/module.cc:147 | `set_peg_count(i, v)`: only total i changes, and it becomes v |
| Framework.Module.SetMaxPegCount | src/framework/module.cc:169 | `set_max_peg_count(i, v)`: only total i changes, and it becomes the larger of itself and v |
| Framework.Module.CopyLiveCounts | src/framework/module.cc:144-148 | the global branch: the totals become the first `num_counts` live values, and the live array is not touched |
| Framework.Module.FoldCounter | src/framework/module.cc:153-171 | one case of the switch: total i follows its kind's rule, and only live slot i can change, to 0 for a SUM counter |
| Framework.Module.FoldLiveCounts | src/framework/module.cc:151-172 | the per-kind branch: the totals become `FoldPass` of the old totals and live values, and the live array becomes `ClearPass` of it |
| Framework.Module.SumStats | src/framework/module.cc:131-174 | an unresolved module is reset first; without live counters nothing else changes; a global module's totals become its live values with the live array untouched; otherwise each total follows its kind's rule and only SUM slots of the live array are cleared |
| Framework.Module.GetGlobalCount | src/framework/module.cc:208-219 | for a declared name, returns the total at the first descriptor index with that name |
| ConfigWalk.LevelAfterIsNet | src/framework/module.cc:223-237 | the depth after any walk is the start plus tables opened minus tables closed |
| ConfigWalk.BalancedRestoresDepth | src/framework/module.cc:221-239 | a balanced walk returns the depth to its start and never goes below it |
| ConfigWalk.BalancedComposes | src/framework/module.cc:221-239 | two balanced walks in sequence, or one wrapped in another table, are balanced |
| ConfigWalk.Replay | src/framework/module.cc:221-239 | driving a module through boundary steps leaves the depth at `LevelAfter` of the steps; each answer is that step's `begin` or `end` hook |

## Left out

- `show_interval_stats` and `show_stats` are not modelled: they only pass counters to an external formatter that writes to `FILE*` or the console.
- The `SnortConfig*` argument is not modelled: this file passes it along but never uses it.
- The concrete overrides of `begin`, `end`, `set`, `global_stats`, `get_pegs` and `get_counts` are not modelled. They are constructor parameters, with hooks as pure functions of their arguments; the side effects an override may have are not modelled.
- Parsing of `Value`, and range strings such as `"0:max32"`, are not interpreted. A value is only its option name and its `uint8` reading.
- `init` gets `params` by pointer arithmetic to the terminator of `default_trace_params`. The model gives it a one-row list holding only the terminator, which is an empty list.
- The single static `s_default_trace_values` is modelled as a fresh `TraceMask` with the same entries for each module. A mask never changes, so sharing it cannot be observed.
- `init`'s assignments are written out in both constructors, because constructor-only fields are `const`.
- The two loops of `sum_stats`, and the body of its switch, are written as the helper methods `CopyLiveCounts`, `FoldLiveCounts` and `FoldCounter`. `SumStats` calls them where the source has those statements inline.
- Collection of per-thread stats across threads is not modelled: concurrency is outside this model.
- `module.h` is not part of this model. The semantics of its counter and trace helpers, and its field initial values, are the assumptions listed above.
- Framework.Module.constructor and Framework.Module.Full: require `ValidHooks`. This turns two programmer errors into preconditions: the `assert(q)` of `sum_stats`, so live counters come with a descriptor table, and the unchecked `p[i]` reads of `sum_stats`, so the live array has a slot for every declared counter.
- Framework.Module.GetGlobalCount: requires the counter count to be resolved and the name to be declared. The source `assert`s the second and runs into undefined behaviour without the first, so the release-build `return 0` for a missing name is not modelled.

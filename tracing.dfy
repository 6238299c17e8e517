/**
 * Trace masks: `TraceMask` turns named boolean trace options into bits of a
 * module's trace word, and the default `Module::set` routes `.trace.` options
 * to it.
 */
module Tracing {
  import opened Wrappers

  /** The `Trace` word, taken to be a 64-bit mask. */
  type Trace = bv64

  type UInt8 = x: int | 0 <= x < 256

  /** `TraceValue`: an option alias and the bits it stands for. */
  datatype TraceValue = TraceValue(alias: string, mask: Trace)

  /** The two things this file asks of a configuration `Value`: its option name and its `uint8` reading. */
  datatype Value = Value(name: string, uint8: UInt8)

  /** The `Trace` variable a module's `trace` pointer designates. */
  class TraceVar {
    var bits: Trace

    constructor (bits: Trace)
      ensures this.bits == bits
    {
      this.bits := bits;
    }
  }

  /** The first entry whose alias is `alias`: the one lookup consults. */
  function FirstAlias(values: seq<TraceValue>, alias: string): (r: Option<nat>)
    ensures r.Some? ==> r.value < |values| && values[r.value].alias == alias
    ensures r.Some? ==> forall j :: 0 <= j < r.value ==> values[j].alias != alias
    ensures r.None? <==> forall j :: 0 <= j < |values| ==> values[j].alias != alias
  {
    if |values| == 0 then None
    else if values[0].alias == alias then Some(0)
    else
      match FirstAlias(values[1..], alias)
      case None => None
      case Some(k) =>
        assert values[1..][k] == values[k + 1];
        Some(k + 1)
  }

  /** The trace word after `TraceMask::set(v, mask)` on a word holding `t`. */
  function TraceAfter(values: seq<TraceValue>, v: Value, t: Trace): Trace
  {
    match FirstAlias(values, v.name)
    case None => t
    case Some(i) => if v.uint8 != 0 then t | values[i].mask else t
  }

  /** Every entry's bits, or-ed together front to back. */
  function OrAll(values: seq<TraceValue>): Trace
  {
    if |values| == 0 then 0 else OrAll(values[..|values| - 1]) | values[|values| - 1].mask
  }

  /** A `TraceMask`: its entries are fixed at construction. */
  class TraceMask {
    const values: seq<TraceValue>

    constructor (values: seq<TraceValue>)
      ensures this.values == values
    {
      this.values := values;
    }

    /** `TraceMask::set(const Value&, Trace*)`. */
    method Set(v: Value, mask: TraceVar) returns (found: bool)
      modifies mask
      ensures found == FirstAlias(values, v.name).Some?
      ensures mask.bits == TraceAfter(values, v, old(mask.bits))
    {
      var tv := 0;
      var isize := |values|;
      while isize != 0
        invariant 0 <= tv <= |values| && tv + isize == |values|
        invariant forall j :: 0 <= j < tv ==> values[j].alias != v.name
        invariant mask.bits == old(mask.bits)
      {
        isize := isize - 1;
        if v.name == values[tv].alias {
          var optVal := v.uint8;
          if optVal != 0 {
            mask.bits := mask.bits | values[tv].mask;
          }
          return true;
        }
        tv := tv + 1;
      }
      return false;
    }

    /** `TraceMask::set(Trace*)`: or every entry's bits into the word. */
    method SetAll(mask: TraceVar)
      modifies mask
      ensures mask.bits == old(mask.bits) | OrAll(values)
    {
      for i := 0 to |values|
        invariant mask.bits == old(mask.bits) | OrAll(values[..i])
      {
        assert values[..i + 1][..i] == values[..i];
        mask.bits := mask.bits | values[i].mask;
      }
      assert values[..|values|] == values;
    }
  }

  /** No alias matches: the word is left bit for bit as it was. */
  lemma NoMatchLeavesWord(values: seq<TraceValue>, v: Value, t: Trace)
    requires forall j :: 0 <= j < |values| ==> values[j].alias != v.name
    ensures FirstAlias(values, v.name).None? && TraceAfter(values, v, t) == t
  {
  }

  /** The first entry with the alias is the one the lookup finds. */
  lemma FirstMatchFound(values: seq<TraceValue>, i: nat, alias: string)
    requires i < |values| && values[i].alias == alias
    requires forall j :: 0 <= j < i ==> values[j].alias != alias
    ensures FirstAlias(values, alias) == Some(i)
  {
  }

  /** The word after a lookup that found entry i. */
  lemma TraceAfterAt(values: seq<TraceValue>, i: nat, v: Value, t: Trace)
    requires FirstAlias(values, v.name) == Some(i)
    ensures TraceAfter(values, v, t) == if v.uint8 != 0 then t | values[i].mask else t
  {
  }

  /**
   * The first entry with the alias decides: a nonzero reading adds its bits,
   * a zero reading leaves the word, and later entries with the same alias
   * play no part.
   */
  lemma FirstMatchDecides(values: seq<TraceValue>, i: nat, v: Value, t: Trace)
    requires i < |values| && values[i].alias == v.name
    requires forall j :: 0 <= j < i ==> values[j].alias != v.name
    ensures FirstAlias(values, v.name) == Some(i)
    ensures v.uint8 != 0 ==> TraceAfter(values, v, t) == t | values[i].mask
    ensures v.uint8 == 0 ==> TraceAfter(values, v, t) == t
  {
    FirstMatchFound(values, i, v.name);
    TraceAfterAt(values, i, v, t);
  }

  /** Entries after the first match are never consulted. */
  lemma {:induction false} LaterEntriesIgnored(values: seq<TraceValue>, rest: seq<TraceValue>, v: Value, t: Trace)
    requires FirstAlias(values, v.name).Some?
    ensures FirstAlias(values + rest, v.name) == FirstAlias(values, v.name)
    ensures TraceAfter(values + rest, v, t) == TraceAfter(values, v, t)
    decreases |values|
  {
    if values[0].alias != v.name {
      assert (values + rest)[1..] == values[1..] + rest;
      LaterEntriesIgnored(values[1..], rest, v, t);
    }
  }

  /** Setting a trace option only ever adds bits. */
  lemma SetOnlyAddsBits(values: seq<TraceValue>, v: Value, t: Trace)
    ensures TraceAfter(values, v, t) & t == t
  {
  }

  /** Entry i's bits are in the or of all entries. */
  lemma {:induction false} OrAllCoversAt(values: seq<TraceValue>, i: nat)
    requires i < |values|
    ensures values[i].mask | OrAll(values) == OrAll(values)
    decreases |values|
  {
    var init := values[..|values| - 1];
    if i < |values| - 1 {
      assert init[i] == values[i];
      OrAllCoversAt(init, i);
    }
  }

  /** The or of all entries contains every entry's bits. */
  lemma OrAllCovers(values: seq<TraceValue>)
    ensures forall i :: 0 <= i < |values| ==> values[i].mask | OrAll(values) == OrAll(values)
  {
    forall i | 0 <= i < |values| ensures values[i].mask | OrAll(values) == OrAll(values) {
      OrAllCoversAt(values, i);
    }
  }

  /** ... and is the least such word: any word holding every entry's bits holds it. */
  lemma {:induction false} OrAllIsLeast(values: seq<TraceValue>, c: Trace)
    requires forall i :: 0 <= i < |values| ==> values[i].mask | c == c
    ensures OrAll(values) | c == c
    decreases |values|
  {
    if |values| > 0 {
      var init := values[..|values| - 1];
      forall i | 0 <= i < |init| ensures init[i].mask | c == c {
        assert init[i] == values[i];
      }
      OrAllIsLeast(init, c);
    }
  }

  /** `pat` occurs in `s` starting at position i. */
  predicate OccursAt(s: string, pat: string, i: nat)
  {
    i + |pat| <= |s| && s[i..i + |pat|] == pat
  }

  /** `strstr(s, pat) != nullptr`: `pat` occurs anywhere in `s`. */
  function Contains(s: string, pat: string): (r: bool)
    ensures r <==> exists i: nat :: OccursAt(s, pat, i)
    decreases |s|
  {
    if |s| < |pat| then false
    else if s[..|pat|] == pat then (assert OccursAt(s, pat, 0); true)
    else
      var r := Contains(s[1..], pat);
      assert r ==> exists i: nat :: OccursAt(s, pat, i) by {
        if r {
          var k: nat :| OccursAt(s[1..], pat, k);
          assert s[1..][k..k + |pat|] == s[k + 1..k + 1 + |pat|];
          assert OccursAt(s, pat, k + 1);
        }
      }
      assert (exists i: nat :: OccursAt(s, pat, i)) ==> r by {
        if exists i: nat :: OccursAt(s, pat, i) {
          var k: nat :| OccursAt(s, pat, k);
          assert k != 0;
          assert s[1..][k - 1..k - 1 + |pat|] == s[k..k + |pat|];
          assert OccursAt(s[1..], pat, k - 1);
        }
      }
      r
  }

  const TraceSegment: string := ".trace."

  /** The match is plain containment, not an exact path segment: `.trace.` anywhere counts. */
  lemma TraceSegmentAnywhere(prefix: string, suffix: string)
    ensures Contains(prefix + TraceSegment + suffix, TraceSegment)
  {
    var s := prefix + TraceSegment + suffix;
    assert s[|prefix|..|prefix| + |TraceSegment|] == TraceSegment;
    assert OccursAt(s, TraceSegment, |prefix|);
  }

  /** What the default `Module::set` reports, and the trace word afterwards. */
  datatype SetResult = SetResult(accepted: bool, trace: Trace)

  /** The default `Module::set` for a module whose trace mask is `mask` (None when null). */
  function DefaultSet(fqn: string, mask: Option<seq<TraceValue>>, v: Value, t: Trace): SetResult
  {
    if !Contains(fqn, TraceSegment) then SetResult(false, t)
    else if mask.None? then SetResult(false, t)
    else SetResult(FirstAlias(mask.value, v.name).Some?, TraceAfter(mask.value, v, t))
  }

  /** An option outside a `.trace.` path, or on a module without a trace mask, is refused and changes nothing. */
  lemma DefaultSetRefuses(fqn: string, mask: Option<seq<TraceValue>>, v: Value, t: Trace)
    requires !(exists i: nat :: OccursAt(fqn, TraceSegment, i)) || mask.None?
    ensures DefaultSet(fqn, mask, v, t) == SetResult(false, t)
  {
  }

  /** A `.trace.` option on a module with a trace mask is exactly the mask's own lookup. */
  lemma DefaultSetDelegates(fqn: string, values: seq<TraceValue>, v: Value, t: Trace)
    requires exists i: nat :: OccursAt(fqn, TraceSegment, i)
    ensures DefaultSet(fqn, Some(values), v, t).accepted
        <==> exists j :: 0 <= j < |values| && values[j].alias == v.name
    ensures DefaultSet(fqn, Some(values), v, t).trace == TraceAfter(values, v, t)
  {
  }

  /** `default_trace_values`: the built-in mask, one option `all` bound to bit 1. */
  const DefaultTraceValues: seq<TraceValue> := [TraceValue("all", 1)]

  lemma DefaultTraceValuesLayout()
    ensures OrAll(DefaultTraceValues) == 1
    ensures TraceAfter(DefaultTraceValues, Value("all", 1), 0) == 1
    ensures forall n :: n != "all" ==> FirstAlias(DefaultTraceValues, n).None?
  {
    assert DefaultTraceValues[..0] == [];
  }
}

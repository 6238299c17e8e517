/**
 * Peg counters: the `PegInfo` descriptor tables (ended by a null-named entry),
 * 64-bit `PegCount` values, and the per-kind rule `sum_stats` uses to fold a
 * live counter into its recorded total.
 */
module Pegs {
  import opened Wrappers

  const TWO64: int := 0x1_0000_0000_0000_0000

  /** `PegCount` is a 64-bit unsigned counter. */
  type PegCount = x: int | 0 <= x < TWO64

  /** `CountType`. */
  datatype CountType = End | Sum | Now | Max

  datatype PegInfo = PegInfo(kind: CountType, name: Option<string>, help: Option<string>)

  /** The descriptor array holds a null-named terminator. */
  predicate Terminated(pegs: seq<PegInfo>)
  {
    exists i :: 0 <= i < |pegs| && pegs[i].name.None?
  }

  /** The index of the first null-named descriptor: how many counters there are. */
  function CountOf(pegs: seq<PegInfo>): (n: nat)
    ensures n <= |pegs|
    ensures forall i :: 0 <= i < n ==> pegs[i].name.Some?
    ensures n < |pegs| ==> pegs[n].name.None?
    ensures Terminated(pegs) ==> n < |pegs|
  {
    if |pegs| == 0 || pegs[0].name.None? then 0 else 1 + CountOf(pegs[1..])
  }

  /** `name` is one of the counters the table declares (before its terminator). */
  predicate Declares(pegs: seq<PegInfo>, name: string)
  {
    exists i :: 0 <= i < CountOf(pegs) && pegs[i].name == Some(name)
  }

  /** The first counter index named `name`, if any. */
  function IndexOf(pegs: seq<PegInfo>, name: string): (r: Option<nat>)
    ensures r.Some? ==> r.value < CountOf(pegs) && pegs[r.value].name == Some(name)
    ensures r.Some? ==> forall j :: 0 <= j < r.value ==> pegs[j].name != Some(name)
    ensures r.None? <==> !Declares(pegs, name)
  {
    if |pegs| == 0 || pegs[0].name.None? then None
    else if pegs[0].name.value == name then Some(0)
    else
      match IndexOf(pegs[1..], name)
      case None => None
      case Some(k) =>
        assert pegs[1..][k] == pegs[k + 1];
        Some(k + 1)
  }

  /** `add_peg_count`: `counts[i] += v` on a 64-bit unsigned counter, so it wraps. */
  function Add64(a: PegCount, b: PegCount): PegCount
  {
    (a + b) % TWO64
  }

  /** The recorded total after one aggregation of a non-global counter. */
  function Total(kind: CountType, total: PegCount, live: PegCount, accumulateNow: bool): PegCount
  {
    match kind
    case End => total
    case Sum => Add64(total, live)
    case Now => if accumulateNow then Add64(total, live) else total
    case Max => if live > total then live else total
  }

  /** The live counter after one aggregation of a non-global counter. */
  function Live(kind: CountType, live: PegCount): PegCount
  {
    if kind == Sum then 0 else live
  }

  /** One aggregation over the first |kinds| counters: the new totals. */
  function FoldPass(kinds: seq<CountType>, totals: seq<PegCount>, live: seq<PegCount>, accumulateNow: bool): seq<PegCount>
    requires |totals| == |kinds| <= |live|
  {
    seq(|kinds|, i requires 0 <= i < |kinds| => Total(kinds[i], totals[i], live[i], accumulateNow))
  }

  /** One aggregation over the first |kinds| counters: the whole live array afterwards. */
  function ClearPass(kinds: seq<CountType>, live: seq<PegCount>): seq<PegCount>
    requires |kinds| <= |live|
  {
    seq(|live|, i requires 0 <= i < |live| => if i < |kinds| then Live(kinds[i], live[i]) else live[i])
  }

  /** The kinds of the counters a descriptor table declares. */
  function Kinds(pegs: seq<PegInfo>): (ks: seq<CountType>)
    ensures |ks| == CountOf(pegs)
    ensures forall i :: 0 <= i < |ks| ==> ks[i] == pegs[i].kind
  {
    seq(CountOf(pegs), i requires 0 <= i < CountOf(pegs) => pegs[i].kind)
  }

  /** A SUM counter flushes its delta: the total grows by it, the live value is cleared. */
  lemma SumFlushesDelta(total: PegCount, live: PegCount, accumulateNow: bool)
    ensures Total(Sum, total, live, accumulateNow) == (total + live) % TWO64
    ensures Live(Sum, live) == 0
    ensures Total(Sum, Total(Sum, total, live, accumulateNow), Live(Sum, live), accumulateNow)
         == Total(Sum, total, live, accumulateNow)
  {
  }

  /** A NOW counter is folded in only on request and is never cleared. */
  lemma NowIsGated(total: PegCount, live: PegCount, accumulateNow: bool)
    ensures !accumulateNow ==> Total(Now, total, live, accumulateNow) == total
    ensures accumulateNow ==> Total(Now, total, live, accumulateNow) == (total + live) % TWO64
    ensures Live(Now, live) == live
  {
  }

  /** A MAX counter records the larger of its total and the live value. */
  lemma MaxIsHighWater(total: PegCount, live: PegCount, accumulateNow: bool)
    ensures Total(Max, total, live, accumulateNow) >= total
    ensures Total(Max, total, live, accumulateNow) >= live
    ensures Total(Max, total, live, accumulateNow) == total || Total(Max, total, live, accumulateNow) == live
    ensures Live(Max, live) == live
  {
  }

  /** The total after aggregations that saw the live readings `rs`, one per call. */
  function AfterRuns(kind: CountType, total: PegCount, rs: seq<PegCount>, accumulateNow: bool): PegCount
    decreases |rs|
  {
    if |rs| == 0 then total else AfterRuns(kind, Total(kind, total, rs[0], accumulateNow), rs[1..], accumulateNow)
  }

  function SumOf(rs: seq<PegCount>): nat
  {
    if |rs| == 0 then 0 else rs[0] + SumOf(rs[1..])
  }

  lemma ModAddLeft(a: int, b: int)
    ensures ((a % TWO64) + b) % TWO64 == (a + b) % TWO64
  {
    var q := a / TWO64;
    assert a == q * TWO64 + a % TWO64;
    assert (a + b) == (a % TWO64 + b) + q * TWO64;
  }

  /** Over any run of aggregations a SUM total grows by the sum of the deltas, modulo 2^64. */
  lemma {:induction false} SumRuns(total: PegCount, rs: seq<PegCount>, accumulateNow: bool)
    ensures AfterRuns(Sum, total, rs, accumulateNow) == (total + SumOf(rs)) % TWO64
    decreases |rs|
  {
    if |rs| > 0 {
      SumRuns(Total(Sum, total, rs[0], accumulateNow), rs[1..], accumulateNow);
      ModAddLeft(total + rs[0], SumOf(rs[1..]));
    }
  }

  /** Over any run of aggregations a MAX total is the high-water mark of its start and every reading. */
  lemma {:induction false} MaxRuns(total: PegCount, rs: seq<PegCount>, accumulateNow: bool)
    ensures AfterRuns(Max, total, rs, accumulateNow) >= total
    ensures forall i :: 0 <= i < |rs| ==> AfterRuns(Max, total, rs, accumulateNow) >= rs[i]
    ensures AfterRuns(Max, total, rs, accumulateNow) == total
         || exists i :: 0 <= i < |rs| && AfterRuns(Max, total, rs, accumulateNow) == rs[i]
    decreases |rs|
  {
    if |rs| > 0 {
      var next := Total(Max, total, rs[0], accumulateNow);
      MaxRuns(next, rs[1..], accumulateNow);
      var r := AfterRuns(Max, total, rs, accumulateNow);
      forall i | 0 <= i < |rs| ensures r >= rs[i] {
        if i > 0 { assert rs[1..][i - 1] == rs[i]; }
      }
      if r != next {
        var k :| 0 <= k < |rs[1..]| && r == rs[1..][k];
        assert r == rs[k + 1];
      } else if next != total {
        assert r == rs[0];
      }
    }
  }

  /** Without the request, any run of aggregations leaves a NOW total as it was. */
  lemma {:induction false} NowRunsWithoutRequest(total: PegCount, rs: seq<PegCount>)
    ensures AfterRuns(Now, total, rs, false) == total
    decreases |rs|
  {
    if |rs| > 0 {
      NowRunsWithoutRequest(total, rs[1..]);
    }
  }

  /**
   * Without the NOW request, aggregating a second time with no new writes
   * changes nothing: the SUM deltas were cleared and the MAX marks are kept.
   */
  lemma PassWithoutNowIsIdempotent(kinds: seq<CountType>, totals: seq<PegCount>, live: seq<PegCount>)
    requires |totals| == |kinds| <= |live|
    ensures FoldPass(kinds, FoldPass(kinds, totals, live, false), ClearPass(kinds, live), false)
         == FoldPass(kinds, totals, live, false)
    ensures ClearPass(kinds, ClearPass(kinds, live)) == ClearPass(kinds, live)
  {
  }

  /** `simple_pegs`: the one-counter table shared by simple modules. */
  const SimplePegs: seq<PegInfo> := [
    PegInfo(Sum, Some("packets"), Some("total packets")),
    PegInfo(End, None, None)
  ]

  lemma SimplePegsLayout()
    ensures Terminated(SimplePegs) && CountOf(SimplePegs) == 1
    ensures IndexOf(SimplePegs, "packets") == Some(0)
    ensures Kinds(SimplePegs) == [Sum]
  {
    assert SimplePegs[1].name.None?;
  }
}

/**
 * The table nesting that a configuration load drives through
 * `verified_begin` and `verified_end`: how the depth moves and why a
 * balanced walk gives it back unchanged.
 */
module ConfigWalk {
  import opened Framework

  /** One table boundary the configuration parser reports. */
  datatype WalkStep = Enter(fqn: string, idx: int) | Exit(fqn: string, idx: int)

  function Delta(step: WalkStep): int
  {
    if step.Enter? then 1 else -1
  }

  /** The depth after the steps, front to back, starting from `level`. */
  function LevelAfter(steps: seq<WalkStep>, level: int): int
    decreases |steps|
  {
    if |steps| == 0 then level else LevelAfter(steps[1..], level + Delta(steps[0]))
  }

  /** Tables opened minus tables closed. */
  function Net(steps: seq<WalkStep>): int
    decreases |steps|
  {
    if |steps| == 0 then 0 else Delta(steps[0]) + Net(steps[1..])
  }

  /** Every table closed, and none closed before it was opened. */
  predicate Balanced(steps: seq<WalkStep>)
  {
    Net(steps) == 0 && forall k :: 0 <= k <= |steps| ==> Net(steps[..k]) >= 0
  }

  lemma {:induction false} LevelAfterIsNet(steps: seq<WalkStep>, level: int)
    ensures LevelAfter(steps, level) == level + Net(steps)
    decreases |steps|
  {
    if |steps| > 0 {
      LevelAfterIsNet(steps[1..], level + Delta(steps[0]));
    }
  }

  lemma {:induction false} NetAppend(a: seq<WalkStep>, b: seq<WalkStep>)
    ensures Net(a + b) == Net(a) + Net(b)
    decreases |a|
  {
    if |a| > 0 {
      assert (a + b)[1..] == a[1..] + b;
      NetAppend(a[1..], b);
    } else {
      assert a + b == b;
    }
  }

  /** A balanced walk gives the depth back, and never goes below where it started. */
  lemma BalancedRestoresDepth(steps: seq<WalkStep>, level: int)
    requires Balanced(steps)
    ensures LevelAfter(steps, level) == level
    ensures forall k :: 0 <= k <= |steps| ==> LevelAfter(steps[..k], level) >= level
  {
    LevelAfterIsNet(steps, level);
    forall k | 0 <= k <= |steps| ensures LevelAfter(steps[..k], level) >= level {
      LevelAfterIsNet(steps[..k], level);
    }
  }

  /** Wrapping a balanced walk in one more table, or following it by another, stays balanced. */
  lemma BalancedComposes(a: seq<WalkStep>, b: seq<WalkStep>, fqn: string, idx: int)
    requires Balanced(a) && Balanced(b)
    ensures Balanced(a + b)
    ensures Balanced([Enter(fqn, idx)] + a + [Exit(fqn, idx)])
  {
    NetAppend(a, b);
    forall k | 0 <= k <= |a + b| ensures Net((a + b)[..k]) >= 0 {
      if k <= |a| {
        assert (a + b)[..k] == a[..k];
      } else {
        assert (a + b)[..k] == a + b[..k - |a|];
        NetAppend(a, b[..k - |a|]);
      }
    }
    var w := [Enter(fqn, idx)] + a + [Exit(fqn, idx)];
    NetAppend([Enter(fqn, idx)] + a, [Exit(fqn, idx)]);
    NetAppend([Enter(fqn, idx)], a);
    assert [Exit(fqn, idx)][1..] == [];
    assert ([Enter(fqn, idx)])[1..] == [];
    forall k | 0 <= k <= |w| ensures Net(w[..k]) >= 0 {
      if k == 0 {
        assert w[..k] == [];
      } else if k <= |a| + 1 {
        assert w[..k] == [Enter(fqn, idx)] + a[..k - 1];
        NetAppend([Enter(fqn, idx)], a[..k - 1]);
      } else {
        assert w[..k] == w;
      }
    }
  }

  /** Drives a module through the steps, as the configuration parser does; the hooks' answers in order. */
  method Replay(m: Module, steps: seq<WalkStep>) returns (oks: seq<bool>)
    requires m.Valid()
    modifies m`tableLevel
    ensures m.Valid()
    ensures m.tableLevel == LevelAfter(steps, old(m.tableLevel))
    ensures |oks| == |steps|
    ensures forall i :: 0 <= i < |steps| ==>
              oks[i] == if steps[i].Enter? then m.hooks.begin(steps[i].fqn, steps[i].idx)
                        else m.hooks.end(steps[i].fqn, steps[i].idx)
  {
    oks := [];
    var i := 0;
    while i < |steps|
      invariant 0 <= i <= |steps| && |oks| == i
      invariant m.Valid()
      invariant LevelAfter(steps, old(m.tableLevel)) == LevelAfter(steps[i..], m.tableLevel)
      invariant forall j :: 0 <= j < i ==>
                  oks[j] == if steps[j].Enter? then m.hooks.begin(steps[j].fqn, steps[j].idx)
                            else m.hooks.end(steps[j].fqn, steps[j].idx)
    {
      var ok;
      assert steps[i..][1..] == steps[i + 1..];
      match steps[i] {
        case Enter(fqn, idx) => ok := m.VerifiedBegin(fqn, idx);
        case Exit(fqn, idx) => ok := m.VerifiedEnd(fqn, idx);
      }
      oks := oks + [ok];
      i := i + 1;
    }
  }
}

/**
 * Parameter schemas (`Parameter` arrays ended by a null-named sentinel) and
 * the help-text rendering `Command::get_arg_list`.
 */
module Parameters {
  import opened Wrappers

  /** `Parameter::Type`; only the kinds this file uses are told apart. */
  datatype ParamKind = PtInt | PtBool | PtString | PtTable | PtOther | PtMax

  /** The range field: nothing, a range string (never interpreted here), or a nested schema. */
  datatype Range = NoRange | Text(text: string) | Table(rows: seq<Parameter>)

  datatype Parameter = Parameter(
    name: Option<string>,
    kind: ParamKind,
    range: Range,
    deflt: Option<string>,
    help: Option<string>)

  /** `{ nullptr, Parameter::PT_MAX, nullptr, nullptr, nullptr }` */
  const Sentinel := Parameter(None, PtMax, NoRange, None, None)

  /** The C array holds a null-named terminator, so a scan by name stops inside it. */
  predicate Terminated(ps: seq<Parameter>)
  {
    exists i :: 0 <= i < |ps| && ps[i].name.None?
  }

  /** The option names before the first null name. */
  function Names(ps: seq<Parameter>): (ns: seq<string>)
    ensures |ns| <= |ps|
    ensures forall i :: 0 <= i < |ns| ==> ps[i].name == Some(ns[i])
    ensures |ns| < |ps| ==> ps[|ns|].name.None?
    ensures Terminated(ps) ==> |ns| < |ps|
  {
    if |ps| == 0 || ps[0].name.None? then [] else [ps[0].name.value] + Names(ps[1..])
  }

  /** Names joined by ", ", built left to right as the rendering loop does. */
  function Join(ns: seq<string>): string
  {
    if |ns| == 0 then ""
    else if |ns| == 1 then ns[0]
    else Join(ns[..|ns| - 1]) + ", " + ns[|ns| - 1]
  }

  /** A reference definition of the joined list: the first name, then ", " before each other one. */
  function JoinFront(ns: seq<string>): string
  {
    if |ns| == 0 then "" else ns[0] + SeparatedTail(ns[1..])
  }

  function SeparatedTail(ns: seq<string>): string
  {
    if |ns| == 0 then "" else ", " + ns[0] + SeparatedTail(ns[1..])
  }

  /** The text `Command::get_arg_list` returns for a (possibly null) parameter array. */
  function ArgList(params: Option<seq<Parameter>>): string
  {
    "(" + Join(if params.None? then [] else Names(params.value)) + ")"
  }

  /** A command of the shell interface; only what `get_arg_list` needs. */
  datatype Command = Command(name: string, params: Option<seq<Parameter>>, help: string)

  /** `Command::get_arg_list`: renders the option names as "(a, b, c)". */
  method GetArgList(cmd: Command) returns (args: string)
    requires cmd.params.Some? ==> Terminated(cmd.params.value)
    ensures args == ArgList(cmd.params)
  {
    args := "(";
    if cmd.params.Some? {
      var ps := cmd.params.value;
      ghost var ns := Names(ps);
      var p := 0;
      while ps[p].name.Some?
        invariant 0 <= p <= |ns|
        invariant args == "(" + Join(ns[..p])
        decreases |ns| - p
      {
        assert ns[..p + 1][..p] == ns[..p];
        if p != 0 {
          args := args + ", ";
        }
        args := args + ps[p].name.value;
        p := p + 1;
      }
      assert ns[..p] == ns;
    }
    args := args + ")";
  }

  lemma {:induction false} SeparatedTailSnoc(ns: seq<string>, x: string)
    ensures SeparatedTail(ns + [x]) == SeparatedTail(ns) + ", " + x
    decreases |ns|
  {
    if |ns| == 0 {
      assert ns + [x] == [x];
      assert ([x])[1..] == [];
    } else {
      assert (ns + [x])[1..] == ns[1..] + [x];
      SeparatedTailSnoc(ns[1..], x);
    }
  }

  /** Joining left to right agrees with the reference definition. */
  lemma {:induction false} JoinIsJoinFront(ns: seq<string>)
    ensures Join(ns) == JoinFront(ns)
    decreases |ns|
  {
    if |ns| == 1 {
      assert ns[1..] == [];
    } else if |ns| > 1 {
      var init, last := ns[..|ns| - 1], ns[|ns| - 1];
      JoinIsJoinFront(init);
      SeparatedTailSnoc(init[1..], last);
      assert init[1..] + [last] == ns[1..];
    }
  }

  /** A null list, or one whose first entry is the sentinel, renders as "()". */
  lemma EmptyArgList(params: Option<seq<Parameter>>)
    requires params.None? || (|params.value| > 0 && params.value[0].name.None?)
    ensures ArgList(params) == "()"
  {
  }

  /** A list with a single name n renders as "(n)". */
  lemma SingleArgList(ps: seq<Parameter>, n: string)
    requires |ps| >= 2 && ps[0].name == Some(n) && ps[1].name.None?
    ensures ArgList(Some(ps)) == "(" + n + ")"
  {
    assert Names(ps[1..]) == [];
  }

  /** The scan stops at the sentinel: whatever follows it is never read. */
  lemma {:induction false} NamesStopAtSentinel(ps: seq<Parameter>, rest: seq<Parameter>)
    requires Terminated(ps)
    ensures Names(ps + rest) == Names(ps)
    decreases |ps|
  {
    if ps[0].name.Some? {
      assert (ps + rest)[1..] == ps[1..] + rest;
      var i :| 0 <= i < |ps| && ps[i].name.None?;
      assert ps[1..][i - 1].name.None?;
      NamesStopAtSentinel(ps[1..], rest);
    }
  }

  /** The rendered list is "(" + the first name + ", " before each later name + ")". */
  lemma ArgListShape(ps: seq<Parameter>)
    ensures ArgList(Some(ps)) == "(" + JoinFront(Names(ps)) + ")"
  {
    JoinIsJoinFront(Names(ps));
  }

  /** `default_trace`: the one option of the built-in trace table. */
  const DefaultTrace: seq<Parameter> := [
    Parameter(Some("all"), PtInt, Text("0:max32"), Some("0"), Some("enabling traces in module")),
    Sentinel
  ]

  /** `default_trace_params`: the `trace` table a module gets when it names no trace schema of its own. */
  const DefaultTraceParams: seq<Parameter> := [
    Parameter(Some("trace"), PtTable, Table(DefaultTrace), None, Some("trace config")),
    Sentinel
  ]

  /** What `init` points `params` at: the terminator of `default_trace_params`, an empty list. */
  const NoParams: seq<Parameter> := [Sentinel]
}

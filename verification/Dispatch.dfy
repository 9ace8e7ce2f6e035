/** The tools of src/adiak.c and who is called for an event. */
module Dispatch {
  import opened AdiakTypes
  import opened Views
  import Records

  /** A registered tool, known by its block; the callback without info is preferred. */
  datatype ToolInfo = ToolInfo(self: nat, category: int, onAllRanks: bool, plain: bool, withInfo: bool)

  /** What is raised; the info is that of the record, so that a control event has none. */
  datatype Event = Event(name: string, category: int, subcategory: Option<string>, value: Value, dtype: DType,
                         info: Option<Records.Info>)

  /** A callback: the one without info is told the category, the one with info learns it from the info. */
  datatype Call =
    | PlainCall(tool: nat, name: string, category: int, subcategory: Option<string>, value: Value, dtype: DType)
    | InfoCall(tool: nat, name: string, value: Value, dtype: DType, info: Option<Records.Info>)

  predicate Wants(t: ToolInfo, e: Event, reportable: bool) {
    && (t.onAllRanks || reportable)
    && (t.category == Records.CATEGORY_ALL || t.category == e.category)
    && (t.plain || t.withInfo)
  }

  function CallOf(t: ToolInfo, e: Event): Call {
    if t.plain then PlainCall(t.self, e.name, e.category, e.subcategory, e.value, e.dtype)
    else InfoCall(t.self, e.name, e.value, e.dtype, e.info)
  }

  /** The calls that the tools from i on get for an event, in the order of the list. */
  function Dispatched(ts: seq<ToolInfo>, e: Event, reportable: bool, i: nat): seq<Call>
    requires i <= |ts|
    decreases |ts| - i
  {
    if i == |ts| then []
    else (if Wants(ts[i], e, reportable) then [CallOf(ts[i], e)] else []) + Dispatched(ts, e, reportable, i + 1)
  }

  /** One tool further. */
  lemma DispatchedStep(ts: seq<ToolInfo>, e: Event, reportable: bool, i: nat, done: seq<Call>, all: seq<Call>)
    requires i < |ts| && done + Dispatched(ts, e, reportable, i) == all
    ensures (done + if Wants(ts[i], e, reportable) then [CallOf(ts[i], e)] else [])
            + Dispatched(ts, e, reportable, i + 1) == all
  {
    var here := if Wants(ts[i], e, reportable) then [CallOf(ts[i], e)] else [];
    var rest := Dispatched(ts, e, reportable, i + 1);
    assert done + (here + rest) == (done + here) + rest;
  }

  // ---------------------------------------------------------------- whole runs

  datatype Op = Register(t: ToolInfo) | Raise(e: Event)

  /** The tools after a sequence of operations, newest first. */
  function ToolsAfter(ops: seq<Op>): seq<ToolInfo> {
    if ops == [] then []
    else
      var rest := ToolsAfter(ops[..|ops| - 1]);
      match ops[|ops| - 1]
      case Register(t) => [t] + rest
      case Raise(_) => rest
  }

  /** All calls made in a sequence of operations. */
  function LogAfter(ops: seq<Op>, reportable: bool): seq<Call> {
    if ops == [] then []
    else
      var before := ops[..|ops| - 1];
      match ops[|ops| - 1]
      case Register(_) => LogAfter(before, reportable)
      case Raise(e) => LogAfter(before, reportable) + Dispatched(ToolsAfter(before), e, reportable, 0)
  }

  /** The calls of one tool. */
  function Heard(calls: seq<Call>, tool: nat): seq<Call> {
    if calls == [] then []
    else Heard(calls[..|calls| - 1], tool) + if calls[|calls| - 1].tool == tool then [calls[|calls| - 1]] else []
  }

  /** What a tool should hear of a sequence of operations after its registration. */
  function Due(t: ToolInfo, ops: seq<Op>, reportable: bool): seq<Call> {
    if ops == [] then []
    else
      var last := ops[|ops| - 1];
      Due(t, ops[..|ops| - 1], reportable)
        + if last.Raise? && Wants(t, last.e, reportable) then [CallOf(t, last.e)] else []
  }

  ghost predicate Registers(ops: seq<Op>, tool: nat) {
    exists i :: 0 <= i < |ops| && ops[i].Register? && ops[i].t.self == tool
  }

  lemma {:induction false} HeardAppend(a: seq<Call>, b: seq<Call>, tool: nat)
    ensures Heard(a + b, tool) == Heard(a, tool) + Heard(b, tool)
  {
    if b == [] {
      assert a + b == a;
    } else {
      HeardAppend(a, b[..|b| - 1], tool);
      assert (a + b)[..|a + b| - 1] == a + b[..|b| - 1];
    }
  }

  /** One event reaches a tool at most once. */
  lemma {:induction false} HeardOfEvent(ts: seq<ToolInfo>, e: Event, reportable: bool, i: nat, tool: nat)
    requires i <= |ts| && forall j, k :: 0 <= j < k < |ts| ==> ts[j].self != ts[k].self
    ensures (forall k :: i <= k < |ts| ==> ts[k].self != tool) ==> Heard(Dispatched(ts, e, reportable, i), tool) == []
    ensures forall k :: i <= k < |ts| && ts[k].self == tool ==>
              Heard(Dispatched(ts, e, reportable, i), tool)
              == if Wants(ts[k], e, reportable) then [CallOf(ts[k], e)] else []
    decreases |ts| - i
  {
    if i < |ts| {
      HeardOfEvent(ts, e, reportable, i + 1, tool);
      var first := if Wants(ts[i], e, reportable) then [CallOf(ts[i], e)] else [];
      HeardAppend(first, Dispatched(ts, e, reportable, i + 1), tool);
      assert first == [] || first[..|first| - 1] == [];
    }
  }

  ghost predicate NoToolTwice(ops: seq<Op>) {
    forall i, j :: 0 <= i < j < |ops| && ops[i].Register? && ops[j].Register? ==> ops[i].t.self != ops[j].t.self
  }

  lemma {:induction false} ToolsOf(ops: seq<Op>)
    requires NoToolTwice(ops)
    ensures forall t :: t in ToolsAfter(ops) <==> Register(t) in ops
    ensures forall j, k :: 0 <= j < k < |ToolsAfter(ops)| ==> ToolsAfter(ops)[j].self != ToolsAfter(ops)[k].self
  {
    if ops != [] {
      var before, last := ops[..|ops| - 1], ops[|ops| - 1];
      ToolsOf(before);
      assert ops == before + [last];
      if last.Register? {
        forall k | 0 <= k < |ToolsAfter(before)| ensures ToolsAfter(before)[k].self != last.t.self {
          var i :| 0 <= i < |before| && before[i] == Register(ToolsAfter(before)[k]);
          assert ops[i] == before[i];
        }
      }
    }
  }

  lemma {:induction false} NeverRegistered(ops: seq<Op>, reportable: bool, tool: nat)
    requires NoToolTwice(ops) && !Registers(ops, tool)
    ensures Heard(LogAfter(ops, reportable), tool) == []
  {
    if ops != [] {
      var before, last := ops[..|ops| - 1], ops[|ops| - 1];
      NeverRegistered(before, reportable, tool);
      if last.Raise? {
        ToolsOf(before);
        forall k | 0 <= k < |ToolsAfter(before)| ensures ToolsAfter(before)[k].self != tool {
          var i :| 0 <= i < |before| && before[i] == Register(ToolsAfter(before)[k]);
          assert ops[i] == before[i];
        }
        HeardOfEvent(ToolsAfter(before), last.e, reportable, 0, tool);
        HeardAppend(LogAfter(before, reportable), Dispatched(ToolsAfter(before), last.e, reportable, 0), tool);
      }
    }
  }

  /** Each tool hears exactly the events raised after its registration that it wants, once each and
      in order. */
  lemma {:induction false} ToolHears(before: seq<Op>, t: ToolInfo, after: seq<Op>, reportable: bool)
    requires NoToolTwice(before + [Register(t)] + after)
    ensures Heard(LogAfter(before + [Register(t)] + after, reportable), t.self) == Due(t, after, reportable)
    decreases |after|
  {
    var ops := before + [Register(t)] + after;
    if after == [] {
      assert ops[..|ops| - 1] == before && ops[|ops| - 1] == Register(t);
      NotBefore(before, t);
      NeverRegistered(before, reportable, t.self);
    } else {
      var most, last := after[..|after| - 1], after[|after| - 1];
      var shorter := before + [Register(t)] + most;
      assert ops[..|ops| - 1] == shorter && ops[|ops| - 1] == last;
      ToolHears(before, t, most, reportable);
      if last.Raise? {
        ToolsOf(shorter);
        assert shorter[|before|] == Register(t);
        var k :| 0 <= k < |ToolsAfter(shorter)| && ToolsAfter(shorter)[k] == t;
        HeardOfEvent(ToolsAfter(shorter), last.e, reportable, 0, t.self);
        HeardAppend(LogAfter(shorter, reportable), Dispatched(ToolsAfter(shorter), last.e, reportable, 0), t.self);
      }
    }
  }

  /** The same for an operation in the middle of a run. */
  lemma HeardSince(ops: seq<Op>, m: nat, reportable: bool)
    requires NoToolTwice(ops) && m < |ops| && ops[m].Register?
    ensures Heard(LogAfter(ops, reportable), ops[m].t.self) == Due(ops[m].t, ops[m + 1..], reportable)
  {
    assert ops == ops[..m] + [Register(ops[m].t)] + ops[m + 1..];
    ToolHears(ops[..m], ops[m].t, ops[m + 1..], reportable);
  }

  lemma NotBefore(before: seq<Op>, t: ToolInfo)
    requires NoToolTwice(before + [Register(t)])
    ensures !Registers(before, t.self)
  {
    var ops := before + [Register(t)];
    forall i | 0 <= i < |before| && before[i].Register? ensures before[i].t.self != t.self {
      assert ops[i] == before[i] && ops[|before|] == Register(t);
    }
  }

  /** A tool that registered later stands further in front. */
  lemma {:induction false} NewerInFront(ops: seq<Op>, i: nat, j: nat)
    requires NoToolTwice(ops) && i < j < |ops| && ops[i].Register? && ops[j].Register?
    ensures exists k, l ::
        0 <= k < l < |ToolsAfter(ops)| && ToolsAfter(ops)[k] == ops[j].t && ToolsAfter(ops)[l] == ops[i].t
  {
    var before, last := ops[..|ops| - 1], ops[|ops| - 1];
    if j == |ops| - 1 {
      ToolsOf(before);
      assert before[i] == ops[i];
      var m :| 0 <= m < |ToolsAfter(before)| && ToolsAfter(before)[m] == ops[i].t;
      assert ToolsAfter(ops)[0] == ops[j].t && ToolsAfter(ops)[m + 1] == ops[i].t;
    } else {
      NewerInFront(before, i, j);
      var k, l :| 0 <= k < l < |ToolsAfter(before)| && ToolsAfter(before)[k] == ops[j].t &&
        ToolsAfter(before)[l] == ops[i].t;
      var d := if last.Register? then 1 else 0;
      assert ToolsAfter(ops)[k + d] == ops[j].t && ToolsAfter(ops)[l + d] == ops[i].t;
    }
  }

  // ---------------------------------------------------------------- order within an event

  /** The call x is made before the call y. */
  ghost predicate Before(calls: seq<Call>, x: Call, y: Call) {
    exists a, b :: 0 <= a < b < |calls| && calls[a] == x && calls[b] == y
  }

  lemma {:induction false} IsCalled(ts: seq<ToolInfo>, e: Event, reportable: bool, i: nat, k: nat) returns (a: nat)
    requires i <= k < |ts| && Wants(ts[k], e, reportable)
    ensures a < |Dispatched(ts, e, reportable, i)| && Dispatched(ts, e, reportable, i)[a] == CallOf(ts[k], e)
    decreases k - i
  {
    if i == k {
      a := 0;
    } else {
      a := IsCalled(ts, e, reportable, i + 1, k);
      a := a + if Wants(ts[i], e, reportable) then 1 else 0;
    }
  }

  /** The calls for an event are in the order of the list. */
  lemma {:induction false} CalledInOrder(ts: seq<ToolInfo>, e: Event, reportable: bool, i: nat, k: nat, l: nat)
    requires i <= k < l < |ts| && Wants(ts[k], e, reportable) && Wants(ts[l], e, reportable)
    ensures Before(Dispatched(ts, e, reportable, i), CallOf(ts[k], e), CallOf(ts[l], e))
    decreases k - i
  {
    var rest := Dispatched(ts, e, reportable, i + 1);
    var all := Dispatched(ts, e, reportable, i);
    if i == k {
      var b := IsCalled(ts, e, reportable, i + 1, l);
      assert all[0] == CallOf(ts[k], e) && all[b + 1] == rest[b];
    } else {
      CalledInOrder(ts, e, reportable, i + 1, k, l);
      var a, b :| 0 <= a < b < |rest| && rest[a] == CallOf(ts[k], e) && rest[b] == CallOf(ts[l], e);
      var d := if Wants(ts[i], e, reportable) then 1 else 0;
      assert all[a + d] == rest[a] && all[b + d] == rest[b];
    }
  }

  /** Within one event a tool that registered later is called earlier. */
  lemma NewestFirst(ops: seq<Op>, i: nat, j: nat, e: Event, reportable: bool)
    requires NoToolTwice(ops) && i < j < |ops| && ops[i].Register? && ops[j].Register?
    requires Wants(ops[i].t, e, reportable) && Wants(ops[j].t, e, reportable)
    ensures Before(Dispatched(ToolsAfter(ops), e, reportable, 0), CallOf(ops[j].t, e), CallOf(ops[i].t, e))
  {
    NewerInFront(ops, i, j);
    var k: nat, l: nat :| k < l < |ToolsAfter(ops)| && ToolsAfter(ops)[k] == ops[j].t && ToolsAfter(ops)[l] == ops[i].t;
    CalledInOrder(ToolsAfter(ops), e, reportable, 0, k, l);
  }
}

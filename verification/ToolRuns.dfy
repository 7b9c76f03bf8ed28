/**
 The stored log and the live tracker tell the same story: for every turn, folding the emitted events
 gives the tracker's own list, each tool is closed at most once, and a turn leaves a tool running
 exactly when a key was opened again while it was still open.
 */
module ToolRuns {
  import opened Wrappers
  import opened Numerals
  import opened ToolLog

  lemma ToolIdInjective(m: nat, n: nat)
    ensures ToolId(m) == ToolId(n) <==> m == n
    ensures ToolId(m) != ""
  {
    if ToolId(m) == ToolId(n) {
      assert ToolId(m)[5..] == Render(m, Ten) && ToolId(n)[5..] == Render(n, Ten);
      RenderInjective(m, n, Ten);
    }
  }

  // ---- Folding one more event ----

  lemma {:induction false} UpsertNew(tools: seq<Tool>, tool: Tool)
    requires forall i | 0 <= i < |tools| :: tools[i].id != tool.id
    ensures Upsert(tools, tool) == tools + [tool]
  {
    if tools == [] {
    } else {
      UpsertNew(tools[1..], tool);
    }
  }

  lemma {:induction false} UpsertKnown(tools: seq<Tool>, i: nat, tool: Tool)
    requires i < |tools| && tools[i].id == tool.id
    requires forall j | 0 <= j < i :: tools[j].id != tool.id
    ensures Upsert(tools, tool) == tools[i := tool]
  {
    if i == 0 {
    } else {
      UpsertKnown(tools[1..], i - 1, tool);
      assert tools[i := tool] == [tools[0]] + tools[1..][i - 1 := tool];
    }
  }

  /** Folding a tracker's own list into itself changes nothing. */
  lemma {:induction false} UpsertAllSelf(tools: seq<Tool>, k: nat)
    requires IdsOk(tools) && k <= |tools|
    ensures UpsertAll(tools, tools[..k]) == tools
  {
    if k == 0 {
    } else {
      assert tools[..k][..k - 1] == tools[..k - 1];
      UpsertAllSelf(tools, k - 1);
      DistinctIds(tools, k - 1);
      UpsertKnown(tools, k - 1, tools[k - 1]);
    }
  }

  lemma DistinctIds(tools: seq<Tool>, i: nat)
    requires IdsOk(tools) && i < |tools|
    ensures tools[i].id != ""
    ensures forall j | 0 <= j < |tools| && j != i :: tools[j].id != tools[i].id
  {
    forall j | 0 <= j < |tools| ensures tools[j].id == tools[i].id ==> j == i && tools[j].id != "" {
      ToolIdInjective(j + 1, i + 1);
    }
  }

  // ---- The log matches the tracker ----

  /** How often the log closes this tool. */
  function CloseCount(log: seq<Event>, id: string): nat {
    if log == [] then 0
    else
      var e := log[|log| - 1];
      CloseCount(log[..|log| - 1], id) + if e.ToolEvent? && e.tool.id == id && !e.tool.phase.Running? then 1 else 0
  }

  /** One if tool `n` is known and no longer running. */
  function IsClosed(tools: seq<Tool>, n: nat): nat {
    if 1 <= n <= |tools| && !tools[n - 1].phase.Running? then 1 else 0
  }

  ghost predicate Matches(v: Tracker, log: seq<Event>) {
    && FoldTools(log) == v.tools
    && forall n: nat :: CloseCount(log, ToolId(n)) == IsClosed(v.tools, n)
  }

  lemma Append(log: seq<Event>, e: Event)
    ensures (log + [e])[..|log + [e]| - 1] == log
  {
  }

  lemma QuietEventMatches(v: Tracker, log: seq<Event>, e: Event)
    requires Inv(v) && Matches(v, log)
    requires !e.ToolEvent? && (e.AssistantMessage? && e.tools.Some? ==> e.tools.value == v.tools)
    ensures Matches(v, log + [e])
  {
    Append(log, e);
    UpsertAllSelf(v.tools, |v.tools|);
    assert v.tools[..|v.tools|] == v.tools;
  }

  lemma StartMatches(v: Tracker, log: seq<Event>, key: string, name: string, summary: string)
    requires Inv(v) && Matches(v, log)
    ensures var (w, tool) := Start(v, key, name, summary);
            Matches(w, log + [ToolEvent(tool)])
  {
    var (w, tool) := Start(v, key, name, summary);
    Append(log, ToolEvent(tool));
    StartKeepsInv(v, key, name, summary);
    DistinctIds(w.tools, |v.tools|);
    forall i | 0 <= i < |v.tools| ensures v.tools[i].id != tool.id {
      assert v.tools[i] == w.tools[i];
    }
    UpsertNew(v.tools, tool);
  }

  lemma FinishMatches(v: Tracker, log: seq<Event>, key: string, phase: Phase)
    requires Inv(v) && Matches(v, log) && !phase.Running?
    ensures var (w, tool) := Finish(v, key, phase);
            Matches(w, log + Closing(tool))
  {
    var (w, tool) := Finish(v, key, phase);
    if tool.Some? {
      var i := v.open[key];
      Append(log, ToolEvent(tool.value));
      DistinctIds(v.tools, i);
      UpsertKnown(v.tools, i, tool.value);
      forall n: nat
        ensures CloseCount(log + Closing(tool), ToolId(n)) == IsClosed(w.tools, n)
      {
        ToolIdInjective(n, i + 1);
      }
    } else {
      assert log + [] == log;
    }
  }

  lemma {:induction false} CloseKeysMatches(v: Tracker, log: seq<Event>, keys: seq<string>, phase: Phase)
    requires Inv(v) && Matches(v, log) && !phase.Running?
    ensures var (w, events) := CloseKeys(v, keys, phase);
            Matches(w, log + events)
    decreases |keys|
  {
    if keys == [] {
      assert log + [] == log;
    } else {
      var (w, tool) := Finish(v, keys[0], phase);
      FinishMatches(v, log, keys[0], phase);
      FinishKeepsInv(v, keys[0], phase);
      CloseKeysMatches(w, log + Closing(tool), keys[1..], phase);
      var events := CloseKeys(w, keys[1..], phase).1;
      assert log + (Closing(tool) + events) == log + Closing(tool) + events;
    }
  }

  lemma StatusMatches(v: Tracker, log: seq<Event>, c: Callback)
    requires Inv(v) && Matches(v, log)
    ensures Matches(v, log + StatusOf(c))
  {
    if StatusOf(c) == [] {
      assert log + [] == log;
    } else {
      QuietEventMatches(v, log, StatusOf(c)[0]);
      assert StatusOf(c) == [StatusOf(c)[0]];
    }
  }

  lemma InterpretMatches(v: Tracker, log: seq<Event>, c: Callback)
    requires Inv(v) && Matches(v, log)
    ensures Matches(Interpret(v, c).0, log + Interpret(v, c).1)
  {
    StatusMatches(v, log, c);
    var before := log + StatusOf(c);
    match EffectOf(c)
    case Opens(key, name) =>
      StartMatches(v, before, key, name, c.summary);
      var tool := Start(v, key, name, c.summary).1;
      assert log + (StatusOf(c) + [ToolEvent(tool)]) == before + [ToolEvent(tool)];
    case Closes(key, phase) =>
      FinishMatches(v, before, key, phase);
      var tool := Finish(v, key, phase).1;
      assert log + (StatusOf(c) + Closing(tool)) == before + Closing(tool);
    case Neither =>
  }

  lemma PerformMatches(v: Tracker, log: seq<Event>, op: Op)
    requires Inv(v) && Matches(v, log) && OpOk(op)
    ensures Matches(Perform(v, op).0, log + Perform(v, op).1)
  {
    match op
    case Observe(c) => InterpretMatches(v, log, c);
    case CloseRemaining(phase) => CloseKeysMatches(v, log, v.order, phase);
    case Say(text) => QuietEventMatches(v, log, Token(text));
    case Commit(_, _) => QuietEventMatches(v, log, Perform(v, op).1[0]);
  }

  /**
   After every operation of every turn, the tool lines rebuilt from the log are the tracker's own, in
   the same order, and the log has closed each tool once if it is finished and not at all otherwise.
   */
  lemma {:induction false} LogMatchesTracker(ops: seq<Op>)
    requires forall i | 0 <= i < |ops| :: OpOk(ops[i])
    ensures Matches(Turn(ops).0, Turn(ops).1)
  {
    if ops == [] {
    } else {
      var before := ops[..|ops| - 1];
      LogMatchesTracker(before);
      PerformMatches(Turn(before).0, Turn(before).1, ops[|ops| - 1]);
    }
  }

  // ---- Inside an operation ----

  /** Each open key that is closed adds one event. */
  lemma {:induction false} CloseKeysEvents(v: Tracker, keys: seq<string>, phase: Phase, j: nat)
    requires InRange(v) && NoRepeats(keys) && (forall k | k in keys :: k in v.open) && j <= |keys|
    ensures var events := CloseKeys(v, keys, phase).1;
            |events| == |keys| && CloseKeys(v, keys[..j], phase).1 == events[..j]
    decreases |keys|
  {
    if keys == [] {
    } else {
      var (w, tool) := Finish(v, keys[0], phase);
      assert forall k | k in keys[1..] :: k in w.open by {
        forall k | k in keys[1..]
          ensures k in w.open
        {
          var i :| 0 <= i < |keys| - 1 && keys[1..][i] == k;
          assert keys[i + 1] == k && keys[0] != keys[i + 1];
        }
      }
      CloseKeysEvents(w, keys[1..], phase, if j == 0 then 0 else j - 1);
      var rest := CloseKeys(w, keys[1..], phase).1;
      assert CloseKeys(v, keys, phase).1 == [ToolEvent(tool.value)] + rest;
      if j > 0 {
        assert keys[..j][0] == keys[0] && keys[..j][1..] == keys[1..][..j - 1];
        assert ([ToolEvent(tool.value)] + rest)[..j] == [ToolEvent(tool.value)] + rest[..j - 1];
      }
    }
  }

  /** The tracker that a log shows which ends after the first j events of an operation. */
  function Between(v: Tracker, op: Op, j: nat): Tracker
    requires InRange(v) && j <= |Perform(v, op).1|
  {
    match op
    case CloseRemaining(phase) => if j <= |v.order| then CloseKeys(v, v.order[..j], phase).0 else v
    case _ => if j == |Perform(v, op).1| then Perform(v, op).0 else v
  }

  lemma {:induction false} SweepPrefixMatches(v: Tracker, log: seq<Event>, phase: Phase, j: nat)
    requires Inv(v) && Matches(v, log) && !phase.Running? && j <= |v.order|
    ensures var events := CloseKeys(v, v.order, phase).1;
            |events| == |v.order| && Matches(CloseKeys(v, v.order[..j], phase).0, log + events[..j])
  {
    CloseKeysEvents(v, v.order, phase, j);
    CloseKeysMatches(v, log, v.order[..j], phase);
  }

  lemma {:induction false} PrefixMatches(v: Tracker, log: seq<Event>, op: Op, j: nat)
    requires Inv(v) && Matches(v, log) && OpOk(op) && j <= |Perform(v, op).1|
    ensures Matches(Between(v, op, j), log + Perform(v, op).1[..j])
  {
    var events := Perform(v, op).1;
    if op.CloseRemaining? {
      CloseKeysEvents(v, v.order, op.phase, 0);
      SweepPrefixMatches(v, log, op.phase, j);
    } else if j == |events| {
      PerformMatches(v, log, op);
      assert events[..j] == events;
    } else if j == 0 {
      assert log + events[..j] == log;
    } else {
      assert op.Observe? && j == 1;
      StatusMatches(v, log, op.callback);
      assert events[..j] == StatusOf(op.callback);
    }
  }

  /**
   However much of a turn's log has been stored, even in the middle of an operation: the tool lines rebuilt from
   it are the tracker's as far as it got. A log that ends inside the closing sweep, whose events are emitted one by
   one after all records are closed, shows the first open keys closed and the others still running.
   */
  lemma {:induction false} EveryPrefixMatches(ops: seq<Op>, op: Op, j: nat)
    requires (forall i | 0 <= i < |ops| :: OpOk(ops[i])) && OpOk(op)
    requires j <= |Perform(Turn(ops).0, op).1|
    ensures var (v, log) := Turn(ops);
            FoldTools(log + Perform(v, op).1[..j]) == Between(v, op, j).tools
  {
    LogMatchesTracker(ops);
    PrefixMatches(Turn(ops).0, Turn(ops).1, op, j);
  }

  // ---- Tools left running ----

  /** A running tool that no open key stands for can never be closed. */
  ghost predicate HasOrphan(v: Tracker) {
    exists i :: 0 <= i < |v.tools| && IsOrphan(v, i)
  }

  ghost predicate IsOrphan(v: Tracker, i: nat)
    requires i < |v.tools|
  {
    v.tools[i].phase.Running? && forall k | k in v.open :: v.open[k] != i
  }

  predicate Reopens(v: Tracker, op: Op) {
    op.Observe? && EffectOf(op.callback).Opens? && EffectOf(op.callback).key in v.open
  }

  predicate EverReopens(ops: seq<Op>)
    requires forall i | 0 <= i < |ops| :: OpOk(ops[i])
  {
    ops != [] && (EverReopens(ops[..|ops| - 1]) || Reopens(Turn(ops[..|ops| - 1]).0, ops[|ops| - 1]))
  }

  lemma StartOrphans(v: Tracker, key: string, name: string, summary: string)
    requires Inv(v)
    ensures HasOrphan(Start(v, key, name, summary).0) <==> HasOrphan(v) || key in v.open
  {
    var w := Start(v, key, name, summary).0;
    forall i: nat | i < |v.tools|
      ensures IsOrphan(w, i) <==> IsOrphan(v, i) || (key in v.open && i == v.open[key])
    {
      assert w.tools[i] == v.tools[i];
      assert forall k | k in v.open && k != key :: w.open[k] == v.open[k];
    }
    assert w.open[key] == |v.tools|;
    if HasOrphan(w) {
      var i :| 0 <= i < |w.tools| && IsOrphan(w, i);
      assert i < |v.tools|;
      assert IsOrphan(v, i) || key in v.open;
    }
    if key in v.open {
      assert IsOrphan(w, v.open[key]);
    } else if HasOrphan(v) {
      var i :| 0 <= i < |v.tools| && IsOrphan(v, i);
      assert IsOrphan(w, i);
    }
  }

  lemma FinishOrphans(v: Tracker, key: string, phase: Phase)
    requires Inv(v) && !phase.Running?
    ensures HasOrphan(Finish(v, key, phase).0) <==> HasOrphan(v)
  {
    var w := Finish(v, key, phase).0;
    forall i: nat | i < |v.tools| ensures IsOrphan(w, i) <==> IsOrphan(v, i) {
      assert forall k | k in w.open :: w.open[k] == v.open[k];
    }
  }

  lemma {:induction false} CloseKeysOrphans(v: Tracker, keys: seq<string>, phase: Phase)
    requires Inv(v) && !phase.Running?
    ensures var w := CloseKeys(v, keys, phase).0;
            && (HasOrphan(w) <==> HasOrphan(v))
            && (forall k :: k in w.open <==> k in v.open && k !in keys)
    decreases |keys|
  {
    if keys == [] {
    } else {
      FinishOrphans(v, keys[0], phase);
      FinishKeepsInv(v, keys[0], phase);
      CloseKeysOrphans(Finish(v, keys[0], phase).0, keys[1..], phase);
    }
  }

  lemma PerformOrphans(v: Tracker, op: Op)
    requires Inv(v) && OpOk(op)
    ensures HasOrphan(Perform(v, op).0) <==> HasOrphan(v) || Reopens(v, op)
  {
    match op
    case Observe(c) =>
      match EffectOf(c) {
        case Opens(key, name) => StartOrphans(v, key, name, c.summary);
        case Closes(key, phase) => FinishOrphans(v, key, phase);
        case Neither =>
      }
    case CloseRemaining(phase) => CloseKeysOrphans(v, v.order, phase);
    case _ =>
  }

  lemma {:induction false} TurnOrphans(ops: seq<Op>)
    requires forall i | 0 <= i < |ops| :: OpOk(ops[i])
    ensures HasOrphan(Turn(ops).0) <==> EverReopens(ops)
  {
    if ops == [] {
    } else {
      TurnOrphans(ops[..|ops| - 1]);
      PerformOrphans(Turn(ops[..|ops| - 1]).0, ops[|ops| - 1]);
    }
  }

  /** Closing what remains leaves no tool running, exactly when no open key was ever opened again. */
  lemma EveryToolClosesUnlessReopened(ops: seq<Op>, phase: Phase)
    requires forall i | 0 <= i < |ops| :: OpOk(ops[i])
    requires !phase.Running?
    ensures var v := Turn(ops).0;
            var w := CloseKeys(v, v.order, phase).0;
            (forall i | 0 <= i < |w.tools| :: !w.tools[i].phase.Running?) <==> !EverReopens(ops)
  {
    var v := Turn(ops).0;
    var w := CloseKeys(v, v.order, phase).0;
    TurnOrphans(ops);
    CloseKeysOrphans(v, v.order, phase);
    forall i: nat | i < |w.tools| ensures IsOrphan(w, i) <==> w.tools[i].phase.Running? {}
  }

  lemma StartingTwiceReopens(c: Callback)
    requires EffectOf(c).Opens?
    ensures EverReopens([Observe(c), Observe(c)])
  {
    var one, two := [Observe(c)], [Observe(c), Observe(c)];
    assert two[..1] == one && one[..0] == [];
    assert Turn([]).0 == NEW;
    assert Turn(one).0 == Interpret(NEW, c).0;
    assert EffectOf(c).key in Turn(one).0.open;
  }

  /** Two starts of a tool without a run id have its name as their key: the first is left running for good. */
  lemma ReopenedToolStaysRunning()
    ensures var c := Callback(ToolStart, "search", "", None, "Searching");
            var v := Turn([Observe(c), Observe(c)]).0;
            var tools := CloseKeys(v, v.order, Succeeded).0.tools;
            exists i :: 0 <= i < |tools| && tools[i].phase.Running?
  {
    var c := Callback(ToolStart, "search", "", None, "Searching");
    StartingTwiceReopens(c);
    EveryToolClosesUnlessReopened([Observe(c), Observe(c)], Succeeded);
  }
}

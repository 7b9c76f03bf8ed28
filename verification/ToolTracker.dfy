/**
 The live tool tracker. A record is shared between the list of all records and the table of open
 keys, so closing it through the table changes what the list shows. Each method is proved to act as
 the value-level tracker of module ToolLog, which the ghost field `view` carries along.
 */
module ToolTracker {
  import opened Wrappers
  import opened Numerals
  import opened ToolLog
  import opened ToolRuns

  class ToolRecord {
    const id: string
    const name: string
    const summary: string
    var phase: Phase
    ghost const index: nat  // its place in the list of all records

    constructor (id: string, name: string, summary: string, ghost index: nat)
      ensures Payload() == Tool(id, name, Running, summary) && this.index == index
    {
      this.id, this.name, this.summary, phase, this.index := id, name, summary, Running, index;
    }

    function Payload(): Tool
      reads this
    {
      Tool(id, name, phase, summary)
    }
  }

  class ToolTracker {
    var n: nat
    var open: map<string, ToolRecord>
    var order: seq<string>  // the keys of `open`, oldest first
    var records: seq<ToolRecord>
    ghost var view: Tracker
    ghost var repr: set<ToolRecord>

    ghost predicate Valid()
      reads this, repr
    {
      && InRange(view)
      && n == |records| == |view.tools|
      && order == view.order && open.Keys == view.open.Keys
      && (forall i | 0 <= i < |records| ::
            records[i] in repr && records[i].index == i && records[i].Payload() == view.tools[i])
      && (forall k | k in open :: open[k] == records[view.open[k]])
    }

    constructor ()
      ensures Valid() && view == NEW && repr == {}
    {
      n, open, order, records, view, repr := 0, map[], [], [], NEW, {};
    }

    method Start(key: string, name: string, summary: string) returns (frame: Tool)
      requires Valid()
      modifies this
      ensures view == ToolLog.Start(old(view), key, name, summary).0
      ensures frame == ToolLog.Start(old(view), key, name, summary).1
      ensures frame == Tool("tool_" + Render(old(n) + 1, Ten), name, Running, summary)
      ensures Valid()
      ensures fresh(repr - old(repr))
    {
      var payload := new ToolRecord(ToolId(n + 1), name, summary, n);
      frame := payload.Payload();
      Register(key, name, summary, payload);
    }

    /** Shares a new record between the list and the table. */
    method Register(key: string, name: string, summary: string, payload: ToolRecord)
      requires Valid() && payload !in repr && payload.index == n
      requires payload.Payload() == ToolLog.Start(view, key, name, summary).1
      modifies this
      ensures view == ToolLog.Start(old(view), key, name, summary).0 && repr == old(repr) + {payload}
      ensures Valid()
    {
      order := if key in open then order else order + [key];
      n, open, records, repr, view := n + 1, open[key := payload], records + [payload], repr + {payload},
                                      ToolLog.Start(view, key, name, summary).0;
    }

    method Finish(key: string, phase: Phase) returns (frame: Option<Tool>)
      requires Valid()
      modifies this, repr
      ensures Valid() && (view, frame) == ToolLog.Finish(old(view), key, phase)
      ensures repr == old(repr)
    {
      if key !in open {
        return None;
      }
      var payload := open[key];
      open, order, payload.phase, view := open - {key}, Remove(order, key), phase,
                                          ToolLog.Finish(view, key, phase).0;
      return Some(Tool(payload.id, payload.name, phase, payload.summary));
    }

    method CloseRemaining(phase: Phase) returns (closed: seq<Event>)
      requires Valid()
      modifies this, repr
      ensures Valid() && (view, closed) == CloseKeys(old(view), old(view).order, phase)
      ensures repr == old(repr)
    {
      closed := [];
      var keys := order;
      ghost var whole := CloseKeys(view, keys, phase);
      var i := 0;
      while i < |keys|
        invariant i <= |keys| && Valid() && repr == old(repr)
        invariant CloseKeys(view, keys[i..], phase).0 == whole.0
        invariant closed + CloseKeys(view, keys[i..], phase).1 == whole.1
      {
        CloseKeysStep(view, keys, i, phase, closed);
        var frame := Finish(keys[i], phase);
        closed := closed + Closing(frame);
        i := i + 1;
      }
      assert keys[i..] == [];
      assert closed + [] == closed;
    }

    /** `interpret_graph_event`. */
    method Interpret(c: Callback) returns (frames: seq<Event>)
      requires Valid()
      modifies this, repr
      ensures Valid() && (view, frames) == ToolLog.Interpret(old(view), c)
      ensures fresh(repr - old(repr))
    {
      frames := StatusOf(c);
      match EffectOf(c) {
        case Opens(key, name) =>
          var frame := Start(key, name, c.summary);
          frames := frames + [ToolEvent(frame)];
        case Closes(key, phase) =>
          var frame := Finish(key, phase);
          frames := frames + Closing(frame);
        case Neither =>
      }
    }

    /** `_tool_snapshot`. */
    method Snapshot() returns (tools: seq<Tool>)
      requires Valid()
      ensures tools == view.tools
    {
      tools := [];
      var i := 0;
      while i < |records|
        invariant i <= |records| && tools == view.tools[..i]
      {
        tools := tools + [records[i].Payload()];
        i := i + 1;
      }
    }

    /** One operation of a turn, with the events it adds to the log. */
    method PerformOp(op: Op) returns (events: seq<Event>)
      requires Valid() && OpOk(op)
      modifies this, repr
      ensures Valid() && (view, events) == Perform(old(view), op)
      ensures fresh(repr - old(repr))
    {
      match op {
        case Observe(c) => events := Interpret(c);
        case CloseRemaining(phase) => events := CloseRemaining(phase);
        case Say(text) => events := [Token(text)];
        case Commit(content, cards) =>
          var tools := Snapshot();
          events := [AssistantMessage(content, cards, if tools == [] then None else Some(tools))];
      }
    }
  }

  lemma CloseKeysStep(v: Tracker, keys: seq<string>, i: nat, phase: Phase, closed: seq<Event>)
    requires InRange(v) && i < |keys|
    ensures var (w, tool) := ToolLog.Finish(v, keys[i], phase);
            && CloseKeys(v, keys[i..], phase).0 == CloseKeys(w, keys[i + 1..], phase).0
            && closed + CloseKeys(v, keys[i..], phase).1
               == closed + Closing(tool) + CloseKeys(w, keys[i + 1..], phase).1
  {
    assert keys[i..][0] == keys[i] && keys[i..][1..] == keys[i + 1..];
    var (w, tool) := ToolLog.Finish(v, keys[i], phase);
    assert closed + (Closing(tool) + CloseKeys(w, keys[i + 1..], phase).1)
           == closed + Closing(tool) + CloseKeys(w, keys[i + 1..], phase).1;
  }

  /** A whole turn on the live tracker: at the end the log folds back to what the tracker shows. */
  method RunTurn(ops: seq<Op>) returns (log: seq<Event>, shown: seq<Tool>)
    requires forall i | 0 <= i < |ops| :: OpOk(ops[i])
    ensures (log, shown) == (Turn(ops).1, Turn(ops).0.tools)
    ensures FoldTools(log) == shown
  {
    var tracker := new ToolTracker();
    log := [];
    var i := 0;
    while i < |ops|
      invariant i <= |ops| && tracker.Valid() && fresh(tracker) && fresh(tracker.repr)
      invariant (tracker.view, log) == Turn(ops[..i])
    {
      assert ops[..i + 1][..i] == ops[..i];
      var events := tracker.PerformOp(ops[i]);
      log := log + events;
      i := i + 1;
    }
    assert ops[..i] == ops;
    shown := tracker.Snapshot();
    LogMatchesTracker(ops);
  }
}

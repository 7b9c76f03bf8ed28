/**
 Tool lines of a tutor turn, on values: what the tracker knows (`Tracker`), the events it has emitted,
 and the fold that rebuilds the visible turn from a stored event log.
 */
module ToolLog {
  import opened Wrappers
  import opened Numerals
  import opened Text

  datatype Phase = Running | Succeeded | Failed

  datatype Tool = Tool(id: string, name: string, phase: Phase, summary: string)

  /** The events of a run's log, with the data the fold looks at. */
  datatype Event =
    | Status(node: string, extra: Option<string>)
    | ToolEvent(tool: Tool)
    | Token(text: string)
    | Card(id: string, card: string)
    | AssistantMessage(content: string, cards: Option<seq<(string, string)>>, tools: Option<seq<Tool>>)
    | Other

  // ---- The tracker ----

  /** Every tool seen, in order, and which of them the open keys stand for, oldest key first. */
  datatype Tracker = Tracker(tools: seq<Tool>, open: map<string, nat>, order: seq<string>)

  const NEW := Tracker([], map[], [])

  function ToolId(n: nat): string {
    "tool_" + Render(n, Ten)
  }

  function Start(v: Tracker, key: string, name: string, summary: string): (Tracker, Tool) {
    var tool := Tool(ToolId(|v.tools| + 1), name, Running, summary);
    (Tracker(v.tools + [tool], v.open[key := |v.tools|], if key in v.open then v.order else v.order + [key]), tool)
  }

  function Remove(order: seq<string>, key: string): (r: seq<string>)
    ensures forall k :: k in r <==> k in order && k != key
    ensures NoRepeats(order) ==> NoRepeats(r)
  {
    if order == [] then []
    else if order[0] == key then Remove(order[1..], key)
    else
      var rest := Remove(order[1..], key);
      assert NoRepeats(order) ==> NoRepeats(order[1..]) && order[0] !in order[1..];
      [order[0]] + rest
  }

  /** Removing a key leaves the others in their order. */
  lemma {:induction false} RemoveKeepsOrder(a: seq<string>, key: string, b: seq<string>)
    requires key !in a && key !in b
    ensures Remove(a + [key] + b, key) == a + b
  {
    if a == [] {
      assert ([key] + b)[1..] == b && [] + [key] + b == [key] + b;
      RemoveMissing(b, key);
    } else {
      assert (a + [key] + b)[1..] == a[1..] + [key] + b;
      RemoveKeepsOrder(a[1..], key, b);
    }
  }

  lemma {:induction false} RemoveMissing(order: seq<string>, key: string)
    requires key !in order
    ensures Remove(order, key) == order
  {
    if order == [] {
    } else {
      RemoveMissing(order[1..], key);
    }
  }

  predicate NoRepeats(order: seq<string>) {
    forall i, j | 0 <= i < j < |order| :: order[i] != order[j]
  }

  /** Open keys stand for tools that exist. */
  predicate InRange(v: Tracker) {
    forall k | k in v.open :: v.open[k] < |v.tools|
  }

  function Finish(v: Tracker, key: string, phase: Phase): (r: (Tracker, Option<Tool>))
    requires InRange(v)
    ensures InRange(r.0)
  {
    if key !in v.open then (v, None)
    else
      var tool := v.tools[v.open[key]].(phase := phase);
      (Tracker(v.tools[v.open[key] := tool], v.open - {key}, Remove(v.order, key)), Some(tool))
  }

  /** Ids are tool_1, tool_2, ...; open keys stand for distinct running tools. */
  ghost predicate Inv(v: Tracker) {
    IdsOk(v.tools) && OrderOk(v.open, v.order) && OpenOk(v.tools, v.open)
  }

  ghost predicate IdsOk(tools: seq<Tool>) {
    forall i | 0 <= i < |tools| :: tools[i].id == ToolId(i + 1)
  }

  ghost predicate OrderOk(open: map<string, nat>, order: seq<string>) {
    NoRepeats(order) && forall k :: k in order <==> k in open
  }

  ghost predicate OpenOk(tools: seq<Tool>, open: map<string, nat>) {
    && (forall k | k in open :: open[k] < |tools| && tools[open[k]].phase.Running?)
    && (forall j, k | j in open && k in open && open[j] == open[k] :: j == k)
  }

  lemma StartKeepsInv(v: Tracker, key: string, name: string, summary: string)
    requires Inv(v)
    ensures Inv(Start(v, key, name, summary).0)
  {
    var (w, tool) := Start(v, key, name, summary);
    assert IdsOk(w.tools);
    OpeningKeepsOrder(v.open, v.order, key, |v.tools|);
    OpeningKeepsOpen(v.tools, v.open, key, tool);
  }

  lemma OpeningKeepsOrder(open: map<string, nat>, order: seq<string>, key: string, n: nat)
    requires OrderOk(open, order)
    ensures OrderOk(open[key := n], if key in open then order else order + [key])
  {
  }

  lemma OpeningKeepsOpen(tools: seq<Tool>, open: map<string, nat>, key: string, tool: Tool)
    requires OpenOk(tools, open) && tool.phase.Running?
    ensures OpenOk(tools + [tool], open[key := |tools|])
  {
  }

  lemma FinishKeepsInv(v: Tracker, key: string, phase: Phase)
    requires Inv(v)
    ensures Inv(Finish(v, key, phase).0)
  {
  }

  // ---- Callbacks ----

  const STATUS_NODES := {
    "classify_intent", "chitchat", "sql_agent", "load_memory", "summarize", "retrieve",
    "grade_documents", "rewrite_question", "rerank", "generate_answer", "ground_answer", "remember",
    "pick_domain", "action_agent", "action_tools", "inspect_action_tools", "await_action_approval",
    "execute_action", "action_outcome" }

  const NODE_TOOLS := {"grade_documents"}

  datatype Kind = ChainStart | ChainEnd | ChainError | ToolStart | ToolEnd | ToolError | OtherKind

  /** A graph callback; `decision` is what the end of a node reports, `summary` the line for its name. */
  datatype Callback = Callback(kind: Kind, name: string, runId: string, decision: Option<string>, summary: string) {
    function Key(prefix: string): string {
      prefix + if runId != "" then runId else name
    }
  }

  /** A callback either opens a tool under a key, closes a key, or does neither. */
  datatype Effect = Opens(key: string, name: string) | Closes(key: string, phase: Phase) | Neither

  function EffectOf(c: Callback): Effect {
    match c.kind
    case ChainStart =>
      if c.name in STATUS_NODES && c.name in NODE_TOOLS then Opens(c.Key("node:"), c.name) else Neither
    case ChainEnd =>
      if c.name in STATUS_NODES && c.name in NODE_TOOLS then Closes(c.Key("node:"), Succeeded) else Neither
    case ChainError => if c.name in NODE_TOOLS then Closes(c.Key("node:"), Failed) else Neither
    case ToolStart => Opens(c.Key("tool:"), if c.name != "" then c.name else "tool")
    case ToolEnd => Closes(c.Key("tool:"), Succeeded)
    case ToolError => Closes(c.Key("tool:"), Failed)
    case OtherKind => Neither
  }

  /** The status line in front of the tool line, if any. */
  function StatusOf(c: Callback): seq<Event> {
    if c.kind.ChainStart? && c.name in STATUS_NODES then [Status(c.name, None)]
    else if c.kind.ChainEnd? && c.name in STATUS_NODES && c.decision.Some? then [Status(c.name, c.decision)]
    else []
  }

  function Closing(tool: Option<Tool>): seq<Event> {
    if tool.Some? then [ToolEvent(tool.value)] else []
  }

  function Interpret(v: Tracker, c: Callback): (r: (Tracker, seq<Event>))
    requires InRange(v)
    ensures InRange(r.0)
  {
    match EffectOf(c)
    case Opens(key, name) =>
      var (w, tool) := Start(v, key, name, c.summary);
      (w, StatusOf(c) + [ToolEvent(tool)])
    case Closes(key, phase) =>
      var (w, tool) := Finish(v, key, phase);
      (w, StatusOf(c) + Closing(tool))
    case Neither => (v, StatusOf(c))
  }

  /** Node callbacks open and close the one node that shows as a tool; tool callbacks open and close tools. */
  lemma CallbackTable(c: Callback)
    ensures var key := if c.runId != "" then c.runId else c.name;
      EffectOf(c) ==
        if c.kind == ToolStart then Opens("tool:" + key, if c.name != "" then c.name else "tool")
        else if c.kind == ToolEnd then Closes("tool:" + key, Succeeded)
        else if c.kind == ToolError then Closes("tool:" + key, Failed)
        else if c.name != "grade_documents" then Neither
        else if c.kind == ChainStart then Opens("node:" + key, "grade_documents")
        else if c.kind == ChainEnd then Closes("node:" + key, Succeeded)
        else if c.kind == ChainError then Closes("node:" + key, Failed)
        else Neither
  {
  }

  /** A listed node shows a status when it starts, and when it ends with something to report. */
  lemma StatusTable(c: Callback)
    ensures c.name !in STATUS_NODES ==> StatusOf(c) == []
    ensures c.name in STATUS_NODES ==>
      StatusOf(c) ==
        if c.kind == ChainStart then [Status(c.name, None)]
        else if c.kind == ChainEnd && c.decision != None then [Status(c.name, c.decision)]
        else []
  {
  }

  /** A callback that opens shows a new running tool, whose key stands for it from then on. */
  lemma OpeningShows(v: Tracker, c: Callback)
    requires InRange(v) && EffectOf(c).Opens?
    ensures var (w, events) := Interpret(v, c);
      var tool := Tool("tool_" + Render(|v.tools| + 1, Ten), EffectOf(c).name, Running, c.summary);
      && w.tools == v.tools + [tool] && w.open == v.open[EffectOf(c).key := |v.tools|]
      && w.order == (if EffectOf(c).key in v.open then v.order else v.order + [EffectOf(c).key])
      && events == StatusOf(c) + [ToolEvent(tool)]
  {
  }

  /** One that closes shows the tool of its key in its new phase, once; an unknown key shows nothing. */
  lemma ClosingShows(v: Tracker, c: Callback)
    requires InRange(v) && EffectOf(c).Closes?
    ensures var (w, events) := Interpret(v, c);
      var key := EffectOf(c).key;
      if key in v.open then
        var tool := v.tools[v.open[key]].(phase := EffectOf(c).phase);
        && w.tools == v.tools[v.open[key] := tool] && w.open == v.open - {key} && w.order == Remove(v.order, key)
        && events == StatusOf(c) + [ToolEvent(tool)]
      else w == v && events == StatusOf(c)
  {
  }

  /** Closing a list of keys in order. */
  function CloseKeys(v: Tracker, keys: seq<string>, phase: Phase): (r: (Tracker, seq<Event>))
    requires InRange(v)
    ensures InRange(r.0)
    decreases |keys|
  {
    if keys == [] then (v, [])
    else
      var (w, tool) := Finish(v, keys[0], phase);
      var (u, events) := CloseKeys(w, keys[1..], phase);
      (u, Closing(tool) + events)
  }

  // ---- Rebuilding the turn from a log ----

  /** Assigning to a dictionary entry: known ids keep their place, new ones come last. */
  function Upsert(tools: seq<Tool>, tool: Tool): seq<Tool> {
    if tools == [] then [tool]
    else if tools[0].id == tool.id then [tool] + tools[1..]
    else [tools[0]] + Upsert(tools[1..], tool)
  }

  function UpsertAll(tools: seq<Tool>, more: seq<Tool>): seq<Tool> {
    if more == [] then tools
    else
      var before := UpsertAll(tools, more[..|more| - 1]);
      if more[|more| - 1].id != "" then Upsert(before, more[|more| - 1]) else before
  }

  function FoldTools(log: seq<Event>): seq<Tool> {
    if log == [] then []
    else
      var tools := FoldTools(log[..|log| - 1]);
      match log[|log| - 1]
      case ToolEvent(tool) => if tool.id != "" then Upsert(tools, tool) else tools
      case AssistantMessage(_, _, Some(more)) => UpsertAll(tools, more)
      case _ => tools
  }

  /** The text of the token events. */
  function FoldText(log: seq<Event>): string {
    if log == [] then ""
    else
      var text := FoldText(log[..|log| - 1]);
      if log[|log| - 1].Token? then text + log[|log| - 1].text else text
  }

  /** The last full message, which replaces the tokens. */
  function FoldFinal(log: seq<Event>): Option<string> {
    if log == [] then None
    else if log[|log| - 1].AssistantMessage? then Some(log[|log| - 1].content)
    else FoldFinal(log[..|log| - 1])
  }

  function FoldCards(log: seq<Event>): seq<(string, string)> {
    if log == [] then []
    else
      var cards := FoldCards(log[..|log| - 1]);
      match log[|log| - 1]
      case AssistantMessage(_, Some(all), _) => all
      case Card(id, card) => if id != "" then cards + [(id, card)] else cards
      case _ => cards
  }

  lemma {:induction false} FinalIsTheLastMessage(log: seq<Event>)
    ensures FoldFinal(log).None? <==> forall i | 0 <= i < |log| :: !log[i].AssistantMessage?
    ensures forall i | 0 <= i < |log| && log[i].AssistantMessage?
                       && (forall j | i < j < |log| :: !log[j].AssistantMessage?) ::
              FoldFinal(log) == Some(log[i].content)
  {
    if log == [] {
    } else {
      var before := log[..|log| - 1];
      FinalIsTheLastMessage(before);
      assert forall i | 0 <= i < |before| :: log[i] == before[i];
    }
  }

  /** `partial_from_events`. */
  method PartialFromEvents(log: seq<Event>)
    returns (content: string, cards: seq<(string, string)>, tools: seq<Tool>)
    ensures content == if FoldFinal(log).Some? then FoldFinal(log).value else Strip(FoldText(log))
    ensures forall i | 0 <= i < |log| && log[i].AssistantMessage?
                       && (forall j | i < j < |log| :: !log[j].AssistantMessage?) ::
              content == log[i].content
    ensures (forall i | 0 <= i < |log| :: !log[i].AssistantMessage?) ==> content == Strip(FoldText(log))
    ensures cards == FoldCards(log) && tools == FoldTools(log)
  {
    var text, final := "", None;
    cards, tools := [], [];
    var i := 0;
    while i < |log|
      invariant i <= |log|
      invariant text == FoldText(log[..i]) && final == FoldFinal(log[..i])
      invariant cards == FoldCards(log[..i]) && tools == FoldTools(log[..i])
    {
      assert log[..i + 1][..i] == log[..i];
      match log[i] {
        case Token(piece) => text := text + piece;
        case AssistantMessage(message, all, more) =>
          final := Some(message);
          if all.Some? {
            cards := all.value;
          }
          if more.Some? {
            tools := UpsertAll(tools, more.value);
          }
        case Card(id, card) =>
          if id != "" {
            cards := cards + [(id, card)];
          }
        case ToolEvent(tool) =>
          if tool.id != "" {
            tools := Upsert(tools, tool);
          }
        case _ =>
      }
      i := i + 1;
    }
    assert log[..i] == log;
    FinalIsTheLastMessage(log);
    content := if final.Some? then final.value else Strip(text);
  }

  // ---- Turns ----

  /** What the producer does with its tracker during a turn. */
  datatype Op =
    | Observe(callback: Callback)
    | CloseRemaining(phase: Phase)
    | Say(text: string)
    | Commit(content: string, cards: Option<seq<(string, string)>>)

  predicate OpOk(op: Op) {
    op.CloseRemaining? ==> !op.phase.Running?
  }

  function Perform(v: Tracker, op: Op): (r: (Tracker, seq<Event>))
    requires InRange(v)
    ensures InRange(r.0)
  {
    match op
    case Observe(c) => Interpret(v, c)
    case CloseRemaining(phase) => CloseKeys(v, v.order, phase)
    case Say(text) => (v, [Token(text)])
    case Commit(content, cards) =>
      (v, [AssistantMessage(content, cards, if v.tools == [] then None else Some(v.tools))])
  }

  function Turn(ops: seq<Op>): (r: (Tracker, seq<Event>))
    requires forall i | 0 <= i < |ops| :: OpOk(ops[i])
    ensures Inv(r.0)
  {
    if ops == [] then (NEW, [])
    else
      var (v, log) := Turn(ops[..|ops| - 1]);
      var op := ops[|ops| - 1];
      PerformKeepsInv(v, op);
      var (w, events) := Perform(v, op);
      (w, log + events)
  }

  lemma {:induction false} CloseKeysKeepsInv(v: Tracker, keys: seq<string>, phase: Phase)
    requires Inv(v)
    ensures Inv(CloseKeys(v, keys, phase).0)
    decreases |keys|
  {
    if keys == [] {
    } else {
      FinishKeepsInv(v, keys[0], phase);
      CloseKeysKeepsInv(Finish(v, keys[0], phase).0, keys[1..], phase);
    }
  }

  lemma PerformKeepsInv(v: Tracker, op: Op)
    requires Inv(v) && OpOk(op)
    ensures Inv(Perform(v, op).0)
  {
    match op
    case Observe(c) =>
      match EffectOf(c) {
        case Opens(key, name) => StartKeepsInv(v, key, name, c.summary);
        case Closes(key, phase) => FinishKeepsInv(v, key, phase);
        case Neither =>
      }
    case CloseRemaining(phase) => CloseKeysKeepsInv(v, v.order, phase);
    case _ =>
  }
}

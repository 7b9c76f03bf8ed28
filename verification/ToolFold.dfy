/**
 What a reader sees of a turn that is rebuilt from its stored log, for every log: which text, which cards and
 which tool lines, and for the logs of whole turns, what was said in them.
 */
module ToolFold {
  import opened Wrappers
  import opened ToolLog
  import opened ToolRuns

  // ---- Text ----

  /** The text of a log is that of its first part followed by that of the rest. */
  lemma {:induction false} TextAddsUp(a: seq<Event>, b: seq<Event>)
    ensures FoldText(a + b) == FoldText(a) + FoldText(b)
  {
    if b == [] {
      assert a + b == a;
    } else {
      TextAddsUp(a, b[..|b| - 1]);
      assert (a + b)[..|a + b| - 1] == a + b[..|b| - 1];
    }
  }

  /** A single token has its own text, and any other event none. */
  lemma TextOfOne(e: Event)
    ensures FoldText([e]) == if e.Token? then e.text else ""
  {
    assert [e][..0] == [];
  }

  // ---- Cards ----

  predicate ListsCards(e: Event) {
    e.AssistantMessage? && e.cards.Some?
  }

  /** A message that lists cards replaces all earlier ones. */
  lemma CardsOfMessage(before: seq<Event>, e: Event)
    requires ListsCards(e)
    ensures FoldCards(before + [e]) == e.cards.value
  {
    assert (before + [e])[..|before|] == before;
  }

  /** After it, or without one, cards with an id are added in order. */
  lemma {:induction false} CardsAddUp(a: seq<Event>, b: seq<Event>)
    requires forall i | 0 <= i < |b| :: !ListsCards(b[i])
    ensures FoldCards(a + b) == FoldCards(a) + FoldCards(b)
  {
    if b == [] {
      assert a + b == a;
    } else {
      CardsAddUp(a, b[..|b| - 1]);
      assert (a + b)[..|a + b| - 1] == a + b[..|b| - 1];
    }
  }

  lemma CardOfOne(e: Event)
    requires !ListsCards(e)
    ensures FoldCards([e]) == if e.Card? && e.id != "" then [(e.id, e.card)] else []
  {
    assert [e][..0] == [];
  }

  /** So the cards shown are those of the last message that lists any, and then the later ones. */
  lemma CardsOfTheLastMessageComeFirst(before: seq<Event>, message: Event, later: seq<Event>)
    requires message.AssistantMessage? && message.cards.Some?
    requires forall i | 0 <= i < |later| && later[i].AssistantMessage? :: later[i].cards.None?
    ensures FoldCards(before + [message] + later) == message.cards.value + FoldCards(later)
  {
    CardsOfMessage(before, message);
    CardsAddUp(before + [message], later);
  }

  // ---- Tool lines ----

  /** All that a log says about tools, in order: one line of a tool event, any number of a message. */
  function Lines(e: Event): seq<Tool> {
    match e
    case ToolEvent(tool) => [tool]
    case AssistantMessage(_, _, Some(tools)) => tools
    case _ => []
  }

  function AllLines(log: seq<Event>): seq<Tool> {
    if log == [] then [] else AllLines(log[..|log| - 1]) + Lines(log[|log| - 1])
  }

  lemma {:induction false} UpsertAllAddsUp(tools: seq<Tool>, a: seq<Tool>, b: seq<Tool>)
    ensures UpsertAll(tools, a + b) == UpsertAll(UpsertAll(tools, a), b)
  {
    if b == [] {
      assert a + b == a;
    } else {
      UpsertAllAddsUp(tools, a, b[..|b| - 1]);
      assert (a + b)[..|a + b| - 1] == a + b[..|b| - 1];
    }
  }

  lemma UpsertAllOne(tools: seq<Tool>, tool: Tool)
    ensures UpsertAll(tools, [tool]) == if tool.id != "" then Upsert(tools, tool) else tools
  {
    assert [tool][..0] == [];
  }

  lemma {:induction false} FoldIsOfLines(log: seq<Event>)
    ensures FoldTools(log) == UpsertAll([], AllLines(log))
  {
    if log == [] {
    } else {
      var before, e := log[..|log| - 1], log[|log| - 1];
      FoldIsOfLines(before);
      UpsertAllAddsUp([], AllLines(before), Lines(e));
      if e.ToolEvent? {
        UpsertAllOne(FoldTools(before), e.tool);
      }
    }
  }

  /** Line k has an id, and no later line has the same. */
  ghost predicate IsLatest(lines: seq<Tool>, k: int) {
    && 0 <= k < |lines| && lines[k].id != ""
    && forall j | k < j < |lines| :: lines[j].id != lines[k].id
  }

  /** The tools are the latest lines of their ids, each id once. */
  ghost predicate LatestOf(tools: seq<Tool>, lines: seq<Tool>) {
    && (forall i, j | 0 <= i < j < |tools| :: tools[i].id != tools[j].id)
    && (forall t | t in tools :: exists k :: IsLatest(lines, k) && lines[k] == t)
    && (forall k | IsLatest(lines, k) :: lines[k] in tools)
  }

  lemma LatestNext(lines: seq<Tool>, tool: Tool, k: int)
    ensures IsLatest(lines + [tool], k)
      <==> if k == |lines| then tool.id != "" else IsLatest(lines, k) && lines[k].id != tool.id
  {
    var next := lines + [tool];
    assert next[|lines|] == tool && forall j | 0 <= j < |lines| :: next[j] == lines[j];
  }

  lemma UnnamedLineKeepsLatest(tools: seq<Tool>, lines: seq<Tool>, tool: Tool)
    requires LatestOf(tools, lines) && tool.id == ""
    ensures LatestOf(tools, lines + [tool])
  {
    forall k ensures IsLatest(lines + [tool], k) <==> IsLatest(lines, k) {
      LatestNext(lines, tool, k);
    }
    forall t | t in tools ensures exists k :: IsLatest(lines + [tool], k) && (lines + [tool])[k] == t {
      var k :| IsLatest(lines, k) && lines[k] == t;
      assert IsLatest(lines + [tool], k) && (lines + [tool])[k] == t;
    }
  }

  lemma NewLineKeepsLatest(tools: seq<Tool>, lines: seq<Tool>, tool: Tool, r: seq<Tool>)
    requires LatestOf(tools, lines) && tool.id != ""
    requires forall i, j | 0 <= i < j < |r| :: r[i].id != r[j].id
    requires forall t :: t in r <==> t == tool || (t in tools && t.id != tool.id)
    ensures LatestOf(r, lines + [tool])
  {
    var next := lines + [tool];
    forall t | t in r ensures exists k :: IsLatest(next, k) && next[k] == t {
      if t == tool {
        LatestNext(lines, tool, |lines|);
        assert IsLatest(next, |lines|) && next[|lines|] == t;
      } else {
        var k :| IsLatest(lines, k) && lines[k] == t;
        LatestNext(lines, tool, k);
        assert IsLatest(next, k) && next[k] == t;
      }
    }
    forall k | IsLatest(next, k) ensures next[k] in r {
      LatestNext(lines, tool, k);
    }
  }

  lemma UpsertKeepsLatest(tools: seq<Tool>, lines: seq<Tool>, tool: Tool)
    requires LatestOf(tools, lines) && tool.id != ""
    ensures LatestOf(Upsert(tools, tool), lines + [tool])
  {
    var r := Upsert(tools, tool);
    if i :| 0 <= i < |tools| && tools[i].id == tool.id {
      UpsertKnown(tools, i, tool);
      assert r[i] == tool && forall j | 0 <= j < |tools| && j != i :: r[j] == tools[j];
    } else {
      UpsertNew(tools, tool);
    }
    NewLineKeepsLatest(tools, lines, tool, r);
  }

  lemma {:induction false} UpsertAllGivesLatest(lines: seq<Tool>)
    ensures LatestOf(UpsertAll([], lines), lines)
  {
    if lines == [] {
    } else {
      var before, tool := lines[..|lines| - 1], lines[|lines| - 1];
      UpsertAllGivesLatest(before);
      assert lines == before + [tool];
      if tool.id != "" {
        UpsertKeepsLatest(UpsertAll([], before), before, tool);
      } else {
        UnnamedLineKeepsLatest(UpsertAll([], before), before, tool);
      }
    }
  }

  /** Of any log, the tools shown are exactly the latest lines it has for each id, every id once. */
  lemma ToolsAreTheLatestLines(log: seq<Event>)
    ensures LatestOf(FoldTools(log), AllLines(log))
  {
    FoldIsOfLines(log);
    UpsertAllGivesLatest(AllLines(log));
  }

  // ---- Whole turns ----

  /** What is said in a turn, piece by piece. */
  function Said(ops: seq<Op>): string {
    if ops == [] then "" else Said(ops[..|ops| - 1]) + if ops[|ops| - 1].Say? then ops[|ops| - 1].text else ""
  }

  lemma {:induction false} ClosingSaysNothing(v: Tracker, keys: seq<string>, phase: Phase)
    requires InRange(v)
    ensures forall e | e in CloseKeys(v, keys, phase).1 :: e.ToolEvent?
    decreases |keys|
  {
    if keys == [] {
    } else {
      ClosingSaysNothing(Finish(v, keys[0], phase).0, keys[1..], phase);
    }
  }

  lemma {:induction false} NoTokensNoText(log: seq<Event>)
    requires forall e | e in log :: !e.Token?
    ensures FoldText(log) == ""
  {
    if log == [] {
    } else {
      NoTokensNoText(log[..|log| - 1]);
    }
  }

  lemma {:induction false} NoMessagesNoFinal(log: seq<Event>)
    requires forall e | e in log :: !e.AssistantMessage?
    ensures FoldFinal(log) == None
  {
    if log == [] {
    } else {
      NoMessagesNoFinal(log[..|log| - 1]);
    }
  }

  lemma OperationsSay(v: Tracker, op: Op)
    requires InRange(v)
    ensures FoldText(Perform(v, op).1) == if op.Say? then op.text else ""
  {
    match op
    case Say(text) => TextOfOne(Token(text));
    case CloseRemaining(phase) =>
      ClosingSaysNothing(v, v.order, phase);
      NoTokensNoText(Perform(v, op).1);
    case _ => NoTokensNoText(Perform(v, op).1);
  }

  lemma OperationsCommit(v: Tracker, op: Op)
    requires InRange(v)
    ensures op.Commit? ==>
      Perform(v, op).1 == [AssistantMessage(op.content, op.cards, if |v.tools| == 0 then None else Some(v.tools))]
    ensures FoldFinal(Perform(v, op).1) == if op.Commit? then Some(op.content) else None
  {
    match op
    case Commit(content, cards) =>
      FinalIsTheLastMessage(Perform(v, op).1);
    case CloseRemaining(phase) =>
      ClosingSaysNothing(v, v.order, phase);
      NoMessagesNoFinal(Perform(v, op).1);
    case _ => NoMessagesNoFinal(Perform(v, op).1);
  }

  lemma {:induction false} FinalAddsUp(a: seq<Event>, b: seq<Event>)
    ensures FoldFinal(a + b) == if FoldFinal(b).Some? then FoldFinal(b) else FoldFinal(a)
  {
    if b == [] {
      assert a + b == a;
    } else {
      FinalAddsUp(a, b[..|b| - 1]);
      assert (a + b)[..|a + b| - 1] == a + b[..|b| - 1];
    }
  }

  /** The tokens of a turn's log are what was said in it, piece by piece, whatever tools run meanwhile. */
  lemma {:induction false} TurnTextIsWhatWasSaid(ops: seq<Op>)
    requires forall i | 0 <= i < |ops| :: OpOk(ops[i])
    ensures FoldText(Turn(ops).1) == Said(ops)
  {
    if ops == [] {
    } else {
      var (v, log) := Turn(ops[..|ops| - 1]);
      TurnTextIsWhatWasSaid(ops[..|ops| - 1]);
      OperationsSay(v, ops[|ops| - 1]);
      TextAddsUp(log, Perform(v, ops[|ops| - 1]).1);
    }
  }

  /** The final text is that of the last message that was committed, if any was. */
  ghost predicate IsLastCommitted(ops: seq<Op>, final: Option<string>) {
    && (final.None? <==> forall i | 0 <= i < |ops| :: !ops[i].Commit?)
    && forall i | 0 <= i < |ops| && ops[i].Commit? && (forall j | i < j < |ops| :: !ops[j].Commit?) ::
         final == Some(ops[i].content)
  }

  lemma LastCommittedNext(ops: seq<Op>, op: Op, final: Option<string>)
    requires IsLastCommitted(ops, final)
    ensures IsLastCommitted(ops + [op], if op.Commit? then Some(op.content) else final)
  {
    var all := ops + [op];
    assert all[|ops|] == op && forall i | 0 <= i < |ops| :: all[i] == ops[i];
  }

  lemma {:induction false} TurnFinalIsTheLastCommit(ops: seq<Op>)
    requires forall i | 0 <= i < |ops| :: OpOk(ops[i])
    ensures IsLastCommitted(ops, FoldFinal(Turn(ops).1))
  {
    if ops == [] {
    } else {
      var before, op := ops[..|ops| - 1], ops[|ops| - 1];
      var (v, log) := Turn(before);
      TurnFinalIsTheLastCommit(before);
      OperationsCommit(v, op);
      FinalAddsUp(log, Perform(v, op).1);
      LastCommittedNext(before, op, FoldFinal(log));
      assert ops == before + [op];
    }
  }
}

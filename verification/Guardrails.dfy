/** How one guard assessment becomes an action: hazards with their probabilities, a severity, three thresholds. */
module Guardrails {

  datatype Action = Pass | Block | Support

  datatype Hazard = Hazard(name: string, probability: real)

  datatype Thresholds = Thresholds(review: real, action: real, severityBlock: real)

  /** What a hazard is mapped to: every listed and every unknown hazard blocks, except self-harm. */
  function Mapped(name: string): Action {
    if name == "self_harm" then Support else Block
  }

  function PolicyThresholds(permissive: bool, review: real, action: real, severityBlock: real): Thresholds {
    Thresholds(review, if permissive && action < 0.85 then 0.85 else action, severityBlock)
  }

  /** Reaching the lower of the two thresholds is enough, since a review is treated as the action. */
  predicate Triggers(h: Hazard, t: Thresholds) {
    h.probability >= t.review || h.probability >= t.action
  }

  predicate AsksSupport(hazards: seq<Hazard>, t: Thresholds) {
    exists i :: 0 <= i < |hazards| && Mapped(hazards[i].name) == Support && Triggers(hazards[i], t)
  }

  predicate AnyTriggers(hazards: seq<Hazard>, t: Thresholds) {
    exists i :: 0 <= i < |hazards| && Triggers(hazards[i], t)
  }

  function Verdict(hazards: seq<Hazard>, severity: real, t: Thresholds): Action {
    if AsksSupport(hazards, t) then Support
    else if AnyTriggers(hazards, t) || severity >= t.severityBlock then Block
    else Pass
  }

  /** The first of support, block and pass that is in the list, or pass. */
  method Foremost(triggered: seq<Action>) returns (action: Action)
    ensures action == if Support in triggered then Support else if Block in triggered then Block else Pass
  {
    var precedence := [Support, Block, Pass];
    for i := 0 to |precedence|
      invariant forall j | 0 <= j < i :: precedence[j] !in triggered
    {
      if precedence[i] in triggered {
        assert i > 0 ==> precedence[0] !in triggered;
        assert i > 1 ==> precedence[1] !in triggered;
        return precedence[i];
      }
    }
    assert precedence[0] == Support && precedence[1] == Block;
    return Pass;
  }

  /** The list after a high severity: passes become blocks, and an empty list becomes one block. */
  method Harden(triggered: seq<Action>) returns (hardened: seq<Action>)
    ensures triggered == [] ==> hardened == [Block]
    ensures triggered != [] ==>
      && |hardened| == |triggered|
      && forall i | 0 <= i < |triggered| :: hardened[i] == if triggered[i] == Pass then Block else triggered[i]
    ensures Support in hardened <==> Support in triggered
    ensures Support in hardened || Block in hardened
  {
    hardened := [];
    for i := 0 to |triggered|
      invariant |hardened| == i
      invariant forall j | 0 <= j < i :: hardened[j] == if triggered[j] == Pass then Block else triggered[j]
    {
      hardened := hardened + [if triggered[i] == Pass then Block else triggered[i]];
    }
    if hardened == [] {
      hardened := [Block];
    } else {
      assert hardened[0] != Pass;
      assert hardened[0] in hardened;
      assert hardened[0] == Support ==> triggered[0] == Support;
    }
  }

  /**
   Support when self-harm is triggered, otherwise block when anything is triggered or the severity is high,
   otherwise pass.
   */
  method Route(hazards: seq<Hazard>, severity: real, t: Thresholds) returns (action: Action)
    ensures action == Verdict(hazards, severity, t)
    ensures var support := exists i :: 0 <= i < |hazards| && hazards[i].name == "self_harm"
                                       && (hazards[i].probability >= t.review || hazards[i].probability >= t.action);
      var any := exists i :: 0 <= i < |hazards|
                             && (hazards[i].probability >= t.review || hazards[i].probability >= t.action);
      action == if support then Support else if any || severity >= t.severityBlock then Block else Pass
  {
    var triggered: seq<Action> := [];
    for i := 0 to |hazards|
      invariant Support in triggered <==> AsksSupport(hazards[..i], t)
      invariant Support in triggered || Block in triggered <==> AnyTriggers(hazards[..i], t)
    {
      OneMore(hazards, i, t);
      var mapped := Mapped(hazards[i].name);
      if hazards[i].probability >= t.action {
        triggered := triggered + [mapped];
      } else if hazards[i].probability >= t.review {
        triggered := triggered + [if mapped == Support then Support else Block];
      }
    }
    assert hazards[..|hazards|] == hazards;
    if severity >= t.severityBlock {
      triggered := Harden(triggered);
    }
    action := Foremost(triggered);
  }

  lemma OneMore(hazards: seq<Hazard>, i: nat, t: Thresholds)
    requires i < |hazards|
    ensures AsksSupport(hazards[..i + 1], t)
      <==> AsksSupport(hazards[..i], t) || (Mapped(hazards[i].name) == Support && Triggers(hazards[i], t))
    ensures AnyTriggers(hazards[..i + 1], t) <==> AnyTriggers(hazards[..i], t) || Triggers(hazards[i], t)
  {
    var now, next := hazards[..i], hazards[..i + 1];
    assert next[i] == hazards[i] && forall j | 0 <= j < i :: next[j] == now[j];
  }

  // ----- What the verdict does not depend on -----

  /** The order in which the hazards are listed does not matter. */
  lemma VerdictIgnoresOrder(a: seq<Hazard>, b: seq<Hazard>, severity: real, t: Thresholds)
    requires forall h :: h in a <==> h in b
    ensures Verdict(a, severity, t) == Verdict(b, severity, t)
  {
    VerdictOfMembers(a, b, t);
    VerdictOfMembers(b, a, t);
  }

  lemma VerdictOfMembers(a: seq<Hazard>, b: seq<Hazard>, t: Thresholds)
    requires forall h | h in a :: h in b
    ensures AsksSupport(a, t) ==> AsksSupport(b, t)
    ensures AnyTriggers(a, t) ==> AnyTriggers(b, t)
  {
    forall i | 0 <= i < |a| && Triggers(a[i], t)
      ensures AnyTriggers(b, t) && (Mapped(a[i].name) == Support ==> AsksSupport(b, t))
    {
      assert a[i] in b;
    }
  }

  /** Raising probabilities or the severity never weakens the verdict. */
  lemma VerdictIsMonotone(a: seq<Hazard>, b: seq<Hazard>, low: real, high: real, t: Thresholds)
    requires |a| == |b| && low <= high
    requires forall i | 0 <= i < |a| :: a[i].name == b[i].name && a[i].probability <= b[i].probability
    ensures Verdict(a, low, t) == Support ==> Verdict(b, high, t) == Support
    ensures Verdict(a, low, t) == Block ==> Verdict(b, high, t) != Pass
  {
    forall i | 0 <= i < |a| && Triggers(a[i], t)
      ensures Triggers(b[i], t)
    {
    }
    if AsksSupport(a, t) {
      var i :| 0 <= i < |a| && Mapped(a[i].name) == Support && Triggers(a[i], t);
      assert Mapped(b[i].name) == Support && Triggers(b[i], t);
    } else if AnyTriggers(a, t) {
      var i :| 0 <= i < |a| && Triggers(a[i], t);
      assert Triggers(b[i], t);
    }
  }

  // ----- The action threshold and the policy -----

  ghost predicate SameVerdicts(s: Thresholds, t: Thresholds) {
    forall hazards, severity :: Verdict(hazards, severity, s) == Verdict(hazards, severity, t)
  }

  function Lower(t: Thresholds): real {
    if t.review <= t.action then t.review else t.action
  }

  /** Of the review and the action threshold, the verdicts depend on nothing but the lower one. */
  lemma OnlyTheLowerThresholdMatters(s: Thresholds, t: Thresholds)
    requires s.severityBlock == t.severityBlock
    ensures SameVerdicts(s, t) <==> Lower(s) == Lower(t)
  {
    if Lower(s) == Lower(t) {
      forall hazards, severity
        ensures Verdict(hazards, severity, s) == Verdict(hazards, severity, t)
      {
        assert forall h :: Triggers(h, s) <==> Triggers(h, t);
      }
    } else {
      var p := if Lower(s) <= Lower(t) then Lower(s) else Lower(t);
      var hazards, severity := [Hazard("jailbreak", p)], s.severityBlock - 1.0;
      assert Triggers(hazards[0], s) != Triggers(hazards[0], t);
      assert Verdict(hazards, severity, s) != Verdict(hazards, severity, t);
    }
  }

  /** With a review threshold no higher than it, the action threshold has no effect at all. */
  lemma ActionThresholdHasNoEffect(t: Thresholds, action: real)
    requires t.review <= t.action && t.review <= action
    ensures SameVerdicts(t, t.(action := action))
  {
    OnlyTheLowerThresholdMatters(t, t.(action := action));
  }

  /** The permissive policy raises the action threshold to 0.85, and changes nothing else. */
  lemma PermissiveRaisesTheActionThreshold(review: real, action: real, severityBlock: real)
    ensures PolicyThresholds(false, review, action, severityBlock) == Thresholds(review, action, severityBlock)
    ensures var t := PolicyThresholds(true, review, action, severityBlock);
      && t.review == review && t.severityBlock == severityBlock
      && t.action >= action && t.action >= 0.85 && (t.action == action || t.action == 0.85)
  {
  }

  /**
   The permissive policy gives the same verdicts as the strict one, on everything, exactly when the review
   threshold is not above the action threshold or the action threshold is 0.85 already.
   */
  lemma PermissiveChangesNothingUnlessReviewIsHigher(review: real, action: real, severityBlock: real)
    ensures SameVerdicts(PolicyThresholds(true, review, action, severityBlock),
                         PolicyThresholds(false, review, action, severityBlock))
      <==> review <= action || action >= 0.85
  {
    OnlyTheLowerThresholdMatters(PolicyThresholds(true, review, action, severityBlock),
                                 PolicyThresholds(false, review, action, severityBlock));
  }
}

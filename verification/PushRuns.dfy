/**
 What holds on every run of the announcement tables: the counters agree with the delivery rows,
 finished rows stay finished, and delivering an announcement cannot go on for ever.
 */
module PushRuns {
  import opened Wrappers
  import opened Push

  // ---- The invariant ----

  ghost predicate Balanced(t: Tables, a: nat)
    requires a < |t.announcements|
  {
    var row, ds := t.announcements[a], t.deliveries;
    && row.recipientCount == Sum(ds, Of(a))
    && row.sentCount == Sum(ds, OfStatus(a, Sent))
    && row.failedCount == Sum(ds, OfStatus(a, Failed))
    && (!row.Active() ==> Sum(ds, OfStatus(a, Pending)) == 0)
    && (row.status.Queued? ==> Sum(ds, OfStatus(a, Pending)) == row.recipientCount)
  }

  /** A pending delivery has attempts left and is free to be claimed again. */
  predicate RowOk(t: Tables, d: Delivery) {
    && d.announcement < |t.announcements|
    && d.attempts <= MAX_ATTEMPTS
    && (d.status.Pending? ==> d.attempts < MAX_ATTEMPTS && d.claimedAt.None?)
  }

  ghost predicate Inv(t: Tables) {
    && (forall a: nat | a < |t.announcements| :: Balanced(t, a))
    && (forall i | 0 <= i < |t.deliveries| :: RowOk(t, t.deliveries[i]))
    && (forall s | s in t.subscriptions :: s < t.nextSubscription && t.subscriptions[s] < MAX_FAILURES)
  }

  // ---- Every step keeps it ----

  /** The announcement's counters move with the one delivery row that changes. */
  lemma RowChangeKeepsBalance(t: Tables, u: Tables, d: nat, row: Delivery, b: nat)
    requires Inv(t) && d < |t.deliveries| && b < |t.announcements|
    requires t.deliveries[d].status.Pending? && row.announcement == t.deliveries[d].announcement
    requires u.deliveries == t.deliveries[d := row]
    requires var ann := t.announcements[row.announcement];
             u.announcements == t.announcements[row.announcement := ann.(status := Sending,
               sentCount := ann.sentCount + OfStatus(row.announcement, Sent)(row),
               failedCount := ann.failedCount + OfStatus(row.announcement, Failed)(row))]
    requires t.announcements[row.announcement].Active()
    ensures Balanced(u, b)
  {
    assert Balanced(t, b);
    SumUpdate(t.deliveries, d, row, Of(b));
    SumUpdate(t.deliveries, d, row, OfStatus(b, Sent));
    SumUpdate(t.deliveries, d, row, OfStatus(b, Failed));
    SumUpdate(t.deliveries, d, row, OfStatus(b, Pending));
  }

  /** One delivery changes its own row, its announcement and its subscription, and nothing else. */
  lemma DeliverChangesOneRow(t: Tables, d: nat, answer: Outcome, now: int, seen: bool)
    requires Inv(t) && d < |t.deliveries| && t.deliveries[d].status.Pending? && Deliverable(t, d)
    ensures var u := Deliver(t, d, answer, now, seen).0;
            && |u.deliveries| == |t.deliveries| && u.nextSubscription == t.nextSubscription
            && var row := u.deliveries[d];
            && u.deliveries == t.deliveries[d := row]
            && row.announcement == t.deliveries[d].announcement
            && var ann := t.announcements[row.announcement];
            && u.announcements == t.announcements[row.announcement := ann.(status := Sending,
                 sentCount := ann.sentCount + OfStatus(row.announcement, Sent)(row),
                 failedCount := ann.failedCount + OfStatus(row.announcement, Failed)(row))]
            && RowOk(u, row)
            && (row.status.Pending? ==> row.attempts == t.deliveries[d].attempts + 1)
            && (forall s | s in u.subscriptions ::
                  s in t.subscriptions && u.subscriptions[s] < MAX_FAILURES)
  {
    assert RowOk(t, t.deliveries[d]);
  }

  lemma DeliverKeepsInv(t: Tables, d: nat, answer: Outcome, now: int, seen: bool)
    requires Inv(t) && d < |t.deliveries| && t.deliveries[d].status.Pending?
    ensures Inv(Deliver(t, d, answer, now, seen).0)
  {
    if Deliverable(t, d) {
      var u := Deliver(t, d, answer, now, seen).0;
      DeliverChangesOneRow(t, d, answer, now, seen);
      forall b: nat | b < |u.announcements| ensures Balanced(u, b) {
        RowChangeKeepsBalance(t, u, d, u.deliveries[d], b);
      }
    }
  }

  lemma CreateKeepsInv(t: Tables, students: seq<nat>, audience: seq<nat>, expiresAt: int, now: int)
    requires Inv(t)
    ensures Inv(Create(t, students, audience, expiresAt, now))
  {
    var u, n := Create(t, students, audience, expiresAt, now), |t.announcements|;
    var rows := Queue(n, audience);
    forall b: nat | b < |u.announcements| ensures Balanced(u, b) {
      CountNewRows(t, audience, b, Of(b), if b == n then 1 else 0);
      CountNewRows(t, audience, b, OfStatus(b, Sent), 0);
      CountNewRows(t, audience, b, OfStatus(b, Failed), 0);
      CountNewRows(t, audience, b, OfStatus(b, Pending), if b == n then 1 else 0);
      if b < n { assert Balanced(t, b); }
    }
    forall i | 0 <= i < |u.deliveries| ensures RowOk(u, u.deliveries[i]) {
      if i < |t.deliveries| {
        assert RowOk(t, t.deliveries[i]);
      } else {
        assert u.deliveries[i] == rows[i - |t.deliveries|];
      }
    }
  }

  /** New rows count for the new announcement only, and old rows only for old ones. */
  lemma CountNewRows(t: Tables, audience: seq<nat>, b: nat, f: Delivery -> nat, k: nat)
    requires Inv(t) && b <= |t.announcements|
    requires forall s :: f(Delivery(|t.announcements|, s, Pending, 0, None)) == k
    requires forall d: Delivery | d.announcement != b :: f(d) == 0
    ensures Sum(t.deliveries + Queue(|t.announcements|, audience), f)
            == (if b < |t.announcements| then Sum(t.deliveries, f) else 0) + k * |audience|
  {
    var rows := Queue(|t.announcements|, audience);
    SumConcat(t.deliveries, rows, f);
    SumOfEqual(rows, f, k);
    if b == |t.announcements| {
      forall i | 0 <= i < |t.deliveries| ensures f(t.deliveries[i]) == 0 {
        assert RowOk(t, t.deliveries[i]);
      }
      SumOfEqual(t.deliveries, f, 0);
    }
  }

  /** Withdrawing leaves every other count alone and no pending delivery behind. */
  lemma WithdrawCounts(ds: seq<Delivery>, a: nat, b: nat)
    ensures Sum(Withdraw(ds, a), Of(b)) == Sum(ds, Of(b))
    ensures Sum(Withdraw(ds, a), OfStatus(b, Sent)) == Sum(ds, OfStatus(b, Sent))
    ensures Sum(Withdraw(ds, a), OfStatus(b, Failed)) == Sum(ds, OfStatus(b, Failed))
    ensures Sum(Withdraw(ds, a), OfStatus(b, Pending)) == if a == b then 0 else Sum(ds, OfStatus(b, Pending))
    ensures Sum(Withdraw(ds, a), Effort(b)) == if a == b then 0 else Sum(ds, Effort(b))
  {
    var es := Withdraw(ds, a);
    SameSum(ds, es, Of(b));
    SameSum(ds, es, OfStatus(b, Sent));
    SameSum(ds, es, OfStatus(b, Failed));
    if a == b {
      SumOfEqual(es, OfStatus(b, Pending), 0);
      SumOfEqual(es, Effort(b), 0);
    } else {
      SameSum(ds, es, OfStatus(b, Pending));
      SameSum(ds, es, Effort(b));
    }
  }

  lemma SameSum(ds: seq<Delivery>, es: seq<Delivery>, f: Delivery -> nat)
    requires |ds| == |es| && forall i | 0 <= i < |ds| :: f(ds[i]) == f(es[i])
    ensures Sum(ds, f) == Sum(es, f)
  {
    SumAtMost(ds, es, f);
    SumAtMost(es, ds, f);
  }

  lemma ClosingKeepsInv(t: Tables, u: Tables, a: nat, closed: Announcement)
    requires Inv(t) && a < |t.announcements| && !closed.Active()
    requires closed == t.announcements[a].(status := closed.status, completedAt := closed.completedAt)
    requires u == t.(deliveries := Withdraw(t.deliveries, a), announcements := t.announcements[a := closed],
                     inbox := u.inbox)
    ensures Inv(u)
  {
    forall b: nat | b < |u.announcements| ensures Balanced(u, b) {
      assert Balanced(t, b);
      WithdrawCounts(t.deliveries, a, b);
    }
    forall i | 0 <= i < |u.deliveries| ensures RowOk(u, u.deliveries[i]) {
      assert RowOk(t, t.deliveries[i]);
    }
  }

  lemma CompleteKeepsInv(t: Tables, a: nat, now: int)
    requires Inv(t) && a < |t.announcements| && Finished(t, a)
    ensures Inv(Complete(t, a, now))
  {
    var u := Complete(t, a, now);
    forall b: nat | b < |u.announcements| ensures Balanced(u, b) {
      assert Balanced(t, b);
      if a == b {
        SumOfEqual(t.deliveries, OfStatus(a, Pending), 0);
      }
    }
    forall i | 0 <= i < |u.deliveries| ensures RowOk(u, u.deliveries[i]) {
      assert RowOk(t, t.deliveries[i]);
    }
  }

  lemma StepKeepsInv(t: Tables, x: Action)
    requires Inv(t)
    ensures Inv(Step(t, x))
  {
    if Enabled(t, x) {
      match x
      case DoSubscribe =>
        SubscriptionsDoNotCount(t, Subscribe(t));
      case DoUnsubscribe(s) =>
        SubscriptionsDoNotCount(t, Unsubscribe(t, s));
      case DoFlush =>
        SubscriptionsDoNotCount(t, Flush(t));
      case DoCreate(students, audience, expiresAt, now) =>
        CreateKeepsInv(t, students, audience, expiresAt, now);
      case DoDeliver(d, answer, now, seen) =>
        DeliverKeepsInv(t, d, answer, now, seen);
      case DoExpire(a, now) =>
        ClosingKeepsInv(t, Expire(t, a, now), a, Expire(t, a, now).announcements[a]);
      case DoComplete(a, now) =>
        CompleteKeepsInv(t, a, now);
      case DoCancel(a) =>
        ClosingKeepsInv(t, Cancel(t, a), a, Cancel(t, a).announcements[a]);
    }
  }

  lemma SubscriptionsDoNotCount(t: Tables, u: Tables)
    requires Inv(t)
    requires u.announcements == t.announcements && u.deliveries == t.deliveries
    requires forall s | s in u.subscriptions :: s < u.nextSubscription && u.subscriptions[s] < MAX_FAILURES
    ensures Inv(u)
  {
    forall b: nat | b < |u.announcements| ensures Balanced(u, b) {
      assert Balanced(t, b);
    }
    forall i | 0 <= i < |u.deliveries| ensures RowOk(u, u.deliveries[i]) {
      assert RowOk(t, t.deliveries[i]);
    }
  }

  /**
   On every run from empty tables: each announcement's counters are the numbers of its deliveries,
   of those sent and of those failed; a finished announcement has no pending delivery and a queued one
   only pending deliveries; and no live subscription has reached the failure limit.
   */
  lemma {:induction false} RunKeepsInv(t: Tables, xs: seq<Action>)
    requires Inv(t)
    ensures Inv(Run(t, xs))
  {
    if xs == [] {
    } else {
      RunKeepsInv(t, xs[..|xs| - 1]);
      StepKeepsInv(Run(t, xs[..|xs| - 1]), xs[|xs| - 1]);
    }
  }

  lemma EmptyTablesAreBalanced()
    ensures Inv(EMPTY)
  {
  }

  // ---- What one delivery does, case by case ----

  /** Without an active announcement nothing is delivered. */
  lemma NothingToDeliver(t: Tables, d: nat, answer: Outcome, now: int, seen: bool)
    requires d < |t.deliveries|
    requires var a := t.deliveries[d].announcement;
             a >= |t.announcements| || t.announcements[a].status == Done || t.announcements[a].status == Cancelled
    ensures Deliver(t, d, answer, now, seen) == (t, None)
  {
  }

  /** How often the subscription has failed, counting one more failure. */
  function OneMoreFailure(t: Tables, s: nat): nat {
    1 + if s in t.subscriptions then t.subscriptions[s] else if s in t.unflushed then t.unflushed[s] else 0
  }

  /**
   The row of a delivery for an active announcement. Not finding the subscription counts as a vanished one. An
   invalid answer fails the row at once, a retry with the third attempt or the subscription's fifth failure.
   */
  lemma DeliveredRowSays(t: Tables, d: nat, answer: Outcome, now: int, seen: bool)
    requires d < |t.deliveries| && t.deliveries[d].announcement < |t.announcements|
    requires t.announcements[t.deliveries[d].announcement].status in {Queued, Sending}
    ensures var (u, outcome) := Deliver(t, d, answer, now, seen);
      var row, s := t.deliveries[d], t.deliveries[d].subscription;
      var found := s in t.subscriptions || (seen && s in t.unflushed);
      var last := answer == Invalid || row.attempts + 1 >= 3 || OneMoreFailure(t, s) >= 5;
      && outcome == Some(if found then answer else Vanished)
      && |u.deliveries| == |t.deliveries|
      && u.deliveries[d] == (
           if !found || answer == Vanished then row.(status := Gone, claimedAt := Some(now))
           else if answer == Accepted then row.(status := Sent, claimedAt := Some(now))
           else row.(status := if last then Failed else Pending, attempts := row.attempts + 1, claimedAt := None))
      && forall e | 0 <= e < |t.deliveries| && e != d :: u.deliveries[e] == t.deliveries[e]
  {
  }

  /** Its announcement is sending and counts what was sent and what has failed for good; no other one changes. */
  lemma DeliveredAnnouncementSays(t: Tables, d: nat, answer: Outcome, now: int, seen: bool)
    requires d < |t.deliveries| && t.deliveries[d].announcement < |t.announcements|
    requires t.announcements[t.deliveries[d].announcement].status in {Queued, Sending}
    ensures var u, a := Deliver(t, d, answer, now, seen).0, t.deliveries[d].announcement;
      var row := t.announcements[a];
      && |u.announcements| == |t.announcements|
      && u.announcements[a] == row.(status := Sending,
           sentCount := row.sentCount + if u.deliveries[d].status == Sent then 1 else 0,
           failedCount := row.failedCount + if u.deliveries[d].status == Failed then 1 else 0)
      && forall b | 0 <= b < |t.announcements| && b != a :: u.announcements[b] == t.announcements[b]
  {
  }

  /**
   Its subscription: one that has vanished is removed, one that failed is counted up and removed with its fifth
   failure, and every other subscription stays as it was.
   */
  lemma DeliveredSubscriptionSays(t: Tables, d: nat, answer: Outcome, now: int, seen: bool)
    requires d < |t.deliveries| && t.deliveries[d].announcement < |t.announcements|
    requires t.announcements[t.deliveries[d].announcement].status in {Queued, Sending}
    ensures var u, s := Deliver(t, d, answer, now, seen).0, t.deliveries[d].subscription;
      && u.nextSubscription == t.nextSubscription && u.inbox == t.inbox
      && (s in u.subscriptions <==>
            s in t.subscriptions && answer != Vanished && (answer == Accepted || t.subscriptions[s] + 1 < 5))
      && (s in u.subscriptions ==> u.subscriptions[s] == t.subscriptions[s] + if answer == Accepted then 0 else 1)
      && forall r | r != s ::
           && (r in u.subscriptions <==> r in t.subscriptions)
           && (r in u.subscriptions ==> u.subscriptions[r] == t.subscriptions[r])
  {
  }

  /** A new subscription has not failed yet, and one that is given up is gone; the others stay. */
  lemma SubscriptionStepsSay(t: Tables, s: nat)
    ensures var u, n := Step(t, DoSubscribe), t.nextSubscription;
      && n in u.subscriptions && u.subscriptions[n] == 0 && u.nextSubscription == n + 1
      && forall r | r != n ::
           (r in u.subscriptions <==> r in t.subscriptions)
           && (r in u.subscriptions ==> u.subscriptions[r] == t.subscriptions[r])
    ensures var u := Step(t, DoUnsubscribe(s));
      && s !in u.subscriptions
      && forall r | r != s ::
           (r in u.subscriptions <==> r in t.subscriptions)
           && (r in u.subscriptions ==> u.subscriptions[r] == t.subscriptions[r])
  {
  }

  // ---- Finished rows stay finished ----

  /** `u` continues `t`: nothing finished was touched and no row was lost. */
  predicate Continues(t: Tables, u: Tables) {
    && |t.announcements| <= |u.announcements| && |t.deliveries| <= |u.deliveries|
    && (forall a | 0 <= a < |t.announcements| ::
          && (!t.announcements[a].Active() ==> u.announcements[a] == t.announcements[a])
          && t.announcements[a].sentCount <= u.announcements[a].sentCount
          && t.announcements[a].failedCount <= u.announcements[a].failedCount
          && t.announcements[a].recipientCount == u.announcements[a].recipientCount)
    && (forall d | 0 <= d < |t.deliveries| ::
          && u.deliveries[d].announcement == t.deliveries[d].announcement
          && u.deliveries[d].subscription == t.deliveries[d].subscription
          && (!t.deliveries[d].status.Pending? ==> u.deliveries[d] == t.deliveries[d]))
  }

  lemma StepContinues(t: Tables, x: Action)
    requires Inv(t)
    ensures Continues(t, Step(t, x))
  {
    if Enabled(t, x) && x.DoDeliver? && Deliverable(t, x.d) {
      DeliverChangesOneRow(t, x.d, x.answer, x.now, x.seen);
    }
  }

  /** A terminal announcement or delivery row is never changed again, on any run. */
  lemma {:induction false} RunContinues(t: Tables, xs: seq<Action>)
    requires Inv(t)
    ensures Continues(t, Run(t, xs))
  {
    if xs == [] {
    } else {
      var before := Run(t, xs[..|xs| - 1]);
      RunContinues(t, xs[..|xs| - 1]);
      RunKeepsInv(t, xs[..|xs| - 1]);
      StepContinues(before, xs[|xs| - 1]);
    }
  }

  /** The announcement is neither queued nor sending, and none of its deliveries is pending. */
  ghost predicate Closed(t: Tables, a: nat) {
    && a < |t.announcements| && t.announcements[a].status != Queued && t.announcements[a].status != Sending
    && forall d | 0 <= d < |t.deliveries| && t.deliveries[d].announcement == a :: t.deliveries[d].status != Pending
  }

  /** The announcement and its deliveries are in `u` as they were in `t`. */
  ghost predicate Untouched(t: Tables, u: Tables, a: nat) {
    && a < |t.announcements| <= |u.announcements| && u.announcements[a] == t.announcements[a]
    && |t.deliveries| <= |u.deliveries|
    && forall d | 0 <= d < |u.deliveries| && u.deliveries[d].announcement == a ::
         d < |t.deliveries| && u.deliveries[d] == t.deliveries[d]
  }

  lemma StepKeepsClosed(t: Tables, x: Action, a: nat)
    requires Closed(t, a)
    ensures Closed(Step(t, x), a) && Untouched(t, Step(t, x), a)
  {
    var u := Step(t, x);
    if Enabled(t, x) {
      match x
      case DoDeliver(d, answer, now, seen) =>
        if Deliverable(t, d) {
          DeliveredRowSays(t, d, answer, now, seen);
          DeliveredAnnouncementSays(t, d, answer, now, seen);
        }
      case DoCreate(_, audience, _, _) =>
        assert forall d | |t.deliveries| <= d < |u.deliveries| :: u.deliveries[d].announcement == |t.announcements|;
      case _ =>
    }
  }

  /** Whatever happens afterwards, a closed announcement and its deliveries are never touched again. */
  lemma {:induction false} RunKeepsClosed(t: Tables, xs: seq<Action>, a: nat)
    requires Closed(t, a)
    ensures Closed(Run(t, xs), a) && Untouched(t, Run(t, xs), a)
  {
    if xs == [] {
    } else {
      RunKeepsClosed(t, xs[..|xs| - 1], a);
      StepKeepsClosed(Run(t, xs[..|xs| - 1]), xs[|xs| - 1], a);
    }
  }

  // ---- Delivering ends ----

  /** Whether a step is a delivery of announcement `a` that returns an outcome. */
  predicate ReturnsOutcomeFor(t: Tables, x: Action, a: nat) {
    && Enabled(t, x) && x.DoDeliver?
    && t.deliveries[x.d].announcement == a
    && Deliver(t, x.d, x.answer, x.now, x.seen).1.Some?
  }

  function Outcomes(t: Tables, xs: seq<Action>, a: nat): nat {
    if xs == [] then 0
    else Outcomes(t, xs[..|xs| - 1], a)
         + if ReturnsOutcomeFor(Run(t, xs[..|xs| - 1]), xs[|xs| - 1], a) then 1 else 0
  }

  /** Every returned outcome uses up some of the announcement's work, and no step adds any. */
  lemma StepUsesWork(t: Tables, x: Action, a: nat)
    requires Inv(t) && a < |t.announcements|
    ensures Work(Step(t, x), a) + (if ReturnsOutcomeFor(t, x, a) then 1 else 0) <= Work(t, a)
  {
    if Enabled(t, x) {
      match x
      case DoDeliver(d, answer, now, seen) =>
        if Deliverable(t, d) {
          assert RowOk(t, t.deliveries[d]);
          DeliverChangesOneRow(t, d, answer, now, seen);
          SumUpdate(t.deliveries, d, Step(t, x).deliveries[d], Effort(a));
        }
      case DoExpire(b, now) => WithdrawCounts(t.deliveries, b, a);
      case DoCancel(b) => WithdrawCounts(t.deliveries, b, a);
      case DoCreate(_, audience, _, _) =>
        SumConcat(t.deliveries, Queue(|t.announcements|, audience), Effort(a));
        SumOfEqual(Queue(|t.announcements|, audience), Effort(a), 0);
      case _ =>
    }
  }

  lemma {:induction false} WorkBoundsOutcomes(t: Tables, xs: seq<Action>, a: nat)
    requires Inv(t) && a < |t.announcements|
    ensures Outcomes(t, xs, a) + Work(Run(t, xs), a) <= Work(t, a)
  {
    if xs == [] {
    } else {
      var before := xs[..|xs| - 1];
      WorkBoundsOutcomes(t, before, a);
      RunKeepsInv(t, before);
      RunContinues(t, before);
      StepUsesWork(Run(t, before), xs[|xs| - 1], a);
    }
  }

  lemma {:induction false} WorkPerRecipient(ds: seq<Delivery>, a: nat)
    ensures Sum(ds, Effort(a)) <= MAX_ATTEMPTS * Sum(ds, Of(a))
  {
    if ds == [] {
    } else {
      WorkPerRecipient(ds[..|ds| - 1], a);
    }
  }

  /** On every run, an announcement's deliveries return at most three outcomes per recipient. */
  lemma OutcomesAreBounded(t: Tables, xs: seq<Action>, a: nat)
    requires Inv(t) && a < |t.announcements|
    ensures Outcomes(t, xs, a) <= MAX_ATTEMPTS * t.announcements[a].recipientCount
  {
    assert Balanced(t, a);
    WorkBoundsOutcomes(t, xs, a);
    WorkPerRecipient(t.deliveries, a);
  }

  // ---- Notices ----

  /** No notice of a cancelled announcement is left in any inbox. */
  ghost predicate InboxOk(t: Tables) {
    forall x | x in t.inbox :: x.0 < |t.announcements| && !t.announcements[x.0].status.Cancelled?
  }

  lemma StepKeepsInbox(t: Tables, x: Action)
    requires Inv(t) && InboxOk(t)
    ensures InboxOk(Step(t, x))
    ensures forall e | e in t.inbox && !Step(t, x).announcements[e.0].status.Cancelled? :: e in Step(t, x).inbox
  {
    StepContinues(t, x);
    if Enabled(t, x) && x.DoDeliver? && Deliverable(t, x.d) {
      DeliverChangesOneRow(t, x.d, x.answer, x.now, x.seen);
    }
  }

  /**
   On every run, a cancelled announcement can be read in no inbox, and a notice of any other one stays where it
   was put.
   */
  lemma {:induction false} CancelledNoticesAreWithdrawn(t: Tables, xs: seq<Action>)
    requires Inv(t) && InboxOk(t)
    ensures InboxOk(Run(t, xs)) && |t.announcements| <= |Run(t, xs).announcements|
    ensures forall e | e in t.inbox && !Run(t, xs).announcements[e.0].status.Cancelled? :: e in Run(t, xs).inbox
  {
    if xs == [] {
    } else {
      var before := Run(t, xs[..|xs| - 1]);
      CancelledNoticesAreWithdrawn(t, xs[..|xs| - 1]);
      RunKeepsInv(t, xs[..|xs| - 1]);
      StepKeepsInbox(before, xs[|xs| - 1]);
      StepContinues(before, xs[|xs| - 1]);
    }
  }
}

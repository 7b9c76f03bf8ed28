/**
 One drain of the announcement tables as a run of steps: which rows it touches, what it closes, and how what it
 reports agrees with what it did.
 */
module PushDrain {
  import opened Wrappers
  import opened Push
  import opened PushRuns

  datatype Tally = Tally(claimed: nat, sent: nat, failed: nat, gone: nat, retrying: nat)

  /**
   What the world decides for one claimed row: is there time left, what time is it, what does the gateway say, and
   is a subscription that this drain has removed still found.
   */
  datatype Reading = Reading(inTime: bool, now: int, answer: Outcome, seen: bool)

  // ---- The drain as a run ----

  function Expiries(n: nat, now: int): seq<Action> {
    seq(n, (i: nat) => DoExpire(i, now))
  }

  function Completions(n: nat, now: int): seq<Action> {
    seq(n, (i: nat) => DoComplete(i, now))
  }

  function Deliveries(rows: seq<nat>, world: seq<Reading>): seq<Action>
    requires |rows| == |world|
  {
    seq(|rows|, i requires 0 <= i < |rows| => DoDeliver(rows[i], world[i].answer, world[i].now, world[i].seen))
  }

  /** How many rows the drain takes up before its deadline. */
  function Handled(world: seq<Reading>): (k: nat)
    ensures k <= |world| && (forall i | 0 <= i < k :: world[i].inTime) && (k < |world| ==> !world[k].inTime)
  {
    if world == [] || !world[0].inTime then 0 else 1 + Handled(world[1..])
  }

  /** What a claim hands out: distinct pending rows. Here, those from position `i` on. */
  ghost predicate Claimed(t: Tables, rows: seq<nat>, i: nat) {
    && (forall j | i <= j < |rows| :: rows[j] < |t.deliveries| && t.deliveries[rows[j]].status.Pending?)
    && (forall j, k | i <= j < k < |rows| :: rows[j] != rows[k])
  }

  function DrainRun(n: nat, rows: seq<nat>, world: seq<Reading>, start: int, end: int): seq<Action>
    requires |rows| == |world|
  {
    var k := Handled(world);
    Expiries(n, start) + Deliveries(rows[..k], world[..k]) + ([DoFlush] + Completions(n, end))
  }

  lemma {:induction false} RunConcat(t: Tables, xs: seq<Action>, ys: seq<Action>)
    ensures Run(t, xs + ys) == Run(Run(t, xs), ys)
  {
    if ys == [] {
      assert xs + ys == xs;
    } else {
      assert (xs + ys)[..|xs + ys| - 1] == xs + ys[..|ys| - 1];
      RunConcat(t, xs, ys[..|ys| - 1]);
    }
  }

  // ---- Totals over a run ----

  function StepOutcome(t: Tables, x: Action): Option<Outcome> {
    if Enabled(t, x) && x.DoDeliver? then Deliver(t, x.d, x.answer, x.now, x.seen).1 else None
  }

  /** How many deliveries of the run returned this outcome. */
  function Returned(t: Tables, xs: seq<Action>, o: Outcome): nat {
    if xs == [] then 0
    else Returned(t, xs[..|xs| - 1], o)
         + if StepOutcome(Run(t, xs[..|xs| - 1]), xs[|xs| - 1]) == Some(o) then 1 else 0
  }

  /** How many retry outcomes of the run hit the attempt or the failure limit. */
  function Exhausted(t: Tables, xs: seq<Action>): nat {
    if xs == [] then 0
    else
      var before, x := Run(t, xs[..|xs| - 1]), xs[|xs| - 1];
      Exhausted(t, xs[..|xs| - 1])
      + if StepOutcome(before, x) == Some(Retry) && Step(before, x).deliveries[x.d].status.Failed? then 1 else 0
  }

  function TotalSent(rows: seq<Announcement>): nat {
    if rows == [] then 0 else TotalSent(rows[..|rows| - 1]) + rows[|rows| - 1].sentCount
  }

  function TotalFailed(rows: seq<Announcement>): nat {
    if rows == [] then 0 else TotalFailed(rows[..|rows| - 1]) + rows[|rows| - 1].failedCount
  }

  lemma {:induction false} TotalsUpdate(rows: seq<Announcement>, a: nat, row: Announcement)
    requires a < |rows|
    ensures TotalSent(rows[a := row]) == TotalSent(rows) - rows[a].sentCount + row.sentCount
    ensures TotalFailed(rows[a := row]) == TotalFailed(rows) - rows[a].failedCount + row.failedCount
  {
    var n := |rows| - 1;
    if a < n {
      assert rows[a := row][..n] == rows[..n][a := row];
      TotalsUpdate(rows[..n], a, row);
    } else {
      assert rows[a := row][..n] == rows[..n];
    }
  }

  ghost predicate CountersFollow(t: Tables, x: Action) {
    var u, o := Step(t, x), StepOutcome(t, x);
    && TotalSent(u.announcements) == TotalSent(t.announcements) + (if o == Some(Accepted) then 1 else 0)
    && TotalFailed(u.announcements) == TotalFailed(t.announcements)
         + (if o == Some(Invalid) then 1 else 0)
         + (if o == Some(Retry) && u.deliveries[x.d].status.Failed? then 1 else 0)
  }

  lemma DeliverTotals(t: Tables, x: Action)
    requires Inv(t) && x.DoDeliver? && Enabled(t, x)
    ensures CountersFollow(t, x)
  {
    if Deliverable(t, x.d) {
      DeliverChangesOneRow(t, x.d, x.answer, x.now, x.seen);
      var u, a := Step(t, x), t.deliveries[x.d].announcement;
      var row := u.announcements[a];
      assert u.announcements == t.announcements[a := row];
      TotalsUpdate(t.announcements, a, row);
    }
  }

  lemma StepTotals(t: Tables, x: Action)
    requires Inv(t)
    ensures CountersFollow(t, x)
  {
    var u := Step(t, x);
    if Enabled(t, x) {
      match x
      case DoDeliver(_, _, _, _) => DeliverTotals(t, x);
      case DoExpire(a, _) => TotalsUpdate(t.announcements, a, u.announcements[a]);
      case DoCancel(a) => TotalsUpdate(t.announcements, a, u.announcements[a]);
      case DoComplete(a, _) => TotalsUpdate(t.announcements, a, u.announcements[a]);
      case DoCreate(_, _, _, _) =>
        assert u.announcements[..|u.announcements| - 1] == t.announcements;
      case _ =>
    }
  }

  /**
   On every run the sent counters rise by the outcomes "sent", and the failed counters by the outcomes
   "invalid" plus the retries that ran into a limit, however the subscriptions are shared.
   */
  lemma {:induction false} RunTotals(t: Tables, xs: seq<Action>)
    requires Inv(t)
    ensures TotalSent(Run(t, xs).announcements) == TotalSent(t.announcements) + Returned(t, xs, Accepted)
    ensures TotalFailed(Run(t, xs).announcements)
            == TotalFailed(t.announcements) + Returned(t, xs, Invalid) + Exhausted(t, xs)
  {
    if xs == [] {
    } else {
      RunTotals(t, xs[..|xs| - 1]);
      RunKeepsInv(t, xs[..|xs| - 1]);
      StepTotals(Run(t, xs[..|xs| - 1]), xs[|xs| - 1]);
    }
  }

  /** How many steps of the run told of a failure at the subscription. */
  function FailuresTold(t: Tables, xs: seq<Action>, s: nat): nat {
    if xs == [] then 0
    else
      var before, x := Run(t, xs[..|xs| - 1]), xs[|xs| - 1];
      var told := StepOutcome(before, x) in {Some(Invalid), Some(Retry)} && before.deliveries[x.d].subscription == s;
      FailuresTold(t, xs[..|xs| - 1], s) + if told then 1 else 0
  }

  /** Removed subscriptions have been live once. */
  predicate IdsOk(t: Tables) {
    && (forall s | s in t.subscriptions :: s < t.nextSubscription)
    && (forall s | s in t.unflushed :: s < t.nextSubscription)
  }

  lemma StepCountsFailure(t: Tables, x: Action, s: nat)
    requires IdsOk(t)
    ensures IdsOk(Step(t, x)) && t.nextSubscription <= Step(t, x).nextSubscription
    ensures var u := Step(t, x);
      var told := StepOutcome(t, x) in {Some(Invalid), Some(Retry)} && t.deliveries[x.d].subscription == s;
      && (told ==> s < t.nextSubscription)
      && (s in u.subscriptions && s < t.nextSubscription ==>
            s in t.subscriptions && u.subscriptions[s] == t.subscriptions[s] + if told then 1 else 0)
      && (s in u.subscriptions && s >= t.nextSubscription ==> u.subscriptions[s] == 0)
  {
    if Enabled(t, x) && x.DoDeliver? && Deliverable(t, x.d) {
      DeliveredRowSays(t, x.d, x.answer, x.now, x.seen);
      DeliveredSubscriptionSays(t, x.d, x.answer, x.now, x.seen);
    }
  }

  /** On every run a live subscription's failure count is the number of failures told of it, and below five. */
  lemma {:induction false} FailuresAreCounted(xs: seq<Action>, s: nat)
    ensures var t := Run(EMPTY, xs);
      && IdsOk(t) && (s >= t.nextSubscription ==> FailuresTold(EMPTY, xs, s) == 0)
      && (s in t.subscriptions ==> t.subscriptions[s] == FailuresTold(EMPTY, xs, s) < 5)
  {
    if xs == [] {
    } else {
      FailuresAreCounted(xs[..|xs| - 1], s);
      StepCountsFailure(Run(EMPTY, xs[..|xs| - 1]), xs[|xs| - 1], s);
      RunKeepsInv(EMPTY, xs);
    }
  }

  function OfAny(s: DeliveryStatus): Delivery -> nat {
    (d: Delivery) => if d.status == s then 1 else 0
  }

  function Tries(): Delivery -> nat {
    (d: Delivery) => d.attempts
  }

  lemma WithdrawnRowsCountAlike(ds: seq<Delivery>, a: nat)
    ensures Sum(Withdraw(ds, a), OfAny(Gone)) == Sum(ds, OfAny(Gone))
    ensures Sum(Withdraw(ds, a), Tries()) == Sum(ds, Tries())
  {
    SameSum(ds, Withdraw(ds, a), OfAny(Gone));
    SameSum(ds, Withdraw(ds, a), Tries());
  }

  /** How a step shows in the rows: one more is gone for "vanished", and one more attempt is used up by a failure. */
  lemma StepShowsInRows(t: Tables, x: Action)
    ensures var u, o := Step(t, x), StepOutcome(t, x);
      && Sum(u.deliveries, OfAny(Gone)) == Sum(t.deliveries, OfAny(Gone)) + (if o == Some(Vanished) then 1 else 0)
      && Sum(u.deliveries, Tries())
         == Sum(t.deliveries, Tries()) + if o == Some(Invalid) || o == Some(Retry) then 1 else 0
  {
    if Enabled(t, x) {
      match x
      case DoDeliver(d, answer, now, seen) =>
        if Deliverable(t, d) {
          DeliveredRowSays(t, d, answer, now, seen);
          var row := Step(t, x).deliveries[d];
          assert Step(t, x).deliveries == t.deliveries[d := row];
          SumUpdate(t.deliveries, d, row, OfAny(Gone));
          SumUpdate(t.deliveries, d, row, Tries());
        }
      case DoExpire(a, _) => WithdrawnRowsCountAlike(t.deliveries, a);
      case DoCancel(a) => WithdrawnRowsCountAlike(t.deliveries, a);
      case DoCreate(_, audience, _, _) =>
        var rows := Queue(|t.announcements|, audience);
        SumConcat(t.deliveries, rows, OfAny(Gone));
        SumOfEqual(rows, OfAny(Gone), 0);
        SumConcat(t.deliveries, rows, Tries());
        SumOfEqual(rows, Tries(), 0);
      case _ =>
    }
  }

  /** Over every run: as many rows turn gone as deliveries vanish, and each failure uses up one attempt. */
  lemma {:induction false} RunShowsInRows(t: Tables, xs: seq<Action>)
    ensures var u := Run(t, xs);
      && Sum(u.deliveries, OfAny(Gone)) == Sum(t.deliveries, OfAny(Gone)) + Returned(t, xs, Vanished)
      && Sum(u.deliveries, Tries()) == Sum(t.deliveries, Tries()) + Returned(t, xs, Invalid) + Returned(t, xs, Retry)
  {
    if xs == [] {
    } else {
      RunShowsInRows(t, xs[..|xs| - 1]);
      StepShowsInRows(Run(t, xs[..|xs| - 1]), xs[|xs| - 1]);
    }
  }

  /** The tally a drain reports for a run. */
  function TallyOf(t: Tables, xs: seq<Action>): (r: Tally)
    ensures r.claimed == r.sent + r.failed + r.gone + r.retrying
  {
    var sent, failed := Returned(t, xs, Accepted), Returned(t, xs, Invalid);
    var gone, retrying := Returned(t, xs, Vanished), Returned(t, xs, Retry);
    Tally(sent + failed + gone + retrying, sent, failed, gone, retrying)
  }

  lemma {:induction false} ReturnedConcat(t: Tables, xs: seq<Action>, ys: seq<Action>, o: Outcome)
    ensures Returned(t, xs + ys, o) == Returned(t, xs, o) + Returned(Run(t, xs), ys, o)
  {
    if ys == [] {
      assert xs + ys == xs;
    } else {
      assert (xs + ys)[..|xs + ys| - 1] == xs + ys[..|ys| - 1];
      ReturnedConcat(t, xs, ys[..|ys| - 1], o);
      RunConcat(t, xs, ys[..|ys| - 1]);
    }
  }

  lemma {:induction false} NothingReturned(t: Tables, xs: seq<Action>, o: Outcome)
    requires forall i | 0 <= i < |xs| :: !xs[i].DoDeliver?
    ensures Returned(t, xs, o) == 0
  {
    if xs == [] {
    } else {
      NothingReturned(t, xs[..|xs| - 1], o);
    }
  }

  /** The drain's tally is that of its deliveries alone. */
  lemma QuietEnds(t: Tables, first: seq<Action>, xs: seq<Action>, last: seq<Action>)
    requires forall i | 0 <= i < |first| :: !first[i].DoDeliver?
    requires forall i | 0 <= i < |last| :: !last[i].DoDeliver?
    ensures TallyOf(t, first + xs + last) == TallyOf(Run(t, first), xs)
  {
    forall o: Outcome ensures Returned(t, first + xs + last, o) == Returned(Run(t, first), xs, o) {
      ReturnedConcat(t, first + xs, last, o);
      ReturnedConcat(t, first, xs, o);
      NothingReturned(t, first, o);
      NothingReturned(Run(t, first + xs), last, o);
    }
  }

  function Add(r: Tally, outcome: Outcome): Tally {
    match outcome
    case Accepted => r.(claimed := r.claimed + 1, sent := r.sent + 1)
    case Invalid => r.(claimed := r.claimed + 1, failed := r.failed + 1)
    case Vanished => r.(claimed := r.claimed + 1, gone := r.gone + 1)
    case Retry => r.(claimed := r.claimed + 1, retrying := r.retrying + 1)
  }

  lemma ReturnedGrows(t: Tables, xs: seq<Action>, x: Action, o: Outcome)
    ensures Returned(t, xs + [x], o) == Returned(t, xs, o) + if StepOutcome(Run(t, xs), x) == Some(o) then 1 else 0
  {
    assert (xs + [x])[..|xs + [x]| - 1] == xs;
  }

  lemma TallyFrom(t: Tables, xs: seq<Action>, ys: seq<Action>, o: Option<Outcome>)
    requires forall p :: Returned(t, ys, p) == Returned(t, xs, p) + if o == Some(p) then 1 else 0
    ensures TallyOf(t, ys) == if o.None? then TallyOf(t, xs) else Add(TallyOf(t, xs), o.value)
  {
    var r := TallyOf(t, xs);
    assert TallyOf(t, ys).sent == r.sent + if o == Some(Accepted) then 1 else 0;
    assert TallyOf(t, ys).failed == r.failed + if o == Some(Invalid) then 1 else 0;
    assert TallyOf(t, ys).gone == r.gone + if o == Some(Vanished) then 1 else 0;
    assert TallyOf(t, ys).retrying == r.retrying + if o == Some(Retry) then 1 else 0;
  }

  lemma TallyGrows(t: Tables, xs: seq<Action>, x: Action)
    ensures var o := StepOutcome(Run(t, xs), x);
            TallyOf(t, xs + [x]) == if o.None? then TallyOf(t, xs) else Add(TallyOf(t, xs), o.value)
  {
    var o := StepOutcome(Run(t, xs), x);
    forall p ensures Returned(t, xs + [x], p) == Returned(t, xs, p) + if o == Some(p) then 1 else 0 {
      ReturnedGrows(t, xs, x, p);
    }
    TallyFrom(t, xs, xs + [x], o);
  }

  /** Taking up claimed row `i` leaves the rows claimed after it pending. */
  lemma DeliverKeepsClaims(t: Tables, rows: seq<nat>, i: nat, answer: Outcome, now: int, seen: bool)
    requires i < |rows| && Claimed(t, rows, i)
    ensures var u := Deliver(t, rows[i], answer, now, seen).0;
            |u.announcements| == |t.announcements| && Claimed(u, rows, i + 1)
  {
    OnlyRowChanges(t, rows[i], answer, now, seen);
  }

  lemma DeliverExtends(t: Tables, xs: seq<Action>, x: Action)
    requires x.DoDeliver? && Enabled(Run(t, xs), x)
    ensures Deliver(Run(t, xs), x.d, x.answer, x.now, x.seen) == (Run(t, xs + [x]), StepOutcome(Run(t, xs), x))
  {
    assert (xs + [x])[..|xs + [x]| - 1] == xs;
  }

  lemma DeliveriesGrow(rows: seq<nat>, world: seq<Reading>, i: nat)
    requires i < |rows| == |world|
    ensures Deliveries(rows[..i + 1], world[..i + 1])
            == Deliveries(rows[..i], world[..i]) + [DoDeliver(rows[i], world[i].answer, world[i].now, world[i].seen)]
  {
  }

  /** Delivery i leads from each state and tally to the next. */
  ghost predicate DeliveryStep(
    states: seq<Tables>, tallies: seq<Tally>, rows: seq<nat>, world: seq<Reading>, i: nat)
    requires i < |rows| == |world| && |states| == |tallies| == |rows| + 1
  {
    && rows[i] < |states[i].deliveries| && |states[i + 1].announcements| == |states[i].announcements|
    && var (u, o) := Deliver(states[i], rows[i], world[i].answer, world[i].now, world[i].seen);
    u == states[i + 1] && tallies[i + 1] == if o.None? then tallies[i] else Add(tallies[i], o.value)
  }

  /** The claim along the deliveries, one row after the other. */
  lemma {:induction false} ClaimedAlong(t: Tables, rows: seq<nat>, world: seq<Reading>, i: nat)
    requires i <= |rows| == |world| && Claimed(t, rows, 0)
    ensures Claimed(Run(t, Deliveries(rows[..i], world[..i])), rows, i)
  {
    if i == 0 {
    } else {
      var xs, r := Deliveries(rows[..i - 1], world[..i - 1]), world[i - 1];
      ClaimedAlong(t, rows, world, i - 1);
      DeliveriesGrow(rows, world, i - 1);
      DeliverKeepsClaims(Run(t, xs), rows, i - 1, r.answer, r.now, r.seen);
      DeliverExtends(t, xs, DoDeliver(rows[i - 1], r.answer, r.now, r.seen));
    }
  }

  /** The states and tallies of delivering the claimed rows in order. */
  lemma {:induction false} DeliveryTrace(t: Tables, rows: seq<nat>, world: seq<Reading>)
    returns (states: seq<Tables>, tallies: seq<Tally>)
    requires |rows| == |world| && Claimed(t, rows, 0)
    ensures |states| == |tallies| == |rows| + 1 && states[0] == t && tallies[0] == Tally(0, 0, 0, 0, 0)
    ensures forall i | 0 <= i < |rows| :: DeliveryStep(states, tallies, rows, world, i)
    ensures var k := Handled(world);
            var xs := Deliveries(rows[..k], world[..k]);
            states[k] == Run(t, xs) && tallies[k] == TallyOf(t, xs)
  {
    var n := |rows|;
    states := seq(n + 1, i requires 0 <= i <= n => Run(t, Deliveries(rows[..i], world[..i])));
    tallies := seq(n + 1, i requires 0 <= i <= n => TallyOf(t, Deliveries(rows[..i], world[..i])));
    forall i | 0 <= i < n
      ensures DeliveryStep(states, tallies, rows, world, i)
    {
      var xs, r := Deliveries(rows[..i], world[..i]), world[i];
      ClaimedAlong(t, rows, world, i);
      DeliveriesGrow(rows, world, i);
      DeliverKeepsClaims(Run(t, xs), rows, i, r.answer, r.now, r.seen);
      DeliverExtends(t, xs, DoDeliver(rows[i], r.answer, r.now, r.seen));
      TallyGrows(t, xs, DoDeliver(rows[i], r.answer, r.now, r.seen));
    }
  }

  lemma OnlyRowChanges(t: Tables, d: nat, answer: Outcome, now: int, seen: bool)
    requires d < |t.deliveries|
    ensures var u := Deliver(t, d, answer, now, seen).0;
            && |u.announcements| == |t.announcements| && |u.deliveries| == |t.deliveries|
            && forall e | 0 <= e < |t.deliveries| && e != d :: u.deliveries[e] == t.deliveries[e]
  {
  }

  /**
   What one drain reports agrees with the tables: the sent counters rise by what it reports as sent, the failed
   counters by what it reports as failed plus the retries that ran into a limit, as many rows turn gone as it
   reports, and what failed or is retried has used up one attempt each.
   */
  lemma DrainReportMatchesCounters(t: Tables, rows: seq<nat>, world: seq<Reading>, start: int, end: int)
    requires Inv(t) && |rows| == |world|
    ensures var xs := DrainRun(|t.announcements|, rows, world, start, end);
      var u, tally := Run(t, xs), TallyOf(t, xs);
      && TotalSent(u.announcements) - TotalSent(t.announcements) == tally.sent
      && TotalFailed(u.announcements) - TotalFailed(t.announcements) == tally.failed + Exhausted(t, xs)
      && Sum(u.deliveries, OfAny(Gone)) - Sum(t.deliveries, OfAny(Gone)) == tally.gone
      && Sum(u.deliveries, Tries()) - Sum(t.deliveries, Tries()) == tally.failed + tally.retrying
      && tally.claimed == tally.sent + tally.failed + tally.gone + tally.retrying
      && forall s | s in u.subscriptions :: u.subscriptions[s] < MAX_FAILURES
  {
    var xs := DrainRun(|t.announcements|, rows, world, start, end);
    RunTotals(t, xs);
    RunShowsInRows(t, xs);
    RunKeepsInv(t, xs);
  }

  /** A drain is its expiries, then its deliveries, then, with the removals written, its completions. */
  lemma DrainInThreeParts(t: Tables, n: nat, rows: seq<nat>, world: seq<Reading>, start: int, end: int)
    requires |rows| == |world|
    ensures var xs := Deliveries(rows[..Handled(world)], world[..Handled(world)]);
            var drain, expired := DrainRun(n, rows, world, start, end), Run(t, Expiries(n, start));
            && Run(t, drain) == Run(Flush(Run(expired, xs)), Completions(n, end))
            && TallyOf(t, drain) == TallyOf(expired, xs)
  {
    var first, last := Expiries(n, start), [DoFlush] + Completions(n, end);
    var xs := Deliveries(rows[..Handled(world)], world[..Handled(world)]);
    RunConcat(t, first, xs);
    RunConcat(t, first + xs, last);
    FlushThen(Run(Run(t, first), xs), n, end);
    QuietEnds(t, first, xs, last);
  }

  lemma FlushThen(t: Tables, n: nat, end: int)
    ensures Run(t, [DoFlush] + Completions(n, end)) == Run(Flush(t), Completions(n, end))
  {
    RunConcat(t, [DoFlush], Completions(n, end));
    assert [DoFlush][..0] == [];
    assert Run(t, [DoFlush]) == Flush(t);
  }

  lemma HandledIs(world: seq<Reading>, k: nat)
    requires k <= |world| && (forall i | 0 <= i < k :: world[i].inTime) && (k < |world| ==> !world[k].inTime)
    ensures Handled(world) == k
  {
  }

  // ---- What a drain closes ----

  lemma ExpirySays(t: Tables, a: nat, now: int)
    requires a < |t.announcements|
    ensures var u, ann := Step(t, DoExpire(a, now)), t.announcements[a];
      var expires := ann.expiresAt <= now && (ann.status == Queued || ann.status == Sending);
      && |u.deliveries| == |t.deliveries|
      && u == t.(announcements := u.announcements, deliveries := u.deliveries)
      && u.announcements == t.announcements[
           a := if expires then ann.(status := Done, completedAt := Some(now)) else ann]
      && (forall d | 0 <= d < |t.deliveries| ::
            var row := t.deliveries[d];
            u.deliveries[d] ==
              if row.status == Pending && row.announcement == a && expires then row.(status := Withdrawn) else row)
  {
  }

  /**
   The first n expiries close exactly those of the first n announcements that are queued or sending and have
   expired, and withdraw exactly their pending deliveries.
   */
  lemma {:induction false} ExpiriesSay(t: Tables, n: nat, now: int)
    requires n <= |t.announcements|
    ensures var u := Run(t, Expiries(n, now));
      && |u.announcements| == |t.announcements| && |u.deliveries| == |t.deliveries|
      && u == t.(announcements := u.announcements, deliveries := u.deliveries)
      && (forall a | 0 <= a < |t.announcements| ::
            var row := t.announcements[a];
            u.announcements[a] ==
              if a < n && row.expiresAt <= now && (row.status == Queued || row.status == Sending)
              then row.(status := Done, completedAt := Some(now)) else row)
      && (forall d | 0 <= d < |t.deliveries| ::
            var row, a := t.deliveries[d], t.deliveries[d].announcement;
            u.deliveries[d] ==
              if row.status == Pending && a < n && t.announcements[a].expiresAt <= now
                 && (t.announcements[a].status == Queued || t.announcements[a].status == Sending)
              then row.(status := Withdrawn) else row)
  {
    if n == 0 {
    } else {
      ExpiriesSay(t, n - 1, now);
      assert Expiries(n, now)[..n - 1] == Expiries(n - 1, now);
      ExpirySays(Run(t, Expiries(n - 1, now)), n - 1, now);
    }
  }

  /** The first n completions finish exactly those that are sending and have no pending delivery left. */
  lemma {:induction false} CompletionsSay(t: Tables, n: nat, now: int)
    requires n <= |t.announcements|
    ensures var u := Run(t, Completions(n, now));
      && |u.announcements| == |t.announcements| && u == t.(announcements := u.announcements)
      && (forall a | 0 <= a < |t.announcements| ::
            var row := t.announcements[a];
            u.announcements[a] ==
              if a < n && row.status == Sending
                 && forall d | 0 <= d < |t.deliveries| && t.deliveries[d].announcement == a ::
                      t.deliveries[d].status != Pending
              then row.(status := Done, completedAt := Some(now)) else row)
  {
    if n == 0 {
    } else {
      CompletionsSay(t, n - 1, now);
      assert Completions(n, now)[..n - 1] == Completions(n - 1, now);
    }
  }

  /** What an expiry leaves of an announcement that it closes. */
  ghost predicate ClosedAsOf(t: Tables, u: Tables, a: nat, now: int)
    requires a < |t.announcements|
  {
    && Closed(u, a) && u.announcements[a] == t.announcements[a].(status := Done, completedAt := Some(now))
    && |t.deliveries| <= |u.deliveries|
    && forall d | 0 <= d < |u.deliveries| && u.deliveries[d].announcement == a ::
         && d < |t.deliveries|
         && u.deliveries[d] ==
              if t.deliveries[d].status == Pending then t.deliveries[d].(status := Withdrawn) else t.deliveries[d]
  }

  lemma ExpiriesClose(t: Tables, a: nat, now: int)
    requires a < |t.announcements| && t.announcements[a].expiresAt <= now
    requires t.announcements[a].status == Queued || t.announcements[a].status == Sending
    ensures ClosedAsOf(t, Run(t, Expiries(|t.announcements|, now)), a, now)
  {
    ExpiriesSay(t, |t.announcements|, now);
  }

  lemma UntouchedStaysClosed(t: Tables, u: Tables, v: Tables, a: nat, now: int)
    requires a < |t.announcements| && ClosedAsOf(t, u, a, now) && Closed(v, a) && Untouched(u, v, a)
    ensures ClosedAsOf(t, v, a, now)
  {
  }

  /**
   One drain: what was queued or sending and has expired is done as of its start, its pending deliveries are
   withdrawn, and nothing the drain does afterwards touches it again.
   */
  lemma DrainClosesExpired(t: Tables, a: nat, rows: seq<nat>, world: seq<Reading>, start: int, end: int)
    requires |rows| == |world| && a < |t.announcements| && t.announcements[a].expiresAt <= start
    requires t.announcements[a].status == Queued || t.announcements[a].status == Sending
    ensures ClosedAsOf(t, Run(t, DrainRun(|t.announcements|, rows, world, start, end)), a, start)
  {
    var first, k := Expiries(|t.announcements|, start), Handled(world);
    var rest := Deliveries(rows[..k], world[..k]) + ([DoFlush] + Completions(|t.announcements|, end));
    var expired := Run(t, first);
    ExpiriesClose(t, a, start);
    RunKeepsClosed(expired, rest, a);
    UntouchedStaysClosed(t, expired, Run(expired, rest), a, start);
    RunConcat(t, first, rest);
    assert DrainRun(|t.announcements|, rows, world, start, end) == first + rest;
  }

  lemma {:induction false} DeliveriesTouchOnlyTheirs(t: Tables, rows: seq<nat>, world: seq<Reading>, d: nat)
    requires |rows| == |world| && d < |t.deliveries| && d !in rows
    ensures var u := Run(t, Deliveries(rows, world));
      |u.announcements| == |t.announcements| && |u.deliveries| == |t.deliveries| && u.deliveries[d] == t.deliveries[d]
  {
    if rows == [] {
    } else {
      var n := |rows| - 1;
      DeliveriesTouchOnlyTheirs(t, rows[..n], world[..n], d);
      assert Deliveries(rows, world)[..n] == Deliveries(rows[..n], world[..n]);
      var before, r := Run(t, Deliveries(rows[..n], world[..n])), world[n];
      assert rows[n] in rows;
      if rows[n] < |before.deliveries| {
        OnlyRowChanges(before, rows[n], r.answer, r.now, r.seen);
      }
    }
  }

  /** A delivery that the drain neither takes up in time nor withdraws is left as it is. */
  lemma DrainTouchesOnlyClaims(t: Tables, d: nat, rows: seq<nat>, world: seq<Reading>, start: int, end: int)
    requires |rows| == |world| && d < |t.deliveries| && d !in rows[..Handled(world)]
    requires var row, all := t.deliveries[d], t.announcements;
             row.status == Pending && row.announcement < |all| && all[row.announcement].status in {Queued, Sending}
             ==> all[row.announcement].expiresAt > start
    ensures var u := Run(t, DrainRun(|t.announcements|, rows, world, start, end));
      |u.deliveries| == |t.deliveries| && u.deliveries[d] == t.deliveries[d]
  {
    var n, k := |t.announcements|, Handled(world);
    var expired := Run(t, Expiries(n, start));
    ExpiriesSay(t, n, start);
    DeliveriesTouchOnlyTheirs(expired, rows[..k], world[..k], d);
    CompletionsSay(Flush(Run(expired, Deliveries(rows[..k], world[..k]))), n, end);
    DrainInThreeParts(t, n, rows, world, start, end);
  }

  /** An announcement that is queued or sending is so after the deliveries as well. */
  lemma {:induction false} DeliveriesKeepActive(t: Tables, rows: seq<nat>, world: seq<Reading>, a: nat)
    requires |rows| == |world| && a < |t.announcements| && t.announcements[a].status in {Queued, Sending}
    ensures var u := Run(t, Deliveries(rows, world));
      |u.announcements| == |t.announcements| && u.announcements[a].status in {Queued, Sending}
  {
    if rows == [] {
    } else {
      var n := |rows| - 1;
      DeliveriesKeepActive(t, rows[..n], world[..n], a);
      assert Deliveries(rows, world)[..n] == Deliveries(rows[..n], world[..n]);
      var before, r := Run(t, Deliveries(rows[..n], world[..n])), world[n];
      if rows[n] < |before.deliveries| && Deliverable(before, rows[n]) {
        DeliveredAnnouncementSays(before, rows[n], r.answer, r.now, r.seen);
      }
    }
  }

  /** How a pending row looks once it was delivered with this answer. */
  predicate Handles(row: Delivery, after: Delivery, answer: Outcome, now: int) {
    || after == row.(status := Gone, claimedAt := Some(now))
    || (answer == Accepted && after == row.(status := Sent, claimedAt := Some(now)))
    || ((answer == Invalid || answer == Retry) && after.status in {Failed, Pending}
        && after == row.(status := after.status, attempts := row.attempts + 1, claimedAt := None))
  }

  lemma {:induction false} DeliveriesHandleTheirs(t: Tables, rows: seq<nat>, world: seq<Reading>, i: nat)
    requires i < |rows| == |world| && Claimed(t, rows, 0)
    requires var a := t.deliveries[rows[i]].announcement;
             a < |t.announcements| && t.announcements[a].status in {Queued, Sending}
    ensures var u, d := Run(t, Deliveries(rows, world)), rows[i];
      |u.deliveries| == |t.deliveries| && Handles(t.deliveries[d], u.deliveries[d], world[i].answer, world[i].now)
  {
    var d, r := rows[i], world[i];
    var first, rest := Deliveries(rows[..i], world[..i]), Deliveries(rows[i + 1..], world[i + 1..]);
    var x := DoDeliver(d, r.answer, r.now, r.seen);
    assert Deliveries(rows, world) == first + [x] + rest;
    DeliveriesTouchOnlyTheirs(t, rows[..i], world[..i], d);
    DeliveriesKeepActive(t, rows[..i], world[..i], t.deliveries[d].announcement);
    var before := Run(t, first);
    DeliveredRowSays(before, d, r.answer, r.now, r.seen);
    RunConcat(t, first + [x], rest);
    assert (first + [x])[..i] == first;
    DeliveriesTouchOnlyTheirs(Step(before, x), rows[i + 1..], world[i + 1..], d);
  }

  /** Every claimed row that the drain takes up in time, and whose announcement goes on, is delivered. */
  lemma DrainHandlesClaims(t: Tables, i: nat, rows: seq<nat>, world: seq<Reading>, start: int, end: int)
    requires |rows| == |world| && i < Handled(world)
    requires Claimed(Run(t, Expiries(|t.announcements|, start)), rows, 0) && rows[i] < |t.deliveries|
    requires var a := t.deliveries[rows[i]].announcement;
             && a < |t.announcements| && t.announcements[a].expiresAt > start
             && t.announcements[a].status in {Queued, Sending}
    ensures var u, d := Run(t, DrainRun(|t.announcements|, rows, world, start, end)), rows[i];
      |u.deliveries| == |t.deliveries| && Handles(t.deliveries[d], u.deliveries[d], world[i].answer, world[i].now)
  {
    var n, k := |t.announcements|, Handled(world);
    var expired := Run(t, Expiries(n, start));
    ExpiriesSay(t, n, start);
    DeliveriesHandleTheirs(expired, rows[..k], world[..k], i);
    DeliveriesKeepActive(expired, rows[..k], world[..k], t.deliveries[rows[i]].announcement);
    CompletionsSay(Flush(Run(expired, Deliveries(rows[..k], world[..k]))), n, end);
    DrainInThreeParts(t, n, rows, world, start, end);
  }
}

/**
 The services that change the announcement tables in place: creating and cancelling announcements,
 and the drain, which expires, delivers and completes. Each is proved to take exactly the steps of
 module Push.
 */
module PushService {
  import opened Wrappers
  import opened Push
  import opened PushRuns
  import opened PushDrain

  datatype Error = NotFound | CannotCancel

  class PushStore {
    var announcements: seq<Announcement>
    var deliveries: seq<Delivery>
    var subscriptions: map<nat, nat>
    var nextSubscription: nat
    var unflushed: map<nat, nat>
    var inbox: set<(nat, nat)>

    function View(): Tables
      reads this
    {
      Tables(announcements, deliveries, subscriptions, nextSubscription, unflushed, inbox)
    }

    constructor ()
      ensures View() == EMPTY && Inv(View()) && InboxOk(View())
    {
      announcements, deliveries, subscriptions, nextSubscription, unflushed, inbox := [], [], map[], 0, map[], {};
    }

    /** Queues one delivery per subscription of the audience; with none the announcement is done at once. */
    method CreateAnnouncement(students: seq<nat>, audience: seq<nat>, expiresAt: int, now: int) returns (a: nat)
      modifies this
      ensures a == |old(announcements)|
      ensures View() == Create(old(View()), students, audience, expiresAt, now)
      ensures announcements == old(announcements) + [
                if audience == [] then Announcement(Done, expiresAt, 0, 0, 0, Some(now))
                else Announcement(Queued, expiresAt, |audience|, 0, 0, None)]
      ensures |deliveries| == |old(deliveries)| + |audience| && old(deliveries) <= deliveries
      ensures forall i | 0 <= i < |audience| ::
                deliveries[|old(deliveries)| + i] == Delivery(a, audience[i], Pending, 0, None)
      ensures forall x :: x in inbox <==> x in old(inbox) || (x.0 == a && x.1 in students)
    {
      a := |announcements|;
      inbox := inbox + Notices(a, students);
      announcements := announcements + [Announcement(Queued, expiresAt, 0, 0, 0, None)];
      var i := 0;
      while i < |audience|
        invariant i <= |audience|
        invariant announcements == old(announcements) + [Announcement(Queued, expiresAt, 0, 0, 0, None)]
        invariant subscriptions == old(subscriptions) && nextSubscription == old(nextSubscription)
        invariant unflushed == old(unflushed) && inbox == old(inbox) + Notices(a, students)
        invariant deliveries == old(deliveries) + Queue(a, audience)[..i]
      {
        deliveries := deliveries + [Delivery(a, audience[i], Pending, 0, None)];
        i := i + 1;
      }
      announcements := announcements[a := announcements[a].(recipientCount := |audience|)];
      if audience == [] {
        announcements := announcements[a := announcements[a].(status := Done, completedAt := Some(now))];
      }
      assert Queue(a, audience)[..i] == Queue(a, audience);
    }

    method WithdrawPending(a: nat)
      modifies this`deliveries
      ensures deliveries == Withdraw(old(deliveries), a) && |deliveries| == |old(deliveries)|
      ensures forall d | 0 <= d < |deliveries| ::
                var row := old(deliveries)[d];
                deliveries[d] ==
                  if row.announcement == a && row.status == Pending then row.(status := Withdrawn) else row
    {
      var d := 0;
      while d < |deliveries|
        invariant d <= |deliveries| == |old(deliveries)|
        invariant forall i | 0 <= i < |deliveries| ::
                    deliveries[i] == if i < d then WithdrawRow(old(deliveries[i]), a) else old(deliveries[i])
      {
        if deliveries[d].announcement == a && deliveries[d].status.Pending? {
          deliveries := deliveries[d := deliveries[d].(status := Withdrawn)];
        }
        d := d + 1;
      }
    }

    /** Refuses unknown and finished announcements; otherwise takes the cancel step. */
    method CancelAnnouncement(a: nat) returns (r: Result<(), Error>)
      modifies this
      ensures r == if a >= |old(announcements)| then Err(NotFound)
                   else if old(announcements)[a].status in {Done, Cancelled} then Err(CannotCancel)
                   else Ok(())
      ensures View() == if r.Ok? then Step(old(View()), DoCancel(a)) else old(View())
      ensures r.Ok? ==> announcements == old(announcements)[a := old(announcements)[a].(status := Cancelled)]
      ensures r.Ok? ==> |deliveries| == |old(deliveries)| && forall d | 0 <= d < |deliveries| ::
                var row := old(deliveries)[d];
                deliveries[d] ==
                  if row.announcement == a && row.status == Pending then row.(status := Withdrawn) else row
      ensures r.Ok? ==> forall x :: x in inbox <==> x in old(inbox) && x.0 != a
    {
      if a >= |announcements| {
        return Err(NotFound);
      }
      if !announcements[a].Active() {
        return Err(CannotCancel);
      }
      WithdrawPending(a);
      announcements := announcements[a := announcements[a].(status := Cancelled)];
      inbox := set x | x in inbox && x.0 != a;
      return Ok(());
    }

    method ExpireAnnouncements(now: int)
      modifies this
      ensures |announcements| == |old(announcements)| && |deliveries| == |old(deliveries)|
      ensures View() == Run(old(View()), Expiries(|old(announcements)|, now))
      ensures forall a | 0 <= a < |announcements| ::
                var row := old(announcements)[a];
                announcements[a] ==
                  if row.expiresAt <= now && (row.status == Queued || row.status == Sending)
                  then row.(status := Done, completedAt := Some(now)) else row
      ensures forall d | 0 <= d < |deliveries| ::
                var row, all := old(deliveries)[d], old(announcements);
                var a := row.announcement;
                deliveries[d] ==
                  if row.status == Pending && a < |all| && all[a].expiresAt <= now
                     && (all[a].status == Queued || all[a].status == Sending)
                  then row.(status := Withdrawn) else row
      ensures subscriptions == old(subscriptions) && nextSubscription == old(nextSubscription)
      ensures unflushed == old(unflushed) && inbox == old(inbox)
    {
      var a := 0;
      ghost var t := View();
      while a < |announcements|
        invariant a <= |announcements| == |t.announcements|
        invariant View() == Run(t, Expiries(a, now))
      {
        assert Expiries(a + 1, now)[..a] == Expiries(a, now);
        if announcements[a].expiresAt <= now && announcements[a].Active() {
          WithdrawPending(a);
          announcements := announcements[a := announcements[a].(status := Done, completedAt := Some(now))];
        }
        a := a + 1;
      }
      ExpiriesSay(t, a, now);
    }

    /** Removing is only noted here; it is written with the next flush. */
    method Remove(s: nat)
      requires Found(View(), s, true)
      modifies `subscriptions, `unflushed
      ensures View() == RemoveSubscription(old(View()), s, Failures(old(View()), s))
    {
      unflushed := unflushed[s := if s in subscriptions then subscriptions[s] else unflushed[s]];
      subscriptions := subscriptions - {s};
    }

    method CountFailure(s: nat) returns (failures: nat)
      requires Found(View(), s, true)
      modifies `subscriptions, `unflushed
      ensures failures == Failures(old(View()), s) + 1
      ensures Found(View(), s, true) && View() == SetFailures(old(View()), s, failures)
    {
      if s in subscriptions {
        failures := subscriptions[s] + 1;
        subscriptions := subscriptions[s := failures];
      } else {
        failures := unflushed[s] + 1;
        unflushed := unflushed[s := failures];
      }
    }

    method ApplyOutcome(d: nat, a: nat, outcome: Outcome)
      requires d < |deliveries| && a < |announcements| && Found(View(), deliveries[d].subscription, true)
      modifies this
      ensures View() == Apply(old(View()), d, a, outcome)
    {
      var s := deliveries[d].subscription;
      if outcome.Accepted? {
        deliveries := deliveries[d := deliveries[d].(status := Sent)];
        announcements := announcements[a := announcements[a].(sentCount := announcements[a].sentCount + 1)];
        return;
      }
      if outcome.Vanished? {
        deliveries := deliveries[d := deliveries[d].(status := Gone)];
        Remove(s);
        return;
      }
      deliveries := deliveries[d := deliveries[d].(attempts := deliveries[d].attempts + 1)];
      var failures := CountFailure(s);
      if outcome.Invalid? || deliveries[d].attempts >= MAX_ATTEMPTS || failures >= MAX_FAILURES {
        deliveries := deliveries[d := deliveries[d].(status := Failed)];
        announcements := announcements[a := announcements[a].(failedCount := announcements[a].failedCount + 1)];
        deliveries := deliveries[d := deliveries[d].(claimedAt := None)];
        if failures >= MAX_FAILURES {
          Remove(s);
        }
        return;
      }
      deliveries := deliveries[d := deliveries[d].(status := Pending, claimedAt := None)];
    }

    method DeliverOne(d: nat, answer: Outcome, now: int, seen: bool) returns (outcome: Option<Outcome>)
      requires d < |deliveries|
      modifies this
      ensures (View(), outcome) == Deliver(old(View()), d, answer, now, seen)
    {
      var a := deliveries[d].announcement;
      if a >= |announcements| || !announcements[a].Active() {
        return None;
      }
      var s := deliveries[d].subscription;
      deliveries := deliveries[d := deliveries[d].(claimedAt := Some(now))];
      if announcements[a].status.Queued? {
        announcements := announcements[a := announcements[a].(status := Sending)];
      }
      assert announcements == old(announcements)[a := old(announcements)[a].(status := Sending)];
      if s !in subscriptions && !(seen && s in unflushed) {
        deliveries := deliveries[d := deliveries[d].(status := Gone)];
        return Some(Vanished);
      }
      ApplyOutcome(d, a, answer);
      return Some(answer);
    }

    method CompleteAnnouncements(now: int)
      modifies this
      ensures |announcements| == |old(announcements)|
      ensures View() == Run(old(View()), Completions(|old(announcements)|, now))
      ensures View() == old(View()).(announcements := announcements)
      ensures forall a | 0 <= a < |announcements| ::
                var row := old(announcements)[a];
                announcements[a] ==
                  if row.status == Sending
                     && forall d | 0 <= d < |deliveries| && deliveries[d].announcement == a ::
                          deliveries[d].status != Pending
                  then row.(status := Done, completedAt := Some(now)) else row
    {
      var a := 0;
      ghost var t := View();
      while a < |announcements|
        invariant a <= |announcements| == |t.announcements| && View() == Run(t, Completions(a, now))
      {
        assert Completions(a + 1, now)[..a] == Completions(a, now);
        if announcements[a].status.Sending? {
          var pending := HasPending(a);
          if !pending {
            announcements := announcements[a := announcements[a].(status := Done, completedAt := Some(now))];
          }
        }
        a := a + 1;
      }
      CompletionsSay(t, a, now);
    }

    method HasPending(a: nat) returns (found: bool)
      ensures found
        <==> exists d :: 0 <= d < |deliveries| && deliveries[d].announcement == a && deliveries[d].status.Pending?
    {
      var d := 0;
      while d < |deliveries|
        invariant d <= |deliveries|
        invariant forall i | 0 <= i < d :: !(deliveries[i].announcement == a && deliveries[i].status.Pending?)
      {
        if deliveries[d].announcement == a && deliveries[d].status.Pending? {
          return true;
        }
        d := d + 1;
      }
      return false;
    }

    /** Delivers row i of the claim and counts its outcome. */
    method DeliverAndCount(rows: seq<nat>, world: seq<Reading>, i: nat, before: Tally,
                           ghost states: seq<Tables>, ghost tallies: seq<Tally>)
      returns (tally: Tally)
      requires i < |rows| == |world| && |states| == |tallies| == |rows| + 1
      requires View() == states[i] && before == tallies[i] && DeliveryStep(states, tallies, rows, world, i)
      modifies this
      ensures View() == states[i + 1] && tally == tallies[i + 1] && |announcements| == |old(announcements)|
    {
      tally := before;
      var outcome := DeliverOne(rows[i], world[i].answer, world[i].now, world[i].seen);
      if outcome.Some? {
        tally := Add(tally, outcome.value);
      }
    }

    /** Delivers the claimed rows in order until the deadline. */
    method DeliverUntil(rows: seq<nat>, world: seq<Reading>, ghost states: seq<Tables>, ghost tallies: seq<Tally>)
      returns (tally: Tally)
      requires |rows| == |world| && |states| == |tallies| == |rows| + 1
      requires View() == states[0] && tallies[0] == Tally(0, 0, 0, 0, 0)
      requires forall i | 0 <= i < |rows| :: DeliveryStep(states, tallies, rows, world, i)
      modifies this
      ensures View() == states[Handled(world)] && tally == tallies[Handled(world)]
      ensures |announcements| == |old(announcements)|
    {
      tally := Tally(0, 0, 0, 0, 0);
      var i := 0;
      while i < |rows| && world[i].inTime
        invariant i <= |rows| && forall j | 0 <= j < i :: world[j].inTime
        invariant |announcements| == |old(announcements)| && View() == states[i] && tally == tallies[i]
      {
        tally := DeliverAndCount(rows, world, i, tally, states, tallies);
        i := i + 1;
      }
      HandledIs(world, i);
    }

    method DeliverRows(rows: seq<nat>, world: seq<Reading>) returns (tally: Tally)
      requires |rows| == |world| && Claimed(View(), rows, 0)
      modifies this
      ensures |announcements| == |old(announcements)|
      ensures var xs := Deliveries(rows[..Handled(world)], world[..Handled(world)]);
              View() == Run(old(View()), xs) && tally == TallyOf(old(View()), xs)
    {
      ghost var states, tallies := DeliveryTrace(View(), rows, world);
      tally := DeliverUntil(rows, world, states, tallies);
    }

    /**
     One drain. It takes exactly the steps of `DrainRun`, reports their outcomes, and leaves an
     announcement sending only if one of its deliveries is still pending.
     */
    method Process(rows: seq<nat>, world: seq<Reading>, start: int, end: int) returns (tally: Tally)
      requires |rows| == |world|
      requires Claimed(Run(View(), Expiries(|announcements|, start)), rows, 0)
      modifies this
      ensures View() == Run(old(View()), DrainRun(|old(announcements)|, rows, world, start, end))
      ensures tally == TallyOf(old(View()), DrainRun(|old(announcements)|, rows, world, start, end))
      ensures forall a | 0 <= a < |announcements| && announcements[a].status.Sending? ::
                exists d :: 0 <= d < |deliveries| && deliveries[d].announcement == a && deliveries[d].status.Pending?
      ensures unflushed == map[]
      ensures forall a | 0 <= a < |old(announcements)| && old(announcements)[a].expiresAt <= start
                         && old(announcements)[a].status in {Queued, Sending} ::
                && a < |announcements|
                && announcements[a] == old(announcements)[a].(status := Done, completedAt := Some(start))
                && forall d | 0 <= d < |deliveries| && deliveries[d].announcement == a ::
                     deliveries[d].status != Pending
    {
      ghost var t, n := View(), |announcements|;
      forall a | 0 <= a < n && announcements[a].expiresAt <= start && announcements[a].status in {Queued, Sending}
        ensures var u := Run(t, DrainRun(n, rows, world, start, end));
          && Closed(u, a)
          && u.announcements[a] == t.announcements[a].(status := Done, completedAt := Some(start))
      {
        DrainClosesExpired(t, a, rows, world, start, end);
      }
      DrainInThreeParts(t, n, rows, world, start, end);
      ExpireAnnouncements(start);
      tally := DeliverRows(rows, world);
      unflushed := map[];
      CompleteAnnouncements(end);
    }
  }
}

/**
 Announcements, their deliveries and the push subscriptions they share, as tables, and every step
 that changes them: create, deliver, expire, complete, cancel, subscribe and unsubscribe.

 A row's id is its position in its table. Rows of announcements and deliveries are never removed;
 subscriptions are.
 */
module Push {
  import opened Wrappers

  const MAX_ATTEMPTS := 3
  const MAX_FAILURES := 5

  // `Done` and `Withdrawn` are the stored values SENT of an announcement and CANCELLED of a delivery.
  datatype AnnouncementStatus = Queued | Sending | Done | Cancelled
  datatype DeliveryStatus = Pending | Sent | Failed | Gone | Withdrawn

  /** What the push gateway answered. */
  datatype Outcome = Accepted | Vanished | Invalid | Retry

  datatype Announcement = Announcement(
    status: AnnouncementStatus, expiresAt: int,
    recipientCount: nat, sentCount: nat, failedCount: nat, completedAt: Option<int>)
  {
    predicate Active() { status.Queued? || status.Sending? }
  }

  datatype Delivery = Delivery(
    announcement: nat, subscription: nat, status: DeliveryStatus, attempts: nat, claimedAt: Option<int>)

  /**
   `subscriptions` maps each live subscription to its failure count. `unflushed` holds those that the running
   drain has removed but not yet written: looking one of them up may still find it. `inbox` has an entry for
   each notice of an announcement to a student.
   */
  datatype Tables = Tables(
    announcements: seq<Announcement>, deliveries: seq<Delivery>,
    subscriptions: map<nat, nat>, nextSubscription: nat, unflushed: map<nat, nat>, inbox: set<(nat, nat)>)

  const EMPTY := Tables([], [], map[], 0, map[], {})

  // ---- The steps ----

  /** A new subscription starts without failures. */
  function Subscribe(t: Tables): Tables {
    t.(subscriptions := t.subscriptions[t.nextSubscription := 0], nextSubscription := t.nextSubscription + 1)
  }

  function Unsubscribe(t: Tables, s: nat): Tables {
    t.(subscriptions := t.subscriptions - {s})
  }

  function Queue(a: nat, audience: seq<nat>): (ds: seq<Delivery>)
    ensures |ds| == |audience|
    ensures forall i | 0 <= i < |ds| :: ds[i] == Delivery(a, audience[i], Pending, 0, None)
  {
    seq(|audience|, i requires 0 <= i < |audience| => Delivery(a, audience[i], Pending, 0, None))
  }

  function Notices(a: nat, students: seq<nat>): set<(nat, nat)> {
    set u | u in students :: (a, u)
  }

  /** Notices go to all students of the audience, deliveries to its subscriptions. */
  function Create(t: Tables, students: seq<nat>, audience: seq<nat>, expiresAt: int, now: int): Tables {
    var row := if audience == [] then Announcement(Done, expiresAt, 0, 0, 0, Some(now))
               else Announcement(Queued, expiresAt, |audience|, 0, 0, None);
    t.(announcements := t.announcements + [row],
       deliveries := t.deliveries + Queue(|t.announcements|, audience),
       inbox := t.inbox + Notices(|t.announcements|, students))
  }

  /** Whether looking up the subscription finds it; `seen` says whether a removal is still unnoticed. */
  predicate Found(t: Tables, s: nat, seen: bool) {
    s in t.subscriptions || (seen && s in t.unflushed)
  }

  function Failures(t: Tables, s: nat): nat
    requires Found(t, s, true)
  {
    if s in t.subscriptions then t.subscriptions[s] else t.unflushed[s]
  }

  function SetFailures(t: Tables, s: nat, failures: nat): Tables {
    if s in t.subscriptions then t.(subscriptions := t.subscriptions[s := failures])
    else t.(unflushed := t.unflushed[s := failures])
  }

  function RemoveSubscription(t: Tables, s: nat, failures: nat): Tables {
    t.(subscriptions := t.subscriptions - {s}, unflushed := t.unflushed[s := failures])
  }

  /** The removals are written, and from then on noticed. */
  function Flush(t: Tables): Tables {
    t.(unflushed := map[])
  }

  /** The outcome `_apply` is given for a delivery whose subscription was found. */
  function Apply(t: Tables, d: nat, a: nat, outcome: Outcome): Tables
    requires d < |t.deliveries| && a < |t.announcements| && Found(t, t.deliveries[d].subscription, true)
  {
    var row, ann := t.deliveries[d], t.announcements[a];
    var s := row.subscription;
    if outcome.Accepted? then
      t.(deliveries := t.deliveries[d := row.(status := Sent)],
         announcements := t.announcements[a := ann.(sentCount := ann.sentCount + 1)])
    else if outcome.Vanished? then
      RemoveSubscription(t, s, Failures(t, s)).(deliveries := t.deliveries[d := row.(status := Gone)])
    else
      var attempts, failures := row.attempts + 1, Failures(t, s) + 1;
      var u := if failures >= MAX_FAILURES then RemoveSubscription(t, s, failures) else SetFailures(t, s, failures);
      if outcome.Invalid? || attempts >= MAX_ATTEMPTS || failures >= MAX_FAILURES then
        u.(deliveries := t.deliveries[d := row.(status := Failed, attempts := attempts, claimedAt := None)],
           announcements := t.announcements[a := ann.(failedCount := ann.failedCount + 1)])
      else
        u.(deliveries := t.deliveries[d := row.(status := Pending, attempts := attempts, claimedAt := None)])
  }

  /** Whether the announcement of delivery `d` may still be sent. */
  predicate Deliverable(t: Tables, d: nat)
    requires d < |t.deliveries|
  {
    var a := t.deliveries[d].announcement;
    a < |t.announcements| && t.announcements[a].Active()
  }

  /** `_deliver`: the new tables, and the outcome unless the announcement is no longer active. */
  function Deliver(t: Tables, d: nat, answer: Outcome, now: int, seen: bool): (r: (Tables, Option<Outcome>))
    requires d < |t.deliveries|
  {
    if !Deliverable(t, d) then (t, None)
    else
      var row := t.deliveries[d];
      var a := row.announcement;
      var u := t.(deliveries := t.deliveries[d := row.(claimedAt := Some(now))],
                  announcements := t.announcements[a := t.announcements[a].(status := Sending)]);
      if !Found(t, row.subscription, seen) then
        (u.(deliveries := u.deliveries[d := u.deliveries[d].(status := Gone)]), Some(Vanished))
      else
        (Apply(u, d, a, answer), Some(answer))
  }

  function Withdraw(ds: seq<Delivery>, a: nat): (r: seq<Delivery>)
    ensures |r| == |ds|
    ensures forall i | 0 <= i < |ds| :: r[i] == WithdrawRow(ds[i], a)
  {
    seq(|ds|, i requires 0 <= i < |ds| => WithdrawRow(ds[i], a))
  }

  function WithdrawRow(d: Delivery, a: nat): Delivery {
    if d.announcement == a && d.status.Pending? then d.(status := Withdrawn) else d
  }

  predicate Due(t: Tables, a: nat, now: int)
    requires a < |t.announcements|
  {
    t.announcements[a].expiresAt <= now && t.announcements[a].Active()
  }

  function Expire(t: Tables, a: nat, now: int): Tables
    requires a < |t.announcements|
  {
    t.(deliveries := Withdraw(t.deliveries, a),
       announcements := t.announcements[a := t.announcements[a].(status := Done, completedAt := Some(now))])
  }

  predicate Finished(t: Tables, a: nat)
    requires a < |t.announcements|
  {
    && t.announcements[a].status.Sending?
    && forall d | 0 <= d < |t.deliveries| :: !(t.deliveries[d].announcement == a && t.deliveries[d].status.Pending?)
  }

  function Complete(t: Tables, a: nat, now: int): Tables
    requires a < |t.announcements|
  {
    t.(announcements := t.announcements[a := t.announcements[a].(status := Done, completedAt := Some(now))])
  }

  function Cancel(t: Tables, a: nat): Tables
    requires a < |t.announcements|
  {
    t.(deliveries := Withdraw(t.deliveries, a),
       announcements := t.announcements[a := t.announcements[a].(status := Cancelled)],
       inbox := set x | x in t.inbox && x.0 != a)
  }

  // ---- Runs ----

  datatype Action =
    | DoSubscribe
    | DoUnsubscribe(s: nat)
    | DoCreate(students: seq<nat>, audience: seq<nat>, expiresAt: int, now: int)
    | DoDeliver(d: nat, answer: Outcome, now: int, seen: bool)
    | DoFlush
    | DoExpire(a: nat, now: int)
    | DoComplete(a: nat, now: int)
    | DoCancel(a: nat)

  /** When the service would take the step. Deliveries come from a claim, which yields PENDING rows. */
  predicate Enabled(t: Tables, x: Action) {
    match x
    case DoSubscribe => true
    case DoUnsubscribe(_) => true
    case DoCreate(_, audience, _, _) => forall s | s in audience :: s in t.subscriptions
    case DoFlush => true
    case DoDeliver(d, _, _, _) => d < |t.deliveries| && t.deliveries[d].status.Pending?
    case DoExpire(a, now) => a < |t.announcements| && Due(t, a, now)
    case DoComplete(a, _) => a < |t.announcements| && Finished(t, a)
    case DoCancel(a) => a < |t.announcements| && t.announcements[a].Active()
  }

  /** A step that is not enabled is refused and changes nothing. */
  function Step(t: Tables, x: Action): Tables {
    if !Enabled(t, x) then t else
    match x
    case DoSubscribe => Subscribe(t)
    case DoUnsubscribe(s) => Unsubscribe(t, s)
    case DoCreate(students, audience, expiresAt, now) => Create(t, students, audience, expiresAt, now)
    case DoFlush => Flush(t)
    case DoDeliver(d, answer, now, seen) => Deliver(t, d, answer, now, seen).0
    case DoExpire(a, now) => Expire(t, a, now)
    case DoComplete(a, now) => Complete(t, a, now)
    case DoCancel(a) => Cancel(t, a)
  }

  function Run(t: Tables, xs: seq<Action>): Tables {
    if xs == [] then t else Step(Run(t, xs[..|xs| - 1]), xs[|xs| - 1])
  }

  // ---- Sums over the delivery table ----

  function Sum(ds: seq<Delivery>, f: Delivery -> nat): nat {
    if ds == [] then 0 else Sum(ds[..|ds| - 1], f) + f(ds[|ds| - 1])
  }

  function Of(a: nat): Delivery -> nat {
    (d: Delivery) => if d.announcement == a then 1 else 0
  }

  function OfStatus(a: nat, s: DeliveryStatus): Delivery -> nat {
    (d: Delivery) => if d.announcement == a && d.status == s then 1 else 0
  }

  /** How many more outcomes the pending deliveries of `a` can still return. */
  function Effort(a: nat): Delivery -> nat {
    (d: Delivery) =>
      if d.announcement == a && d.status.Pending? && d.attempts < MAX_ATTEMPTS then MAX_ATTEMPTS - d.attempts
      else 0
  }

  function Work(t: Tables, a: nat): nat {
    Sum(t.deliveries, Effort(a))
  }

  lemma {:induction false} SumUpdate(ds: seq<Delivery>, i: nat, d: Delivery, f: Delivery -> nat)
    requires i < |ds|
    ensures Sum(ds[i := d], f) == Sum(ds, f) - f(ds[i]) + f(d)
  {
    var n := |ds| - 1;
    if i < n {
      assert ds[i := d][..n] == ds[..n][i := d];
      SumUpdate(ds[..n], i, d, f);
    } else {
      assert ds[i := d][..n] == ds[..n];
    }
  }

  lemma {:induction false} SumAtMost(ds: seq<Delivery>, es: seq<Delivery>, f: Delivery -> nat)
    requires |ds| == |es| && forall i | 0 <= i < |ds| :: f(ds[i]) <= f(es[i])
    ensures Sum(ds, f) <= Sum(es, f)
  {
    if ds == [] {
    } else {
      SumAtMost(ds[..|ds| - 1], es[..|es| - 1], f);
    }
  }

  lemma {:induction false} SumConcat(ds: seq<Delivery>, es: seq<Delivery>, f: Delivery -> nat)
    ensures Sum(ds + es, f) == Sum(ds, f) + Sum(es, f)
  {
    if es == [] {
      assert ds + es == ds;
    } else {
      assert (ds + es)[..|ds + es| - 1] == ds + es[..|es| - 1];
      SumConcat(ds, es[..|es| - 1], f);
    }
  }

  lemma {:induction false} SumOfEqual(ds: seq<Delivery>, f: Delivery -> nat, k: nat)
    requires forall i | 0 <= i < |ds| :: f(ds[i]) == k
    ensures Sum(ds, f) == k * |ds|
  {
    if ds == [] {
    } else {
      SumOfEqual(ds[..|ds| - 1], f, k);
    }
  }

  lemma {:induction false} SumPositive(ds: seq<Delivery>, f: Delivery -> nat)
    ensures Sum(ds, f) > 0 <==> exists i :: 0 <= i < |ds| && f(ds[i]) > 0
  {
    if ds == [] {
    } else {
      var n := |ds| - 1;
      SumPositive(ds[..n], f);
      if i :| 0 <= i < |ds| && f(ds[i]) > 0 {
        assert i < n ==> ds[..n][i] == ds[i];
      }
    }
  }
}

/**
 The practice exit: the graded test that completes a lesson. One open attempt at a time, a wait after
 a failed one, a bounded record of results, and completion only by passing. Times are microseconds.
 */
module PracticeExit {
  import opened Wrappers

  const EXIT_COOLDOWN := 1_800_000_000  // thirty minutes
  const RECORDS_KEPT := 20
  const BEST_OF := 3

  /** `at` is None when the stored text is not a time. */
  datatype Record = Record(attemptId: nat, percentage: real, passed: bool, at: Option<int>)

  datatype Marker = Marker(attemptId: nat, startedAt: int)

  /** `other` stands for what the client may write; it is carried along. */
  datatype Checkpoint = Checkpoint(exit: Option<Marker>, practice: seq<Record>, other: map<string, string>)

  datatype LessonStatus = NotStarted | InProgress | Completed

  const FIRST_REVISION := 86_400_000_000  // one day

  /** The learning event of a completed lesson; the score it stores is a hundredth of the percentage. */
  datatype Learned = Learned(attemptId: nat, percentage: real, at: int)

  /** A lesson's progress row, and the learning events the exits of the lesson have left. */
  datatype Progress = Progress(
    status: LessonStatus, masteryScore: int, checkpoint: Checkpoint,
    completionPercent: int, revisionDue: Option<int>, lastAccessed: Option<int>, events: seq<Learned>)

  // ---- The rules ----

  function LastOf<T>(s: seq<T>, n: nat): (r: seq<T>)
    ensures |r| == if |s| < n then |s| else n
    ensures forall i | 0 <= i < |r| :: r[i] == s[|s| - |r| + i]
  {
    if |s| < n then s else s[|s| - n..]
  }

  /** `round`: to the nearest integer, ties to the even one. */
  function Round(x: real): int {
    var low := x.Floor;
    var rest := x - low as real;
    if rest < 0.5 || (rest == 0.5 && low % 2 == 0) then low else low + 1
  }

  function RoundToTenth(x: real): real {
    Round(x * 10.0) as real / 10.0
  }

  /** When a failed student may try again, or None when they may start now. */
  function RetryAvailableAt(records: seq<Record>, now: int): Option<int> {
    if records == [] then None
    else
      var last := records[|records| - 1];
      if last.passed || last.at.None? then None
      else
        var until := last.at.value + EXIT_COOLDOWN;
        if until > now then Some(until) else None
  }

  function MaxPercentage(records: seq<Record>): (m: real)
    requires records != []
    ensures exists i :: 0 <= i < |records| && m == records[i].percentage
    ensures forall i | 0 <= i < |records| :: records[i].percentage <= m
  {
    var last := records[|records| - 1].percentage;
    if |records| == 1 then last
    else
      var m := MaxPercentage(records[..|records| - 1]);
      if last > m then last else m
  }

  function BestRecent(records: seq<Record>): int {
    if records == [] then 0 else Round(MaxPercentage(LastOf(records, BEST_OF)))
  }

  function RecordAttempt(c: Checkpoint, attemptId: nat, percentage: real, passed: bool, now: int): Checkpoint {
    var records := c.practice + [Record(attemptId, RoundToTenth(percentage), passed, Some(now))];
    c.(exit := None, practice := LastOf(records, RECORDS_KEPT))
  }

  /** The new record is the last one, of at most twenty, and follows the latest of those before it. */
  lemma RecordAttemptSays(c: Checkpoint, attemptId: nat, percentage: real, passed: bool, now: int)
    ensures var u, n := RecordAttempt(c, attemptId, percentage, passed, now), |c.practice|;
      && u.exit == None && u.other == c.other
      && |u.practice| == (if n < 20 then n + 1 else 20)
      && u.practice[|u.practice| - 1] == Record(attemptId, RoundToTenth(percentage), passed, Some(now))
      && forall i | 0 <= i < |u.practice| - 1 :: u.practice[i] == c.practice[n + 1 - |u.practice| + i]
  {
  }

  lemma RoundIsMonotone(x: real, y: real)
    requires x <= y
    ensures Round(x) <= Round(y)
  {
    assert x.Floor <= y.Floor;
  }

  lemma RoundOfMax(records: seq<Record>) returns (k: nat)
    requires records != []
    ensures k < |records| && MaxPercentage(records) == records[k].percentage
    ensures forall i | 0 <= i < |records| :: Round(records[i].percentage) <= Round(records[k].percentage)
  {
    var best := MaxPercentage(records);
    k :| k < |records| && best == records[k].percentage;
    forall i | 0 <= i < |records|
      ensures Round(records[i].percentage) <= Round(records[k].percentage)
    {
      assert records[i].percentage <= best;
      RoundIsMonotone(records[i].percentage, best);
    }
  }

  /** The best of the last three, by rounded score: whose mark counts, exactly. */
  lemma BestRecentIsBestOfThree(records: seq<Record>, m: int)
    requires records != []
    ensures BestRecent(records) >= m
            <==> exists i :: 0 <= i < |records| && |records| - 3 <= i && Round(records[i].percentage) >= m
  {
    var recent := LastOf(records, BEST_OF);
    var k := RoundOfMax(recent);
    var shift := |records| - |recent|;
    assert records[shift + k] == recent[k];
    forall i | shift <= i < |records|
      ensures Round(records[i].percentage) <= BestRecent(records)
    {
      assert recent[i - shift] == records[i];
    }
  }

  /** Recording one more attempt keeps the mark of each of the two attempts before it. */
  lemma RecordingKeepsLastTwo(c: Checkpoint, attemptId: nat, percentage: real, passed: bool, now: int, i: nat)
    requires i < |c.practice| && |c.practice| - 2 <= i
    ensures BestRecent(RecordAttempt(c, attemptId, percentage, passed, now).practice) >= Round(c.practice[i].percentage)
  {
    var after := RecordAttempt(c, attemptId, percentage, passed, now).practice;
    var j := |after| - 1 - (|c.practice| - i);
    assert after[j] == c.practice[i];
    BestRecentIsBestOfThree(after, Round(c.practice[i].percentage));
  }

  lemma {:induction false} OneReaches(records: seq<Record>, i: nat, m: int)
    requires i < |records| && |records| - 3 <= i && Round(records[i].percentage) >= m
    ensures BestRecent(records) >= m
  {
    BestRecentIsBestOfThree(records, m);
  }

  lemma {:induction false} LastThreeMiss(before: seq<Record>, a: Record, b: Record, c: Record, m: int)
    requires Round(a.percentage) < m && Round(b.percentage) < m && Round(c.percentage) < m
    ensures BestRecent(before + [a, b, c]) < m
  {
    var all, n := before + [a, b, c], |before|;
    assert all[n] == a && all[n + 1] == b && all[n + 2] == c;
    BestRecentIsBestOfThree(all, m);
  }

  /** A pass is forgotten after three worse attempts. */
  lemma OldPassIsForgotten(best: Record, a: Record, b: Record, c: Record, m: int)
    requires Round(best.percentage) >= m
    requires Round(a.percentage) < m && Round(b.percentage) < m && Round(c.percentage) < m
    ensures BestRecent([best, a, b]) >= m && BestRecent([best, a, b, c]) < m
  {
    OneReaches([best, a, b], 0, m);
    LastThreeMiss([best], a, b, c, m);
    assert [best] + [a, b, c] == [best, a, b, c];
  }

  // ---- The score against passing ----

  /** A failed percentage that, rounded to a tenth and then to a whole number, reaches the mark. */
  predicate NearMiss(x: real, mark: int) {
    x < mark as real && if mark % 2 == 0 then x > mark as real - 0.55 else x >= mark as real - 0.45
  }

  /** Rounding down to a whole number reaches k from a half below it on, or from just above it when k is odd. */
  lemma RoundReaches(x: real, k: int)
    ensures Round(x) >= k <==> if k % 2 == 0 then x >= k as real - 0.5 else x > k as real - 0.5
  {
    var low := x.Floor;
    var rest := x - low as real;
    assert 0.0 <= rest < 1.0;
    if k <= low {
      assert k as real <= low as real <= x;
    } else if k == low + 1 {
      assert k as real == low as real + 1.0;
      assert k % 2 == 0 <==> low % 2 != 0;
    } else {
      assert k as real >= low as real + 2.0;
    }
  }

  lemma TenthOfInt(n: int, m: int)
    ensures Round(n as real / 10.0) >= m <==> if m % 2 == 0 then n >= 10 * m - 5 else n >= 10 * m - 4
  {
    RoundReaches(n as real / 10.0, m);
  }

  /** Of the percentages that round to a mark or more, exactly the near misses have failed it. */
  lemma RoundedScoreReachesMark(x: real, mark: int)
    ensures Round(RoundToTenth(x)) >= mark <==> x >= mark as real || NearMiss(x, mark)
  {
    var tenths := x * 10.0;
    var n := Round(tenths);
    TenthOfInt(n, mark);
    RoundReaches(tenths, 10 * mark - 5);
    RoundReaches(tenths, 10 * mark - 4);
    TenthsReachMark(x, tenths, n, mark);
  }

  /** Reaching a mark in tenths, the parity of the mark decided first. */
  lemma TenthsReachMark(x: real, tenths: real, n: int, mark: int)
    requires tenths == x * 10.0
    requires n >= 10 * mark - 5 <==> tenths > (10 * mark - 5) as real - 0.5
    requires n >= 10 * mark - 4 <==> tenths >= (10 * mark - 4) as real - 0.5
    ensures (if mark % 2 == 0 then n >= 10 * mark - 5 else n >= 10 * mark - 4)
            <==> x >= mark as real || NearMiss(x, mark)
  {
    assert (10 * mark - 5) as real == 10.0 * mark as real - 5.0;
    assert (10 * mark - 4) as real == 10.0 * mark as real - 4.0;
  }

  /** The record of each attempt, as it was scored and graded against the mark. */
  ghost predicate Graded(records: seq<Record>, scores: seq<real>, mark: int) {
    && |records| == |scores|
    && forall i | 0 <= i < |records| ::
         records[i].percentage == RoundToTenth(scores[i]) && records[i].passed == (scores[i] >= mark as real)
  }

  lemma NearMissCounts(records: seq<Record>, scores: seq<real>, mark: int, i: nat)
    requires Graded(records, scores, mark) && i < |records| && |records| - 3 <= i && NearMiss(scores[i], mark)
    ensures BestRecent(records) >= mark
  {
    RoundedScoreReachesMark(scores[i], mark);
    OneReaches(records, i, mark);
  }

  lemma ReachedByNearMiss(records: seq<Record>, scores: seq<real>, mark: int) returns (i: nat)
    requires records != [] && Graded(records, scores, mark) && BestRecent(records) >= mark
    requires forall i | 0 <= i < |records| && |records| - 3 <= i :: !records[i].passed
    ensures i < |records| && |records| - 3 <= i && NearMiss(scores[i], mark)
  {
    BestRecentIsBestOfThree(records, mark);
    i :| 0 <= i < |records| && |records| - 3 <= i && Round(records[i].percentage) >= mark;
    RoundedScoreReachesMark(scores[i], mark);
  }

  /**
   A lesson's score that reaches the mark comes with a pass among the last three results, unless none of them
   passed and one of them is a near miss: exactly then the score says what no result does.
   */
  lemma ScoreReachesMarkWithoutPass(records: seq<Record>, scores: seq<real>, mark: int)
    requires records != [] && Graded(records, scores, mark)
    ensures var first := if |records| < 3 then 0 else |records| - 3;
            && (BestRecent(records) >= mark && (forall i | first <= i < |records| :: !records[i].passed)
                <==> (forall i | first <= i < |records| :: scores[i] < mark as real)
                     && exists i :: first <= i < |records| && NearMiss(scores[i], mark))
  {
    var first := if |records| < 3 then 0 else |records| - 3;
    var best := BestRecent(records);
    if i :| first <= i < |records| && NearMiss(scores[i], mark) {
      NearMissCounts(records, scores, mark, i);
    } else if best >= mark && forall i | first <= i < |records| :: !records[i].passed {
      var i := ReachedByNearMiss(records, scores, mark);
    }
  }

  /** Such a result: 69.6 fails a mark of 70, and the score is 70. */
  lemma FailedWithTheMarkAsScore(at: Option<int>)
    ensures var records := [Record(0, RoundToTenth(69.6), false, at)];
            Graded(records, [69.6], 70) && BestRecent(records) >= 70
  {
    ScoreReachesMarkWithoutPass([Record(0, RoundToTenth(69.6), false, at)], [69.6], 70);
    assert NearMiss([69.6][0], 70);
  }

  // ---- Starting and completing ----

  datatype StartResult = Wait(until: int) | Resumed(attemptId: nat) | NotEnoughQuestions | Started(attemptId: nat)

  /** What the rest of the system says at a start: may the marked attempt be resumed, are there questions. */
  datatype Surroundings = Surroundings(resumable: bool, enoughQuestions: bool)

  function Start(p: Progress, now: int, world: Surroundings, newId: nat): (Progress, StartResult) {
    var wait := RetryAvailableAt(p.checkpoint.practice, now);
    if wait.Some? then (p, Wait(wait.value))
    else if p.checkpoint.exit.Some? && world.resumable then (p, Resumed(p.checkpoint.exit.value.attemptId))
    else if !world.enoughQuestions then (p, NotEnoughQuestions)
    else (p.(checkpoint := p.checkpoint.(exit := Some(Marker(newId, now)))), Started(newId))
  }

  /** The row after a recorded result: always the new score and checkpoint, and on a pass the lesson completed. */
  function Close(p: Progress, c: Checkpoint, best: int, passed: bool, learned: Learned): Progress {
    if passed then
      Progress(Completed, best, c, 100, Some(learned.at + FIRST_REVISION), Some(learned.at), p.events + [learned])
    else p.(masteryScore := best, checkpoint := c, lastAccessed := Some(learned.at))
  }

  /** None when the attempt is not the student's open exit attempt; else whether it passed. */
  function Complete(p: Progress, attemptId: nat, percentage: real, passMark: int, now: int)
    : (Progress, Option<bool>)
  {
    if p.checkpoint.exit.None? || p.checkpoint.exit.value.attemptId != attemptId then (p, None)
    else
      var passed := percentage >= passMark as real;
      var c := RecordAttempt(p.checkpoint, attemptId, percentage, passed, now);
      (Close(p, c, BestRecent(c.practice), passed, Learned(attemptId, percentage, now)), Some(passed))
  }

  class ProgressRow {
    var status: LessonStatus
    var masteryScore: int
    var checkpoint: Checkpoint
    var completionPercent: int
    var revisionDue: Option<int>
    var lastAccessed: Option<int>
    var events: seq<Learned>

    function View(): Progress
      reads this
    {
      Progress(status, masteryScore, checkpoint, completionPercent, revisionDue, lastAccessed, events)
    }

    constructor (other: map<string, string>)
      ensures View() == Progress(NotStarted, 0, Checkpoint(None, [], other), 0, None, None, [])
    {
      status, masteryScore, checkpoint := NotStarted, 0, Checkpoint(None, [], other);
      completionPercent, revisionDue, lastAccessed, events := 0, None, None, [];
    }

    /** A request that raises is rolled back, so the row then keeps its marker. */
    method StartExit(now: int, world: Surroundings, newId: nat) returns (result: StartResult)
      modifies this
      ensures (View(), result) == Start(old(View()), now, world, newId)
      ensures View() == old(View()).(checkpoint := checkpoint)
      ensures var before := old(checkpoint);
              var records := before.practice;
              if records != [] && !records[|records| - 1].passed && records[|records| - 1].at.Some?
                 && now < records[|records| - 1].at.value + 1_800_000_000 then
                result == Wait(records[|records| - 1].at.value + 1_800_000_000) && checkpoint == before
              else if before.exit.Some? && world.resumable then
                result == Resumed(before.exit.value.attemptId) && checkpoint == before
              else if !world.enoughQuestions then
                result == NotEnoughQuestions && checkpoint == before
              else
                result == Started(newId) && checkpoint == before.(exit := Some(Marker(newId, now)))
    {
      var updated := checkpoint;
      var wait := RetryAvailableAt(updated.practice, now);
      if wait.Some? {
        return Wait(wait.value);
      }
      if updated.exit.Some? {
        if world.resumable {
          return Resumed(updated.exit.value.attemptId);
        }
        updated := updated.(exit := None);
      }
      if !world.enoughQuestions {
        return NotEnoughQuestions;
      }
      updated := updated.(exit := Some(Marker(newId, now)));
      checkpoint := updated;
      return Started(newId);
    }

    method CloseExit(c: Checkpoint, best: int, passed: bool, learned: Learned)
      modifies this
      ensures View() == Close(old(View()), c, best, passed, learned)
      ensures masteryScore == best && checkpoint == c && lastAccessed == Some(learned.at)
      ensures if passed then
                && status == Completed && completionPercent == 100
                && revisionDue == Some(learned.at + 86_400_000_000) && events == old(events) + [learned]
              else
                && status == old(status) && completionPercent == old(completionPercent)
                && revisionDue == old(revisionDue) && events == old(events)
    {
      checkpoint := c;
      masteryScore := best;
      lastAccessed := Some(learned.at);
      if passed {
        status := Completed;
        completionPercent := 100;
        revisionDue := Some(learned.at + FIRST_REVISION);
        events := events + [learned];
      }
    }

    method CompleteExit(attemptId: nat, percentage: real, passMark: int, now: int) returns (result: Option<bool>)
      modifies this
      ensures (View(), result) == Complete(old(View()), attemptId, percentage, passMark, now)
      ensures var exit := old(checkpoint).exit;
              result ==
                if exit.Some? && exit.value.attemptId == attemptId then Some(percentage >= passMark as real) else None
    {
      if checkpoint.exit.None? || checkpoint.exit.value.attemptId != attemptId {
        return None;
      }
      var passed := percentage >= passMark as real;
      var updated := RecordAttempt(checkpoint, attemptId, percentage, passed, now);
      CloseExit(updated, BestRecent(updated.practice), passed, Learned(attemptId, percentage, now));
      return Some(passed);
    }
  }

  // ---- Runs ----

  datatype Action =
    | DoStart(now: int, world: Surroundings)
    | DoComplete(attemptId: nat, percentage: real, passMark: int, now: int)

  /** A result that was recorded, with the time its attempt was started. */
  datatype Entry = Entry(record: Record, startedAt: int)

  /** The row, the clock, the next unused attempt id and everything ever recorded. */
  datatype World = World(row: Progress, clock: int, nextId: nat, history: seq<Entry>)

  /** The clock does not run backwards; a step in the past does not happen. */
  function Step(w: World, x: Action): World {
    if x.now < w.clock then w else
    match x
    case DoStart(now, world) =>
      var (row, result) := Start(w.row, now, world, w.nextId);
      w.(row := row, clock := now, nextId := if result.Started? then w.nextId + 1 else w.nextId)
    case DoComplete(id, percentage, passMark, now) =>
      var (row, result) := Complete(w.row, id, percentage, passMark, now);
      w.(row := row, clock := now,
         history := if result.None? then w.history
                    else w.history + [Entry(row.checkpoint.practice[|row.checkpoint.practice| - 1],
                                            w.row.checkpoint.exit.value.startedAt)])
  }

  function Run(w: World, xs: seq<Action>): World {
    if xs == [] then w else Step(Run(w, xs[..|xs| - 1]), xs[|xs| - 1])
  }

  /** Whether an attempt started at this time respects the wait after the result before it. */
  predicate Waited(before: Entry, startedAt: int) {
    before.record.passed
    || (before.record.at.Some? && before.record.at.value + 1_800_000_000 <= startedAt)
  }

  ghost predicate Inv(w: World) {
    && HistoryOk(w.history, w.nextId)
    && KeepsLatest(w.row.checkpoint.practice, w.history)
    && MarkerOk(w.row.checkpoint.exit, w.history, w.nextId)
    && (w.row.status.Completed? <==> AnyPassed(w.history))
  }

  ghost predicate HistoryOk(h: seq<Entry>, nextId: nat) {
    && (forall i | 0 <= i < |h| :: h[i].record.attemptId < nextId)
    && (forall i, j | 0 <= i < j < |h| :: h[i].record.attemptId != h[j].record.attemptId)
    && (forall i | 0 < i < |h| :: Waited(h[i - 1], h[i].startedAt))
  }

  ghost predicate KeepsLatest(practice: seq<Record>, h: seq<Entry>) {
    && |practice| == (if |h| < 20 then |h| else 20)
    && Aligned(practice, h)
    && (forall i | 0 <= i < |h| :: h[i].record.at.Some?)
  }

  ghost predicate MarkerOk(exit: Option<Marker>, h: seq<Entry>, nextId: nat) {
    exit.Some? ==>
      && exit.value.attemptId < nextId
      && (forall i | 0 <= i < |h| :: h[i].record.attemptId != exit.value.attemptId)
      && (h != [] ==> Waited(h[|h| - 1], exit.value.startedAt))
  }

  ghost predicate AnyPassed(h: seq<Entry>) {
    exists i :: 0 <= i < |h| && h[i].record.passed
  }

  predicate Fresh(w: World) {
    w.history == [] && !w.row.status.Completed?
    && w.row.checkpoint.exit.None? && w.row.checkpoint.practice == []
  }

  /** Recording `rec` for the open attempt. */
  lemma RecordKeepsHistory(h: seq<Entry>, nextId: nat, marker: Marker, rec: Record)
    requires HistoryOk(h, nextId) && MarkerOk(Some(marker), h, nextId) && rec.attemptId == marker.attemptId
    ensures HistoryOk(h + [Entry(rec, marker.startedAt)], nextId)
  {
  }

  /** The records are the last of the history. */
  ghost predicate Aligned(records: seq<Record>, h: seq<Entry>) {
    && |records| <= |h|
    && forall i | 0 <= i < |records| :: records[i] == h[|h| - |records| + i].record
  }

  lemma {:induction false} AlignedAppend(records: seq<Record>, h: seq<Entry>, e: Entry)
    requires Aligned(records, h)
    ensures Aligned(records + [e.record], h + [e])
  {
  }

  lemma {:induction false} AlignedLast(records: seq<Record>, h: seq<Entry>, n: nat)
    requires Aligned(records, h)
    ensures Aligned(LastOf(records, n), h)
  {
    var kept := LastOf(records, n);
    forall i | 0 <= i < |kept|
      ensures kept[i] == h[|h| - |kept| + i].record
    {
      assert kept[i] == records[|records| - |kept| + i];
    }
  }

  lemma {:induction false} RecordKeepsLatest(practice: seq<Record>, h: seq<Entry>, e: Entry)
    requires KeepsLatest(practice, h) && e.record.at.Some?
    ensures KeepsLatest(LastOf(practice + [e.record], RECORDS_KEPT), h + [e])
  {
    AlignedAppend(practice, h, e);
    AlignedLast(practice + [e.record], h + [e], RECORDS_KEPT);
  }

  lemma RecordPassed(h: seq<Entry>, e: Entry)
    ensures AnyPassed(h + [e]) <==> AnyPassed(h) || e.record.passed
  {
    var all := h + [e];
    assert all[|h|] == e && forall i | 0 <= i < |h| :: all[i] == h[i];
  }

  /** A pass leaves an event and a full row that is due for revision; a fail leaves these as they were. */
  ghost predicate PassShows(p: Progress, q: Progress, rec: Record, learned: Learned) {
    if rec.passed then
      && q.status.Completed? && q.completionPercent == 100
      && q.revisionDue == Some(learned.at + 86_400_000_000) && q.events == p.events + [learned]
    else
      && q.status == p.status && q.completionPercent == p.completionPercent
      && q.revisionDue == p.revisionDue && q.events == p.events
  }

  /** What completing does, with the rounding put aside. */
  lemma CompleteShape(p: Progress, attemptId: nat, percentage: real, passMark: int, now: int) returns (rec: Record)
    requires Complete(p, attemptId, percentage, passMark, now).1.Some?
    ensures var (q, passed) := Complete(p, attemptId, percentage, passMark, now);
            && p.checkpoint.exit.Some? && p.checkpoint.exit.value.attemptId == attemptId == rec.attemptId
            && rec.at == Some(now) && passed == Some(rec.passed) && rec.passed == (percentage >= passMark as real)
            && q.status == (if rec.passed then Completed else p.status)
            && PassShows(p, q, rec, Learned(attemptId, percentage, now))
            && q.lastAccessed == Some(now)
            && q.checkpoint == Checkpoint(None, LastOf(p.checkpoint.practice + [rec], RECORDS_KEPT), p.checkpoint.other)
            && q.checkpoint.practice[|q.checkpoint.practice| - 1] == rec
  {
    rec := Record(attemptId, RoundToTenth(percentage), percentage >= passMark as real, Some(now));
  }

  lemma CompleteKeepsInv(w: World, v: World, rec: Record, marker: Marker)
    requires Inv(w) && w.row.checkpoint.exit == Some(marker) && rec.attemptId == marker.attemptId && rec.at.Some?
    requires v.history == w.history + [Entry(rec, marker.startedAt)] && v.nextId == w.nextId
    requires v.row.checkpoint.exit == None
    requires v.row.checkpoint.practice == LastOf(w.row.checkpoint.practice + [rec], RECORDS_KEPT)
    requires v.row.status == if rec.passed then Completed else w.row.status
    ensures Inv(v)
  {
    RecordKeepsHistory(w.history, w.nextId, marker, rec);
    RecordKeepsLatest(w.row.checkpoint.practice, w.history, Entry(rec, marker.startedAt));
    RecordPassed(w.history, Entry(rec, marker.startedAt));
  }

  lemma StartKeepsInv(w: World, now: int)
    requires Inv(w) && RetryAvailableAt(w.row.checkpoint.practice, now).None?
    ensures MarkerOk(Some(Marker(w.nextId, now)), w.history, w.nextId + 1) && HistoryOk(w.history, w.nextId + 1)
  {
    var n, practice := |w.history|, w.row.checkpoint.practice;
    if n > 0 {
      assert practice[|practice| - 1] == w.history[n - 1].record;
    }
  }

  lemma {:induction false} StartStepKeepsInv(w: World, v: World, now: int)
    requires Inv(w) && RetryAvailableAt(w.row.checkpoint.practice, now).None?
    requires v.history == w.history && v.nextId == w.nextId + 1 && v.row.status == w.row.status
    requires v.row.checkpoint.exit == Some(Marker(w.nextId, now))
    requires v.row.checkpoint.practice == w.row.checkpoint.practice
    ensures Inv(v)
  {
    StartKeepsInv(w, now);
  }

  lemma {:induction false} StepKeepsInv(w: World, x: Action)
    requires Inv(w)
    ensures Inv(Step(w, x))
    ensures w.row.status.Completed? ==> Step(w, x).row.status.Completed?
  {
    if x.now >= w.clock {
      match x
      case DoStart(now, world) =>
        if Start(w.row, now, world, w.nextId).1.Started? {
          StartStepKeepsInv(w, Step(w, x), now);
        }
      case DoComplete(id, percentage, passMark, now) =>
        if Complete(w.row, id, percentage, passMark, now).1.Some? {
          var rec := CompleteShape(w.row, id, percentage, passMark, now);
          CompleteKeepsInv(w, Step(w, x), rec, w.row.checkpoint.exit.value);
        }
    }
  }

  /**
   On every run of starts and completions: at most twenty results are kept and they are the latest; no
   attempt is recorded twice; after a failed result the next one comes from an attempt started at
   least thirty minutes later; and the lesson is completed exactly when some result passed.
   */
  lemma {:induction false} RunKeepsInv(w: World, xs: seq<Action>)
    requires Fresh(w)
    ensures Inv(Run(w, xs))
  {
    if xs == [] {
    } else {
      RunKeepsInv(w, xs[..|xs| - 1]);
      StepKeepsInv(Run(w, xs[..|xs| - 1]), xs[|xs| - 1]);
    }
  }

  /** Once completed, a lesson stays completed. */
  lemma {:induction false} CompletedForGood(w: World, xs: seq<Action>)
    requires Inv(w) && w.row.status.Completed?
    ensures Inv(Run(w, xs)) && Run(w, xs).row.status.Completed?
  {
    if xs == [] {
    } else {
      CompletedForGood(w, xs[..|xs| - 1]);
      StepKeepsInv(Run(w, xs[..|xs| - 1]), xs[|xs| - 1]);
    }
  }

  /**
   On every run, a start is told to wait exactly when the last result failed less than thirty minutes ago, and
   then until those are over.
   */
  lemma WaitIsExactlyTheCooldown(w: World, xs: seq<Action>, now: int, world: Surroundings, newId: nat)
    requires Fresh(w)
    ensures var v := Run(w, xs);
      var result, n := Start(v.row, now, world, newId).1, |v.history|;
      && (result.Wait? <==> n > 0 && v.history[n - 1].record.at.Some? && !v.history[n - 1].record.passed
                            && now < v.history[n - 1].record.at.value + 1_800_000_000)
      && (result.Wait? ==> result.until == v.history[n - 1].record.at.value + 1_800_000_000)
  {
    RunKeepsInv(w, xs);
    var v := Run(w, xs);
    var practice, h := v.row.checkpoint.practice, v.history;
    if h != [] {
      assert practice[|practice| - 1] == h[|h| - 1].record;
    }
  }

  /** On every run the lesson's score is the best of the last three results. */
  lemma {:induction false} ScoreIsBestRecent(w: World, xs: seq<Action>)
    requires Fresh(w) && w.row.masteryScore == 0
    ensures Run(w, xs).row.masteryScore == BestRecent(Run(w, xs).row.checkpoint.practice)
  {
    if xs == [] {
    } else {
      ScoreIsBestRecent(w, xs[..|xs| - 1]);
      StepKeepsScore(Run(w, xs[..|xs| - 1]), xs[|xs| - 1]);
    }
  }

  lemma {:induction false} StepKeepsScore(w: World, x: Action)
    requires w.row.masteryScore == BestRecent(w.row.checkpoint.practice)
    ensures Step(w, x).row.masteryScore == BestRecent(Step(w, x).row.checkpoint.practice)
  {
    if x.now >= w.clock {
      match x
      case DoStart(now, world) => StartKeepsResults(w.row, now, world, w.nextId);
      case DoComplete(id, percentage, passMark, now) => CompleteScores(w.row, id, percentage, passMark, now);
    }
  }

  lemma StartKeepsResults(p: Progress, now: int, world: Surroundings, newId: nat)
    ensures var q := Start(p, now, world, newId).0;
      q.checkpoint.practice == p.checkpoint.practice && q.masteryScore == p.masteryScore
  {
  }

  lemma {:induction false} CompleteScores(p: Progress, id: nat, percentage: real, passMark: int, now: int)
    ensures var (q, result) := Complete(p, id, percentage, passMark, now);
            if result.Some? then q.masteryScore == BestRecent(q.checkpoint.practice) else q == p
  {
  }

  /** The attempts that passed, in order. */
  function Passed(h: seq<Entry>): seq<nat> {
    if h == [] then []
    else
      var before, last := Passed(h[..|h| - 1]), h[|h| - 1].record;
      if last.passed then before + [last.attemptId] else before
  }

  function AttemptsOf(events: seq<Learned>): (r: seq<nat>)
    ensures |r| == |events| && forall i | 0 <= i < |r| :: r[i] == events[i].attemptId
  {
    seq(|events|, i requires 0 <= i < |events| => events[i].attemptId)
  }

  /** The events are the passes, and a completed row is full and due for revision a day after the last of them. */
  ghost predicate EventsOk(p: Progress, h: seq<Entry>) {
    && AttemptsOf(p.events) == Passed(h)
    && if p.events == [] then !p.status.Completed?
       else
         && p.status.Completed? && p.completionPercent == 100
         && p.revisionDue == Some(p.events[|p.events| - 1].at + 86_400_000_000)
  }

  lemma RecordKeepsEvents(p: Progress, q: Progress, h: seq<Entry>, e: Entry, learned: Learned)
    requires EventsOk(p, h) && PassShows(p, q, e.record, learned) && learned.attemptId == e.record.attemptId
    ensures EventsOk(q, h + [e])
  {
    assert (h + [e])[..|h|] == h;
    if e.record.passed {
      assert AttemptsOf(q.events) == AttemptsOf(p.events) + [learned.attemptId];
    }
  }

  lemma StepKeepsEvents(w: World, x: Action)
    requires EventsOk(w.row, w.history)
    ensures EventsOk(Step(w, x).row, Step(w, x).history)
  {
    if x.DoComplete? && x.now >= w.clock {
      var (row, result) := Complete(w.row, x.attemptId, x.percentage, x.passMark, x.now);
      if result.Some? {
        var rec := CompleteShape(w.row, x.attemptId, x.percentage, x.passMark, x.now);
        RecordKeepsEvents(w.row, row, w.history, Entry(rec, w.row.checkpoint.exit.value.startedAt),
                          Learned(x.attemptId, x.percentage, x.now));
      }
    }
  }

  /**
   On every run, the learning events name exactly the attempts that passed, once each and in order, and a lesson
   with one is completed in full and due for revision a day after the last pass.
   */
  lemma {:induction false} EventsAreThePasses(w: World, xs: seq<Action>)
    requires Fresh(w) && w.row.events == []
    ensures EventsOk(Run(w, xs).row, Run(w, xs).history)
  {
    if xs == [] {
      assert AttemptsOf(w.row.events) == [];
    } else {
      EventsAreThePasses(w, xs[..|xs| - 1]);
      StepKeepsEvents(Run(w, xs[..|xs| - 1]), xs[|xs| - 1]);
    }
  }

  // ---- Every result against its mark ----

  /** Whether completing is for the attempt that is open then. */
  predicate Records(w: World, x: Action) {
    x.DoComplete? && x.now >= w.clock
    && w.row.checkpoint.exit.Some? && w.row.checkpoint.exit.value.attemptId == x.attemptId
  }

  /** The completions of the run that were recorded, in order. */
  function Recorded(w: World, xs: seq<Action>): seq<Action> {
    if xs == [] then []
    else
      var before, x := Recorded(w, xs[..|xs| - 1]), xs[|xs| - 1];
      if Records(Run(w, xs[..|xs| - 1]), x) then before + [x] else before
  }

  /** The result that a completion leaves: passed exactly when its percentage reaches its mark. */
  ghost predicate GradedBy(rec: Record, x: Action) {
    && x.DoComplete?
    && rec == Record(x.attemptId, RoundToTenth(x.percentage), x.percentage >= x.passMark as real, Some(x.now))
  }

  lemma {:induction false} LastRecordOf(c: Checkpoint, x: Action)
    requires x.DoComplete?
    ensures var passed := x.percentage >= x.passMark as real;
            var after := RecordAttempt(c, x.attemptId, x.percentage, passed, x.now).practice;
            after != [] && GradedBy(after[|after| - 1], x)
  {
    RecordAttemptSays(c, x.attemptId, x.percentage, x.percentage >= x.passMark as real, x.now);
  }

  lemma {:induction false} StepRecords(w: World, x: Action)
    ensures var h := Step(w, x).history;
      if Records(w, x) then |h| == |w.history| + 1 && w.history <= h && GradedBy(h[|w.history|].record, x)
      else h == w.history
  {
    if Records(w, x) {
      LastRecordOf(w.row.checkpoint, x);
      var passed := x.percentage >= x.passMark as real;
      var after := RecordAttempt(w.row.checkpoint, x.attemptId, x.percentage, passed, x.now);
      assert Complete(w.row, x.attemptId, x.percentage, x.passMark, x.now).0.checkpoint == after;
    }
  }

  /**
   On every run the history holds exactly the recorded completions, in order, each with its percentage rounded to
   a tenth, and as a pass exactly when the percentage reaches the mark it was given.
   */
  lemma {:induction false} EveryResultIsGraded(w: World, xs: seq<Action>)
    requires w.history == []
    ensures var h, done := Run(w, xs).history, Recorded(w, xs);
      |h| == |done| && forall i | 0 <= i < |h| :: GradedBy(h[i].record, done[i])
  {
    if xs == [] {
    } else {
      EveryResultIsGraded(w, xs[..|xs| - 1]);
      StepRecords(Run(w, xs[..|xs| - 1]), xs[|xs| - 1]);
    }
  }

  function RecordsOf(h: seq<Entry>): (r: seq<Record>)
    ensures |r| == |h| && forall i | 0 <= i < |h| :: r[i] == h[i].record
  {
    seq(|h|, i requires 0 <= i < |h| => h[i].record)
  }

  lemma LastOfLast<T>(s: seq<T>, m: nat, n: nat)
    requires n <= m
    ensures LastOf(LastOf(s, m), n) == LastOf(s, n)
  {
    if |s| >= m {
      assert s[|s| - m..][m - n..] == s[|s| - n..];
    }
  }

  lemma {:induction false} KeptIsLast(practice: seq<Record>, h: seq<Entry>)
    requires KeepsLatest(practice, h)
    ensures practice == LastOf(RecordsOf(h), 20)
  {
    var all, k := RecordsOf(h), |h| - |practice|;
    forall i | 0 <= i < |practice|
      ensures practice[i] == all[k + i]
    {
    }
    TailIs(all, practice, k);
    assert all[0..] == all;
  }

  lemma TailIs<T>(s: seq<T>, t: seq<T>, k: nat)
    requires |s| == k + |t| && forall i | 0 <= i < |t| :: t[i] == s[k + i]
    ensures s[k..] == t
  {
  }

  lemma {:induction false} SameBestRecent(a: seq<Record>, b: seq<Record>)
    requires LastOf(a, BEST_OF) == LastOf(b, BEST_OF)
    ensures BestRecent(a) == BestRecent(b)
  {
  }

  /** What is no longer kept has no part in the score. */
  lemma {:induction false} KeptScoreIsTheScore(practice: seq<Record>, h: seq<Entry>)
    requires KeepsLatest(practice, h)
    ensures BestRecent(practice) == BestRecent(RecordsOf(h))
  {
    KeptIsLast(practice, h);
    LastOfLast(RecordsOf(h), 20, BEST_OF);
    SameBestRecent(practice, RecordsOf(h));
  }

  /** The percentages of completions. */
  function Percentages(done: seq<Action>): (r: seq<real>)
    requires forall i | 0 <= i < |done| :: done[i].DoComplete?
    ensures |r| == |done| && forall i | 0 <= i < |done| :: r[i] == done[i].percentage
  {
    seq(|done|, i requires 0 <= i < |done| => done[i].percentage)
  }

  lemma {:induction false} RecordedHaveMark(w: World, xs: seq<Action>, mark: int)
    requires forall x | x in xs && x.DoComplete? :: x.passMark == mark
    ensures forall x | x in Recorded(w, xs) :: x.DoComplete? && x.passMark == mark
  {
    if xs == [] {
    } else {
      RecordedHaveMark(w, xs[..|xs| - 1], mark);
    }
  }

  lemma HistoryIsGraded(h: seq<Entry>, done: seq<Action>, mark: int)
    requires |h| == |done|
    requires forall i | 0 <= i < |h| :: GradedBy(h[i].record, done[i])
    requires forall x | x in done :: x.DoComplete? && x.passMark == mark
    ensures Graded(RecordsOf(h), Percentages(done), mark)
  {
    forall i | 0 <= i < |h|
      ensures GradedBy(h[i].record, done[i]) && done[i].passMark == mark
    {
      assert done[i] in done;
    }
  }

  lemma ThreeAre(h: seq<Entry>, done: seq<Action>, records: seq<Record>, scores: seq<real>, first: nat, mark: int)
    requires |h| == |done| == |records| == |scores| && forall i | 0 <= i < |done| :: done[i].DoComplete?
    requires forall i | 0 <= i < |h| :: records[i] == h[i].record && scores[i] == done[i].percentage
    ensures (forall i | first <= i < |h| :: !records[i].passed) <==> forall i | first <= i < |h| :: !h[i].record.passed
    ensures (forall i | first <= i < |h| :: scores[i] < mark as real)
      <==> forall i | first <= i < |h| :: done[i].percentage < mark as real
    ensures (exists i :: first <= i < |h| && NearMiss(scores[i], mark))
      <==> exists i :: first <= i < |h| && NearMiss(done[i].percentage, mark)
  {
    if i :| first <= i < |h| && NearMiss(done[i].percentage, mark) {
      assert NearMiss(scores[i], mark);
    }
    if i :| first <= i < |h| && NearMiss(scores[i], mark) {
      assert NearMiss(done[i].percentage, mark);
    }
  }

  lemma {:induction false} HistoryReachesMarkWithoutPass(
    h: seq<Entry>, done: seq<Action>, records: seq<Record>, scores: seq<real>, mark: int)
    requires |h| == |done| == |records| == |scores| > 0 && forall i | 0 <= i < |done| :: done[i].DoComplete?
    requires forall i | 0 <= i < |h| :: records[i] == h[i].record && scores[i] == done[i].percentage
    requires Graded(records, scores, mark)
    ensures var first := if |h| < 3 then 0 else |h| - 3;
      BestRecent(records) >= mark && (forall i | first <= i < |h| :: !h[i].record.passed)
      <==> (forall i | first <= i < |h| :: done[i].percentage < mark as real)
           && exists i :: first <= i < |h| && NearMiss(done[i].percentage, mark)
  {
    ScoreReachesMarkWithoutPass(records, scores, mark);
    ThreeAre(h, done, records, scores, if |h| < 3 then 0 else |h| - 3, mark);
  }

  lemma {:induction false} KeptScoreReachesMarkWithoutPass(
    practice: seq<Record>, h: seq<Entry>, done: seq<Action>, mark: int, score: int)
    requires KeepsLatest(practice, h) && h != [] && score == BestRecent(practice) && |h| == |done|
    requires forall i | 0 <= i < |h| :: GradedBy(h[i].record, done[i])
    requires forall x | x in done :: x.DoComplete? && x.passMark == mark
    ensures var first := if |h| < 3 then 0 else |h| - 3;
      score >= mark && (forall i | first <= i < |h| :: !h[i].record.passed)
      <==> (forall i | first <= i < |h| :: done[i].percentage < mark as real)
           && exists i :: first <= i < |h| && NearMiss(done[i].percentage, mark)
  {
    KeptScoreIsTheScore(practice, h);
    HistoryIsGraded(h, done, mark);
    HistoryReachesMarkWithoutPass(h, done, RecordsOf(h), Percentages(done), mark);
  }

  /**
   On every run of a lesson with one mark: the stored score reaches the mark although none of the last three
   completions passed, exactly when all of these failed it and one is a near miss.
   */
  lemma {:induction false} StoredScoreReachesMarkWithoutPass(w: World, xs: seq<Action>, mark: int)
    requires Fresh(w) && w.row.masteryScore == 0 && Run(w, xs).history != []
    requires forall x | x in xs && x.DoComplete? :: x.passMark == mark
    ensures var v, done := Run(w, xs), Recorded(w, xs);
      var first := if |done| < 3 then 0 else |done| - 3;
      && |v.history| == |done| && (forall i | 0 <= i < |done| :: done[i].DoComplete?)
      && (v.row.masteryScore >= mark && (forall i | first <= i < |done| :: !v.history[i].record.passed)
          <==> (forall i | first <= i < |done| :: done[i].percentage < mark as real)
               && exists i :: first <= i < |done| && NearMiss(done[i].percentage, mark))
  {
    var v, done := Run(w, xs), Recorded(w, xs);
    RunKeepsInv(w, xs);
    EveryResultIsGraded(w, xs);
    RecordedHaveMark(w, xs, mark);
    ScoreIsBestRecent(w, xs);
    var practice, score := v.row.checkpoint.practice, v.row.masteryScore;
    KeptScoreReachesMarkWithoutPass(practice, v.history, done, mark, score);
  }
}

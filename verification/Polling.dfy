/**
 A reader on another process polls the thread's row for the frames of a run. Rows are snapshots: each
 holds a beginning of some run's log, or nothing.
 */
module Polling {
  import opened Wrappers
  import opened Numerals
  import opened RunLog
  import opened Replay

  /** What one poll finds. `stale` says whether a running row's heartbeat is too old. */
  datatype Seen = NoThread | Found(row: Row, stale: bool)

  /** A frame given out, with the run whose row it was read from. */
  datatype Given = Given(origin: string, frame: Frame)

  /** `_iter_persisted_run` between two polls. */
  datatype Poller = Poller(runId: string, cursor: nat, out: seq<Given>, stopped: bool)

  ghost predicate SnapshotOf(seen: Seen, logs: map<string, seq<Frame>>) {
    seen.Found? && seen.row.Stored? ==>
      seen.row.runId in logs && seen.row.frames <= logs[seen.row.runId] && Numbered(seen.row.frames)
  }

  function Frames(row: Row): seq<Frame> {
    if row.Stored? then row.frames else []
  }

  function Tag(origin: string, frames: seq<Frame>): (r: seq<Given>)
    ensures |r| == |frames| && forall i | 0 <= i < |r| :: r[i] == Given(origin, frames[i])
  {
    seq(|frames|, i requires 0 <= i < |frames| => Given(origin, frames[i]))
  }

  function FramesOf(out: seq<Given>): (r: seq<Frame>)
    ensures |r| == |out| && forall i | 0 <= i < |r| :: r[i] == out[i].frame
  {
    seq(|out|, i requires 0 <= i < |out| => out[i].frame)
  }

  predicate HasDone(frames: seq<Frame>) {
    exists i :: 0 <= i < |frames| && frames[i].event == "done"
  }

  lemma HasDoneGrows(frames: seq<Frame>, f: Frame)
    ensures HasDone(frames + [f]) <==> HasDone(frames) || f.event == "done"
  {
    var all := frames + [f];
    assert all[|frames|] == f && forall j | 0 <= j < |frames| :: all[j] == frames[j];
  }

  /** Whether the reader leaves after a poll that brought these frames. */
  predicate Leaves(r: Poller, seen: Seen, news: seq<Frame>) {
    || seen.NoThread? || HasDone(news)
    || seen.row.Cleared? || seen.row.runId != r.runId
    || seen.row.status.Paused? || seen.stale
  }

  /** The number of the last new frame, which becomes the cursor. */
  function LastId(news: seq<Frame>, cursor: nat): nat {
    if news == [] then cursor else Number(news[|news| - 1])
  }

  /** The frames whose id is a number beyond every one before it and the cursor; all others are skipped. */
  function NewFrames(frames: seq<Frame>, cursor: nat): seq<Frame> {
    if frames == [] then []
    else
      var news, last := NewFrames(frames[..|frames| - 1], cursor), frames[|frames| - 1];
      if Number(last) > LastId(news, cursor) then news + [last] else news
  }

  lemma {:induction false} NewFramesStep(frames: seq<Frame>, i: nat, cursor: nat)
    requires i < |frames|
    ensures var news := NewFrames(frames[..i], cursor);
            NewFrames(frames[..i + 1], cursor)
            == if Number(frames[i]) > LastId(news, cursor) then news + [frames[i]] else news
  {
    assert frames[..i + 1][..i] == frames[..i];
  }

  /** One poll. Whose row it is is only looked at after the frames have been given out. */
  function Poll(r: Poller, seen: Seen): Poller {
    if r.stopped then r
    else if seen.NoThread? then r.(stopped := true)
    else
      var news := NewFrames(Frames(seen.row), r.cursor);
      r.(cursor := LastId(news, r.cursor),
         out := if seen.row.Stored? then r.out + Tag(seen.row.runId, news) else r.out,
         stopped := Leaves(r, seen, news))
  }

  /** In a log that a run has numbered, the new frames are the log after the cursor. */
  lemma {:induction false} NewFramesOfNumbered(frames: seq<Frame>, cursor: nat)
    requires Numbered(frames)
    ensures NewFrames(frames, cursor) == After(frames, cursor)
    ensures LastId(NewFrames(frames, cursor), cursor) == cursor + |After(frames, cursor)|
  {
    if frames == [] {
    } else {
      var n := |frames| - 1;
      NewFramesOfNumbered(frames[..n], cursor);
      assert frames[..n + 1] == frames;
      NewFramesStep(frames, n, cursor);
      NumberOfPublished(frames, n);
      AfterGrows(frames, n, cursor);
    }
  }

  lemma PollOfNumbered(r: Poller, seen: Seen)
    requires seen.Found? ==> Numbered(Frames(seen.row))
    ensures !r.stopped && seen.Found? && seen.row.Stored? ==>
              && Poll(r, seen).out == r.out + Tag(seen.row.runId, After(seen.row.frames, r.cursor))
              && Poll(r, seen).cursor == r.cursor + |After(seen.row.frames, r.cursor)|
    ensures r.stopped || seen.NoThread? || seen.row.Cleared? ==>
              Poll(r, seen).out == r.out && Poll(r, seen).cursor == r.cursor
  {
    if seen.Found? {
      NewFramesOfNumbered(Frames(seen.row), r.cursor);
    }
  }

  function Follow(r: Poller, polls: seq<Seen>): Poller {
    if polls == [] then r else Poll(Follow(r, polls[..|polls| - 1]), polls[|polls| - 1])
  }

  // ---- The polling loop ----

  class PersistedReader {
    const runId: string
    var cursor: nat
    var stopped: bool
    ghost var out: seq<Given>

    ghost function View(): Poller
      reads this
    {
      Poller(runId, cursor, out, stopped)
    }

    constructor (runId: string, after: nat)
      ensures View() == Poller(runId, after, [], false)
    {
      this.runId, cursor, stopped, out := runId, after, false, [];
    }

    /** The inner loop: collects the new frames and moves the cursor along. */
    static method Collect(frames: seq<Frame>, after: nat) returns (news: seq<Frame>, last: nat, sawDone: bool)
      ensures news == NewFrames(frames, after) && last == LastId(news, after) && (sawDone <==> HasDone(news))
    {
      news, last, sawDone := [], after, false;
      var i := 0;
      while i < |frames|
        invariant i <= |frames| && news == NewFrames(frames[..i], after) && last == LastId(news, after)
        invariant sawDone <==> HasDone(news)
      {
        NewFramesStep(frames, i, after);
        var frame := frames[i];
        var frameId := Number(frame);
        if frameId > last {
          HasDoneGrows(news, frame);
          news, last, sawDone := news + [frame], frameId, sawDone || frame.event == "done";
        }
        i := i + 1;
      }
      assert frames[..i] == frames;
    }

    /** One turn of the loop: the new frames of whatever the row holds, in order, and whether to leave. */
    method PollOnce(seen: Seen) returns (news: seq<Frame>)
      requires !stopped
      modifies this
      ensures View() == Poll(old(View()), seen)
      ensures news == if seen.Found? then NewFrames(Frames(seen.row), old(cursor)) else []
    {
      news := [];
      if seen.NoThread? {
        stopped := true;
        return;
      }
      var sawDone;
      news, cursor, sawDone := Collect(Frames(seen.row), cursor);
      if seen.row.Stored? {
        out := out + Tag(seen.row.runId, news);
      }
      stopped := sawDone || seen.row.Cleared? || seen.row.runId != runId || seen.row.status.Paused? || seen.stale;
    }
  }

  // ---- What a reader gives out ----

  ghost predicate Increasing(frames: seq<Frame>, after: nat, last: nat) {
    && after <= last
    && (forall i | 0 <= i < |frames| :: after < Number(frames[i]) <= last)
    && (forall i, j | 0 <= i < j < |frames| :: Number(frames[i]) < Number(frames[j]))
  }

  lemma {:induction false} NewFramesIncrease(frames: seq<Frame>, cursor: nat)
    ensures Increasing(NewFrames(frames, cursor), cursor, LastId(NewFrames(frames, cursor), cursor))
  {
    if frames == [] {
    } else {
      var news, last := NewFrames(frames[..|frames| - 1], cursor), frames[|frames| - 1];
      NewFramesIncrease(frames[..|frames| - 1], cursor);
      if Number(last) > LastId(news, cursor) {
        IncreasingConcat(news, [last], cursor, LastId(news, cursor), Number(last));
      }
    }
  }

  lemma IncreasingConcat(a: seq<Frame>, b: seq<Frame>, after: nat, middle: nat, last: nat)
    requires Increasing(a, after, middle) && Increasing(b, middle, last)
    ensures Increasing(a + b, after, last)
  {
  }

  lemma {:induction false} PollIncreases(r: Poller, seen: Seen, after: nat)
    requires Increasing(FramesOf(r.out), after, r.cursor)
    ensures Increasing(FramesOf(Poll(r, seen).out), after, Poll(r, seen).cursor)
  {
    if !r.stopped && seen.Found? && seen.row.Stored? {
      var news := NewFrames(seen.row.frames, r.cursor);
      NewFramesIncrease(seen.row.frames, r.cursor);
      IncreasingConcat(FramesOf(r.out), news, after, r.cursor, LastId(news, r.cursor));
      assert FramesOf(r.out + Tag(seen.row.runId, news)) == FramesOf(r.out) + news;
    }
  }

  /** Whatever the rows hold, a reader gives out frames with ever larger ids, all beyond its cursor. */
  lemma {:induction false} IdsIncrease(runId: string, after: nat, polls: seq<Seen>)
    ensures var r := Follow(Poller(runId, after, [], false), polls);
            Increasing(FramesOf(r.out), after, r.cursor)
  {
    if polls == [] {
    } else {
      IdsIncrease(runId, after, polls[..|polls| - 1]);
      PollIncreases(Follow(Poller(runId, after, [], false), polls[..|polls| - 1]), polls[|polls| - 1], after);
    }
  }

  ghost predicate Contiguous(out: seq<Given>, after: nat) {
    forall i | 0 <= i < |out| :: out[i].frame.id == Render(after + i + 1, Ten)
  }

  lemma TaggedContiguous(out: seq<Given>, after: nat, origin: string, frames: seq<Frame>)
    requires Contiguous(out, after) && Numbered(frames)
    ensures Contiguous(out + Tag(origin, After(frames, after + |out|)), after)
  {
    var news := After(frames, after + |out|);
    forall i | 0 <= i < |news|
      ensures news[i].id == Render(after + |out| + i + 1, Ten)
    {
      assert news[i] == frames[after + |out| + i];
    }
  }

  /** However the row changes between polls, the ids given out are a stretch without holes after the cursor. */
  lemma {:induction false} IdsAreContiguous(runId: string, after: nat, polls: seq<Seen>, logs: map<string, seq<Frame>>)
    requires forall i | 0 <= i < |polls| :: SnapshotOf(polls[i], logs)
    ensures var r := Follow(Poller(runId, after, [], false), polls);
            r.cursor == after + |r.out| && Contiguous(r.out, after)
  {
    if polls == [] {
    } else {
      var before, last := polls[..|polls| - 1], polls[|polls| - 1];
      IdsAreContiguous(runId, after, before, logs);
      assert SnapshotOf(last, logs);
      var r := Follow(Poller(runId, after, [], false), before);
      PollOfNumbered(r, last);
      if !r.stopped && last.Found? && last.row.Stored? {
        TaggedContiguous(r.out, after, last.row.runId, last.row.frames);
      }
    }
  }

  /** A poll that finds another run's row with frames beyond the cursor. */
  predicate Leaks(r: Poller, seen: Seen) {
    && !r.stopped && seen.Found? && seen.row.Stored? && seen.row.runId != r.runId
    && NewFrames(seen.row.frames, r.cursor) != []
  }

  predicate EverLeaks(r: Poller, polls: seq<Seen>) {
    polls != []
    && (EverLeaks(r, polls[..|polls| - 1]) || Leaks(Follow(r, polls[..|polls| - 1]), polls[|polls| - 1]))
  }

  predicate AllOwn(r: Poller) {
    forall i | 0 <= i < |r.out| :: r.out[i].origin == r.runId
  }

  lemma PollOwn(r: Poller, seen: Seen)
    ensures AllOwn(Poll(r, seen)) <==> AllOwn(r) && !Leaks(r, seen)
  {
    var p := Poll(r, seen);
    assert forall i | 0 <= i < |r.out| :: p.out[i] == r.out[i];
    if Leaks(r, seen) {
      assert p.out[|r.out|].origin == seen.row.runId;
    }
  }

  lemma {:induction false} FollowOwn(r: Poller, polls: seq<Seen>)
    requires AllOwn(r)
    ensures AllOwn(Follow(r, polls)) <==> !EverLeaks(r, polls)
    ensures Follow(r, polls).runId == r.runId
  {
    if polls == [] {
    } else {
      FollowOwn(r, polls[..|polls| - 1]);
      PollOwn(Follow(r, polls[..|polls| - 1]), polls[|polls| - 1]);
    }
  }

  /** The frames given out that come from the reader's own run are where the log has them. */
  ghost predicate OwnInPlace(out: seq<Given>, runId: string, after: nat, log: seq<Frame>) {
    forall i | 0 <= i < |out| && out[i].origin == runId :: after + i < |log| && out[i].frame == log[after + i]
  }

  lemma TaggedInPlace(out: seq<Given>, runId: string, after: nat, log: seq<Frame>, origin: string, frames: seq<Frame>)
    requires OwnInPlace(out, runId, after, log) && (origin == runId ==> frames <= log)
    ensures OwnInPlace(out + Tag(origin, After(frames, after + |out|)), runId, after, log)
  {
    var news := After(frames, after + |out|);
    var all := out + Tag(origin, news);
    forall i | 0 <= i < |all| && all[i].origin == runId
      ensures after + i < |log| && all[i].frame == log[after + i]
    {
      if i < |out| {
        assert all[i] == out[i];
      } else {
        assert all[i] == Given(origin, news[i - |out|]) && news[i - |out|] == frames[after + i];
      }
    }
  }

  lemma {:induction false} OwnFramesComeFromTheLog(
    runId: string, after: nat, polls: seq<Seen>, logs: map<string, seq<Frame>>)
    requires forall i | 0 <= i < |polls| :: SnapshotOf(polls[i], logs)
    requires runId in logs
    ensures var r := Follow(Poller(runId, after, [], false), polls);
            r.cursor == after + |r.out| && r.runId == runId && OwnInPlace(r.out, runId, after, logs[runId])
  {
    if polls == [] {
    } else {
      var before, last := polls[..|polls| - 1], polls[|polls| - 1];
      OwnFramesComeFromTheLog(runId, after, before, logs);
      assert SnapshotOf(last, logs);
      var r := Follow(Poller(runId, after, [], false), before);
      PollOfNumbered(r, last);
      if !r.stopped && last.Found? && last.row.Stored? {
        TaggedInPlace(r.out, runId, after, logs[runId], last.row.runId, last.row.frames);
      }
    }
  }

  lemma ElementwisePrefix(out: seq<Given>, log: seq<Frame>, after: nat)
    requires forall i | 0 <= i < |out| :: after + i < |log| && out[i].frame == log[after + i]
    ensures FramesOf(out) <= After(log, after)
  {
    if out != [] {
      assert out[|out| - 1].frame == log[after + (|out| - 1)];
    }
  }

  // ---- The leak, seen in the rows alone ----

  /** A row after which the reader goes on, if it brings no "done". */
  predicate GoesOn(seen: Seen, runId: string) {
    && seen.Found? && seen.row.Stored? && seen.row.runId == runId
    && seen.row.status.Running? && !seen.stale
  }

  /** The longest of the first k rows, or the cursor the reader came with. */
  function Longest(polls: seq<Seen>, k: nat, after: nat): nat
    requires k <= |polls|
  {
    if k == 0 then after
    else
      var m, n := Longest(polls, k - 1, after), if polls[k - 1].Found? then |Frames(polls[k - 1].row)| else 0;
      if m < n then n else m
  }

  /** The first k rows keep the reader polling. */
  ghost predicate KeepsPolling(polls: seq<Seen>, k: nat, runId: string, after: nat)
    requires k <= |polls|
  {
    forall j | 0 <= j < k :: GoesOn(polls[j], runId) && !HasDone(After(polls[j].row.frames, after))
  }

  /** The first row of another run, after rows that kept the reader polling, is longer than all of them. */
  ghost predicate RowLeaks(polls: seq<Seen>, i: int, runId: string, after: nat) {
    && 0 <= i < |polls| && KeepsPolling(polls, i, runId, after)
    && polls[i].Found? && polls[i].row.Stored? && polls[i].row.runId != runId
    && |polls[i].row.frames| > Longest(polls, i, after)
  }

  /** The log holds no "done" between two cursors. */
  ghost predicate NoDoneBetween(log: seq<Frame>, after: nat, cursor: nat) {
    forall j | after <= j < cursor :: j < |log| && log[j].event != "done"
  }

  /** A reader that is still polling has read as far as the longest row, and found no "done". */
  ghost predicate AsRowsSay(r: Poller, polls: seq<Seen>, k: nat, after: nat, log: seq<Frame>)
    requires k <= |polls|
  {
    && (!r.stopped <==> KeepsPolling(polls, k, r.runId, after))
    && (!r.stopped ==> after <= r.cursor == Longest(polls, k, after) && NoDoneBetween(log, after, r.cursor))
  }

  lemma DoneBeyondCursor(frames: seq<Frame>, log: seq<Frame>, after: nat, cursor: nat)
    requires frames <= log && after <= cursor && NoDoneBetween(log, after, cursor)
    ensures HasDone(After(frames, cursor)) <==> HasDone(After(frames, after))
  {
    var front, back := After(frames, after), After(frames, cursor);
    forall i | 0 <= i < |back|
      ensures 0 <= cursor - after + i < |front| && back[i] == front[cursor - after + i]
    {
    }
    if i :| 0 <= i < |front| && front[i].event == "done" {
      assert front[i] == frames[after + i] == log[after + i];
      assert back[after + i - cursor] == frames[after + i];
    }
  }

  lemma NoDoneGrows(frames: seq<Frame>, log: seq<Frame>, after: nat, cursor: nat)
    requires frames <= log && after <= cursor && NoDoneBetween(log, after, cursor)
    requires !HasDone(After(frames, cursor))
    ensures NoDoneBetween(log, after, if |frames| > cursor then |frames| else cursor)
  {
    forall j | cursor <= j < |frames|
      ensures log[j].event != "done"
    {
      assert After(frames, cursor)[j - cursor] == frames[j] == log[j];
    }
  }

  lemma PollAsRowsSay(r: Poller, polls: seq<Seen>, k: nat, after: nat, log: seq<Frame>)
    requires k < |polls| && AsRowsSay(r, polls, k, after, log)
    requires polls[k].Found? ==> Numbered(Frames(polls[k].row))
    requires polls[k].Found? && polls[k].row.Stored? && polls[k].row.runId == r.runId ==> polls[k].row.frames <= log
    ensures AsRowsSay(Poll(r, polls[k]), polls, k + 1, after, log)
    ensures Leaks(r, polls[k]) <==> RowLeaks(polls, k, r.runId, after)
  {
    var seen := polls[k];
    assert KeepsPolling(polls, k + 1, r.runId, after)
      <==> KeepsPolling(polls, k, r.runId, after) && GoesOn(seen, r.runId) && !HasDone(After(seen.row.frames, after));
    if !r.stopped && seen.Found? {
      NewFramesOfNumbered(Frames(seen.row), r.cursor);
      if seen.row.Stored? && seen.row.runId == r.runId {
        DoneBeyondCursor(seen.row.frames, log, after, r.cursor);
        if !HasDone(After(seen.row.frames, r.cursor)) {
          NoDoneGrows(seen.row.frames, log, after, r.cursor);
        }
      }
    }
  }

  lemma {:induction false} FollowAsRowsSay(
    runId: string, after: nat, polls: seq<Seen>, k: nat, logs: map<string, seq<Frame>>)
    requires k <= |polls| && runId in logs && forall i | 0 <= i < |polls| :: SnapshotOf(polls[i], logs)
    ensures var r := Follow(Poller(runId, after, [], false), polls[..k]);
            r.runId == runId && AsRowsSay(r, polls, k, after, logs[runId])
  {
    if k == 0 {
    } else {
      FollowAsRowsSay(runId, after, polls, k - 1, logs);
      assert polls[..k][..k - 1] == polls[..k - 1];
      assert SnapshotOf(polls[k - 1], logs);
      PollAsRowsSay(Follow(Poller(runId, after, [], false), polls[..k - 1]), polls, k - 1, after, logs[runId]);
    }
  }

  lemma {:induction false} LeakAsRowSays(
    runId: string, after: nat, polls: seq<Seen>, k: nat, logs: map<string, seq<Frame>>)
    requires k < |polls| && runId in logs && forall i | 0 <= i < |polls| :: SnapshotOf(polls[i], logs)
    ensures Leaks(Follow(Poller(runId, after, [], false), polls[..k]), polls[k]) <==> RowLeaks(polls, k, runId, after)
  {
    FollowAsRowsSay(runId, after, polls, k, logs);
    assert SnapshotOf(polls[k], logs);
    PollAsRowsSay(Follow(Poller(runId, after, [], false), polls[..k]), polls, k, after, logs[runId]);
  }

  lemma {:induction false} EverIsSome(ever: seq<bool>, now: seq<bool>, k: nat)
    requires |ever| == |now| + 1 && k <= |now| && !ever[0]
    requires forall i | 0 <= i < |now| :: ever[i + 1] == (ever[i] || now[i])
    ensures ever[k] <==> exists i :: 0 <= i < k && now[i]
  {
    if k == 0 {
    } else {
      EverIsSome(ever, now, k - 1);
    }
  }

  /** A reader leaks exactly when the rows say so. */
  lemma {:induction false} LeaksAsRowsSay(
    runId: string, after: nat, polls: seq<Seen>, logs: map<string, seq<Frame>>)
    requires runId in logs && forall i | 0 <= i < |polls| :: SnapshotOf(polls[i], logs)
    ensures EverLeaks(Poller(runId, after, [], false), polls) <==> exists i :: RowLeaks(polls, i, runId, after)
  {
    var r := Poller(runId, after, [], false);
    var ever, now := LeakFlags(r, polls);
    EverIsSome(ever, now, |polls|);
    forall i: nat | i < |polls|
      ensures now[i] <==> RowLeaks(polls, i, runId, after)
    {
      LeakAsRowSays(runId, after, polls, i, logs);
    }
    if i :| RowLeaks(polls, i, runId, after) {
      assert now[i];
    }
  }

  lemma {:induction false} LeakFlags(r: Poller, polls: seq<Seen>) returns (ever: seq<bool>, now: seq<bool>)
    ensures |now| == |polls| && |ever| == |polls| + 1 && !ever[0] && ever[|polls|] == EverLeaks(r, polls)
    ensures forall i | 0 <= i < |polls| :: now[i] == Leaks(Follow(r, polls[..i]), polls[i])
    ensures forall i | 0 <= i < |now| :: ever[i + 1] == (ever[i] || now[i])
  {
    ever := seq(|polls| + 1, i requires 0 <= i <= |polls| => EverLeaks(r, polls[..i]));
    now := seq(|polls|, i requires 0 <= i < |polls| => Leaks(Follow(r, polls[..i]), polls[i]));
    assert polls[..|polls|] == polls;
    forall i | 0 <= i < |now|
      ensures ever[i + 1] == (ever[i] || now[i])
    {
      assert polls[..i + 1][..i] == polls[..i];
    }
  }

  /**
   A polling reader gives out its own run's frames only, exactly when the first row of another run, found while
   it is still polling, is no longer than its cursor and every row before. Then what it gave out is a beginning
   of what a live reader with the same cursor gives out.
   */
  lemma PollingAgreesWithLiveReading(runId: string, after: nat, polls: seq<Seen>, logs: map<string, seq<Frame>>)
    requires forall i | 0 <= i < |polls| :: SnapshotOf(polls[i], logs)
    requires runId in logs
    ensures var r0 := Poller(runId, after, [], false);
            var r := Follow(r0, polls);
            && (AllOwn(r) <==> forall i :: !RowLeaks(polls, i, runId, after))
            && (AllOwn(r) ==> FramesOf(r.out) <= After(logs[runId], after))
  {
    var r0 := Poller(runId, after, [], false);
    FollowOwn(r0, polls);
    LeaksAsRowsSay(runId, after, polls, logs);
    OwnFramesComeFromTheLog(runId, after, polls, logs);
    var r, log := Follow(r0, polls), logs[runId];
    if AllOwn(r) {
      AllOwnInPlace(r, after, log);
    }
  }

  lemma AllOwnInPlace(r: Poller, after: nat, log: seq<Frame>)
    requires AllOwn(r) && OwnInPlace(r.out, r.runId, after, log)
    ensures FramesOf(r.out) <= After(log, after)
  {
    ElementwisePrefix(r.out, log, after);
  }

  /** The leak is real: a thread whose next run has started hands that run's frames to a late reader. */
  lemma LateReaderSeesTheNextRun(frames: seq<Frame>, runId: string, next: string)
    requires runId != next && |frames| > 0 && Numbered(frames)
    ensures Follow(Poller(runId, 0, [], false), [Found(Stored(next, Running, frames), false)]).out
            == Tag(next, frames)
  {
    var r0, seen := Poller(runId, 0, [], false), Found(Stored(next, Running, frames), false);
    assert [seen][..0] == [];
    assert Follow(r0, [seen]) == Poll(r0, seen);
    NewFramesOfNumbered(frames, 0);
  }

  // ---- A reader that has stopped ----

  /** The log of a turn that is over: "done" is its last frame, and occurs nowhere else. */
  ghost predicate Over(log: seq<Frame>) {
    log != [] && forall i | 0 <= i < |log| :: log[i].event == "done" <==> i == |log| - 1
  }

  lemma {:induction false} StoppedStays(r: Poller, polls: seq<Seen>, k: nat)
    requires k <= |polls| && Follow(r, polls[..k]).stopped
    ensures Follow(r, polls) == Follow(r, polls[..k])
  {
    if k == |polls| {
      assert polls[..k] == polls;
    } else {
      assert polls[..|polls| - 1][..k] == polls[..k];
      StoppedStays(r, polls[..|polls| - 1], k);
    }
  }

  /** The poll at which a reader stops: all before kept it polling, this one does not. */
  ghost predicate StopsAt(polls: seq<Seen>, i: nat, runId: string, after: nat)
    requires i < |polls|
  {
    KeepsPolling(polls, i, runId, after) && !KeepsPolling(polls, i + 1, runId, after)
  }

  lemma {:induction false} WholeLogHasDone(frames: seq<Frame>, log: seq<Frame>, after: nat)
    requires frames <= log && Over(log) && after < |log|
    ensures HasDone(After(frames, after)) <==> frames == log
  {
    var part := After(frames, after);
    assert forall i | 0 <= i < |part| :: part[i] == frames[after + i] == log[after + i];
    if frames == log {
      assert part[|log| - 1 - after].event == "done";
    }
  }

  lemma ProperPrefixIsShorter(frames: seq<Frame>, log: seq<Frame>)
    requires frames <= log
    ensures frames != log ==> |frames| < |log|
  {
  }

  /** Rows that kept the reader polling did not hold the whole log of the turn. */
  lemma {:induction false} NoRowIsWhole(polls: seq<Seen>, k: nat, j: nat, runId: string, after: nat, log: seq<Frame>)
    requires j < k <= |polls| && KeepsPolling(polls, k, runId, after) && Over(log) && after < |log|
    requires polls[j].row.frames <= log
    ensures |polls[j].row.frames| < |log|
  {
    var frames := polls[j].row.frames;
    WholeLogHasDone(frames, log, after);
    ProperPrefixIsShorter(frames, log);
  }

  lemma {:induction false} LongestIsShort(polls: seq<Seen>, k: nat, after: nat, n: nat)
    requires k <= |polls| && after < n && forall j | 0 <= j < k && polls[j].Found? :: |Frames(polls[j].row)| < n
    ensures Longest(polls, k, after) < n
  {
    if k == 0 {
    } else {
      LongestIsShort(polls, k - 1, after, n);
    }
  }

  /**
   A polling reader that has stopped without a leak has everything of a turn that is over, if and only if the row
   at which it stopped was the run's own and held the whole log. Any other reason to stop, be it a pause, a lost
   heartbeat, a cleared or another run's row, leaves it short.
   */
  lemma {:induction false} StoppedReaderHasTheTurn(
    runId: string, after: nat, polls: seq<Seen>, i: nat, logs: map<string, seq<Frame>>)
    requires runId in logs && forall j | 0 <= j < |polls| :: SnapshotOf(polls[j], logs)
    requires i < |polls| && StopsAt(polls, i, runId, after) && forall j :: !RowLeaks(polls, j, runId, after)
    requires Over(logs[runId]) && after < |logs[runId]|
    ensures var r, seen := Follow(Poller(runId, after, [], false), polls), polls[i];
            && r.stopped
            && (FramesOf(r.out) == After(logs[runId], after)
                <==> seen.Found? && seen.row.Stored? && seen.row.runId == runId && seen.row.frames == logs[runId])
  {
    var r0, log, seen := Poller(runId, after, [], false), logs[runId], polls[i];
    FollowAsRowsSay(runId, after, polls, i, logs);
    FollowAsRowsSay(runId, after, polls, i + 1, logs);
    StoppedStays(r0, polls, i + 1);
    PollingAgreesWithLiveReading(runId, after, polls, logs);
    IdsAreContiguous(runId, after, polls, logs);
    forall j | 0 <= j < i
      ensures |Frames(polls[j].row)| < |log|
    {
      assert SnapshotOf(polls[j], logs) && GoesOn(polls[j], runId);
      NoRowIsWhole(polls, i, j, runId, after, log);
    }
    LongestIsShort(polls, i, after, |log|);
    LastPollReads(runId, after, polls, i, logs);
  }

  /** How far the reader gets with the poll at which it stops. */
  lemma {:induction false} LastPollReads(
    runId: string, after: nat, polls: seq<Seen>, i: nat, logs: map<string, seq<Frame>>)
    requires runId in logs && forall j | 0 <= j < |polls| :: SnapshotOf(polls[j], logs)
    requires i < |polls| && KeepsPolling(polls, i, runId, after) && !RowLeaks(polls, i, runId, after)
    ensures var seen, m := polls[i], Longest(polls, i, after);
            Follow(Poller(runId, after, [], false), polls[..i + 1]).cursor
            == if seen.Found? && seen.row.Stored? && seen.row.runId == runId && |seen.row.frames| > m
               then |seen.row.frames| else m
  {
    var r := Follow(Poller(runId, after, [], false), polls[..i]);
    FollowAsRowsSay(runId, after, polls, i, logs);
    assert polls[..i + 1][..i] == polls[..i];
    assert SnapshotOf(polls[i], logs);
    PollOfNumbered(r, polls[i]);
  }

  /** A row that says "paused" is read once, whatever a later poll would find. */
  lemma {:induction false} PausedRowEndsReading(runId: string, events: seq<Frame>, later: Seen)
    requires Numbered(events)
    ensures var r := Follow(Poller(runId, 0, [], false), [Found(Stored(runId, Paused, events), false), later]);
            r.stopped && FramesOf(r.out) == events
  {
    var r0, seen := Poller(runId, 0, [], false), Found(Stored(runId, Paused, events), false);
    var polls := [seen, later];
    assert polls[..1] == [seen] && [seen][..0] == [] && Follow(r0, []) == r0;
    assert Follow(r0, polls[..1]) == Poll(r0, seen);
    PollOfNumbered(r0, seen);
    assert After(events, 0) == events;
    assert [] + Tag(runId, events) == Tag(runId, events) && FramesOf(Tag(runId, events)) == events;
    StoppedStays(r0, polls, 1);
  }

  lemma {:induction false} PausedEmit(p: Producer, e: Emit)
    requires p.logged && Numbered(p.events) && e.Forced() && e.written
    ensures var q := EmitStep(Step(p, DoPause), e);
            Numbered(q.events) && q.copy.row == Stored(p.runId, Paused, q.events)
  {
  }

  lemma {:induction false} TwoMoreEmits(p: Producer, e: Emit, f: Emit)
    ensures var q := EmitStep(EmitStep(p, e), f);
            |q.events| == |p.events| + 2 && q.events[..|q.events| - 2] == p.events
  {
  }

  /**
   A turn that pauses: the status changes before the last frames are emitted, so the first of them is stored in a
   row that says "paused". A reader that polls just then stops for good, two frames short.
   */
  lemma {:induction false} PausedReaderStopsShort(p: Producer, e1: Emit, e2: Emit, e3: Emit)
    requires p.logged && Numbered(p.events) && e1.Forced() && e1.written
    ensures var first := EmitStep(Step(p, DoPause), e1);
            var last := EmitStep(EmitStep(first, e2), e3);
            var r := Follow(Poller(p.runId, 0, [], false),
                            [Found(first.copy.row, false), Found(last.copy.row, false)]);
            && r.stopped && |last.events| == |first.events| + 2
            && FramesOf(r.out) == first.events == last.events[..|last.events| - 2]
  {
    var first := EmitStep(Step(p, DoPause), e1);
    PausedEmit(p, e1);
    TwoMoreEmits(first, e2, e3);
    PausedRowEndsReading(p.runId, first.events, Found(EmitStep(EmitStep(first, e2), e3).copy.row, false));
  }
}

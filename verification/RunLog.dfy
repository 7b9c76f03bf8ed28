/**
 One producer, its numbered event log, and the copy of the log that is written to the thread's row so
 that another worker can serve a reader that lost its connection.
 */
module RunLog {
  import opened Wrappers
  import opened Numerals

  datatype Frame = Frame(id: string, event: string, data: string)

  /** The ids of a log are 1, 2, 3, ... without holes. */
  ghost predicate Numbered(events: seq<Frame>) {
    forall i | 0 <= i < |events| :: events[i].id == Render(i + 1, Ten)
  }

  function Publish(events: seq<Frame>, event: string, data: string): (r: seq<Frame>)
    ensures |r| == |events| + 1 && events <= r
    ensures r[|events|].event == event && r[|events|].data == data
    ensures Numbered(events) ==> Numbered(r)
  {
    events + [Frame(Render(|events| + 1, Ten), event, data)]
  }

  // ---- The stored copy ----

  datatype Status = Running | Paused

  /** The part of a thread's row that replay looks at. The two columns are always written together. */
  datatype Row = Cleared | Stored(runId: string, status: Status, frames: seq<Frame>)

  /** The producer's view of the copy: time of the last write, frames since then, and the row. */
  datatype Copy = Copy(last: real, dirty: nat, row: Row)

  const MAX_DIRTY := 16
  const MAX_AGE := 0.25

  /** The clock is read again after the write, at `done`. */
  function Flush(c: Copy, runId: string, status: Status, events: seq<Frame>, done: real, written: bool): Copy {
    if written then Copy(done, 0, Stored(runId, status, events)) else c
  }

  /** Whether noting one more frame writes the log out now. */
  predicate Writes(c: Copy, force: bool, now: real) {
    force || c.dirty + 1 >= MAX_DIRTY || now - c.last >= MAX_AGE
  }

  /** One `emit`: the frame is published, then noted; anything but a token is written out at once. */
  datatype Emit = Emit(event: string, data: string, force: bool, now: real, written: bool, done: real) {
    predicate Forced() { force || event != "token" }
  }

  /** The run, and its log object once there is one; before that, `copy` is what the row happens to hold. */
  datatype Producer = Producer(runId: string, status: Status, events: seq<Frame>, copy: Copy, logged: bool)

  /** What a turn does to its log: emit, start to keep a copy, and pause for an approval. */
  datatype Move = DoEmit(emit: Emit) | DoAttach | DoPause

  function EmitStep(p: Producer, e: Emit): Producer {
    var events := Publish(p.events, e.event, e.data);
    var noted := p.copy.(dirty := p.copy.dirty + 1);
    if !p.logged then p.(events := events)
    else
      p.(events := events,
         copy := if Writes(p.copy, e.Forced(), e.now)
                 then Flush(noted, p.runId, p.status, events, e.done, e.written)
                 else noted)
  }

  function Step(p: Producer, m: Move): Producer {
    match m
    case DoEmit(e) => EmitStep(p, e)
    case DoAttach => if p.logged then p else p.(logged := true, copy := Copy(0.0, 0, p.copy.row))
    case DoPause => p.(status := Paused)
  }

  function Run(p: Producer, ms: seq<Move>): Producer {
    if ms == [] then p else Step(Run(p, ms[..|ms| - 1]), ms[|ms| - 1])
  }

  function Emits(ms: seq<Move>): nat {
    if ms == [] then 0 else Emits(ms[..|ms| - 1]) + if ms[|ms| - 1].DoEmit? then 1 else 0
  }

  /** Whether the last write the run attempted went through; None before any attempt. */
  function LastWrite(p: Producer, ms: seq<Move>): Option<bool> {
    if ms == [] then None
    else
      var before, m := Run(p, ms[..|ms| - 1]), ms[|ms| - 1];
      if m.DoEmit? && before.logged && Writes(before.copy, m.emit.Forced(), m.emit.now) then Some(m.emit.written)
      else LastWrite(p, ms[..|ms| - 1])
  }

  /** A producer that has not emitted yet. The row may still hold what an earlier run left there. */
  ghost predicate Fresh(p: Producer) {
    p.events == [] && p.copy.dirty == 0 && (p.copy.row.Stored? ==> p.copy.row.runId != p.runId)
  }

  ghost predicate StoresPrefix(p: Producer) {
    p.copy.row.Stored? && p.copy.row.runId == p.runId ==> p.copy.row.frames <= p.events
  }

  /** The copy lacks only the last few token frames. */
  ghost predicate InStep(p: Producer) {
    var c, n := p.copy, |p.events|;
    && c.row.Stored? && c.row.runId == p.runId
    && c.dirty < 16 && c.dirty <= n
    && c.row.frames == p.events[..n - c.dirty]
    && forall i | n - c.dirty <= i < n :: p.events[i].event == "token"
  }

  /**
   On every turn, whatever writes fail and whenever it starts to keep a copy: ids have no holes and the stored
   copy is a prefix of the live log. If the last attempted write went through, the copy lacks no frame but tokens,
   and of those at most fifteen.
   */
  lemma {:induction false} StoredLogFollowsLiveLog(p: Producer, ms: seq<Move>)
    requires Fresh(p)
    ensures Numbered(Run(p, ms).events) && |Run(p, ms).events| == Emits(ms)
    ensures Run(p, ms).runId == p.runId && StoresPrefix(Run(p, ms))
    ensures LastWrite(p, ms).Some? ==> Run(p, ms).logged
    ensures LastWrite(p, ms) == Some(true) ==> InStep(Run(p, ms))
  {
    if ms == [] {
    } else {
      var before := Run(p, ms[..|ms| - 1]);
      StoredLogFollowsLiveLog(p, ms[..|ms| - 1]);
      if ms[|ms| - 1].DoEmit? {
        EmitKeepsCopy(before, ms[|ms| - 1].emit);
      }
    }
  }

  lemma {:induction false} EmitKeepsCopy(p: Producer, e: Emit)
    requires StoresPrefix(p)
    ensures StoresPrefix(EmitStep(p, e))
    ensures p.logged ==>
              if Writes(p.copy, e.Forced(), e.now) then e.written ==> InStep(EmitStep(p, e))
              else InStep(p) ==> InStep(EmitStep(p, e))
  {
    var q := EmitStep(p, e);
    if !p.logged {
    } else if Writes(p.copy, e.Forced(), e.now) {
      if e.written {
        assert q.events[..|q.events| - 0] == q.events;
      }
    } else if InStep(p) {
      assert q.events[..|q.events| - q.copy.dirty] == p.events[..|p.events| - p.copy.dirty];
    }
  }

  /** So whenever the last frame is not a token and the last attempted write went through, the copy is the whole log. */
  lemma {:induction false} ForcedEmitStoresEverything(p: Producer, ms: seq<Move>)
    requires Fresh(p) && LastWrite(p, ms) == Some(true)
    requires var events := Run(p, ms).events; events != [] && events[|events| - 1].event != "token"
    ensures var q := Run(p, ms);
            q.copy.row.Stored? && q.copy.row.runId == p.runId && q.copy.row.frames == q.events
  {
    StoredLogFollowsLiveLog(p, ms);
    var q := Run(p, ms);
    assert q.copy.dirty == 0;
    assert q.events[..|q.events|] == q.events;
  }

  /** Every frame carries what was emitted: frame i, with id i + 1, has the event and the data of the i-th emit. */
  lemma {:induction false} FramesCarryTheEmits(p: Producer, ms: seq<Move>, k: nat)
    requires p.events == [] && k < |ms| && ms[k].DoEmit?
    ensures var events, i := Run(p, ms).events, Emits(ms[..k]);
      && i < |events| == Emits(ms)
      && events[i] == Frame(Render(i + 1, Ten), ms[k].emit.event, ms[k].emit.data)
  {
    var n := |ms| - 1;
    EventsAreCounted(p, ms);
    EventsAreCounted(p, ms[..n]);
    if k == n {
    } else {
      FramesCarryTheEmits(p, ms[..n], k);
      assert ms[..n][..k] == ms[..k];
    }
  }

  lemma {:induction false} EventsAreCounted(p: Producer, ms: seq<Move>)
    requires p.events == []
    ensures |Run(p, ms).events| == Emits(ms)
  {
    if ms == [] {
    } else {
      EventsAreCounted(p, ms[..|ms| - 1]);
    }
  }

  // ---- The live objects ----

  class AgentRun {
    const runId: string
    var status: Status
    var events: seq<Frame>
    var closed: bool
    var seqNo: nat

    ghost predicate Valid()
      reads this
    {
      seqNo == |events| && Numbered(events)
    }

    constructor (runId: string)
      ensures Valid() && this.runId == runId && status == Running && events == [] && !closed
    {
      this.runId, status, events, closed, seqNo := runId, Running, [], false, 0;
    }

    method PublishFrame(event: string, data: string) returns (frame: Frame)
      requires Valid()
      modifies this`seqNo, this`events
      ensures Valid() && events == Publish(old(events), event, data) == old(events) + [frame]
      ensures frame == Frame(Render(|old(events)| + 1, Ten), event, data)
    {
      seqNo := seqNo + 1;
      frame := Frame(Render(seqNo, Ten), event, data);
      events := events + [frame];
    }

    method Pause()
      modifies this`status
      ensures status == Paused
    {
      status := Paused;
    }

    method Seal()
      modifies this`closed
      ensures closed
    {
      closed := true;
    }
  }

  class ThreadRow {
    var row: Row

    constructor ()
      ensures row == Cleared
    {
      row := Cleared;
    }
  }

  class RunLog {
    const thread: ThreadRow
    const run: AgentRun
    var last: real
    var dirty: nat

    constructor (thread: ThreadRow, run: AgentRun)
      ensures this.thread == thread && this.run == run && last == 0.0 && dirty == 0
    {
      this.thread, this.run, last, dirty := thread, run, 0.0, 0;
    }

    function View(): Producer
      reads this, thread, run
    {
      Producer(run.runId, run.status, run.events, Copy(last, dirty, thread.row), true)
    }

    /** `written` says whether the database accepts the write. */
    method FlushCopy(done: real, written: bool)
      modifies this, thread
      ensures View() == old(View()).(copy :=
                Flush(old(View().copy), run.runId, run.status, run.events, done, written))
      ensures thread.row == if written then Stored(run.runId, run.status, run.events) else old(thread.row)
      ensures last == (if written then done else old(last)) && dirty == if written then 0 else old(dirty)
    {
      if !written {
        return;
      }
      thread.row := Stored(run.runId, run.status, run.events);
      last := done;
      dirty := 0;
    }

    method Note(force: bool, now: real, written: bool, done: real)
      modifies this, thread
      ensures var c := old(View().copy);
              View() == old(View()).(copy :=
                if Writes(c, force, now)
                then Flush(c.(dirty := c.dirty + 1), run.runId, run.status, run.events, done, written)
                else c.(dirty := c.dirty + 1))
      ensures var stored := written && (force || old(dirty) + 1 >= 16 || now - old(last) >= 0.25);
              && thread.row == (if stored then Stored(run.runId, run.status, run.events) else old(thread.row))
              && last == (if stored then done else old(last))
              && dirty == if stored then 0 else old(dirty) + 1
    {
      dirty := dirty + 1;
      if !force && dirty < MAX_DIRTY && now - last < MAX_AGE {
        return;
      }
      FlushCopy(done, written);
    }

    method Clear(written: bool)
      modifies thread
      ensures thread.row == if written then Cleared else old(thread.row)
    {
      if written {
        thread.row := Cleared;
      }
    }
  }

  /** The turn's way to its log: publishing always, noting only once there is a log object. */
  class Emitter {
    const thread: ThreadRow
    const run: AgentRun
    var log: RunLog?

    ghost predicate Valid()
      reads this, run, log
    {
      run.Valid() && (log != null ==> log.thread == thread && log.run == run)
    }

    function View(): Producer
      reads this, thread, run, log
    {
      Producer(run.runId, run.status, run.events,
               if log == null then Copy(0.0, 0, thread.row) else Copy(log.last, log.dirty, thread.row), log != null)
    }

    constructor (thread: ThreadRow, run: AgentRun)
      requires run.Valid()
      ensures Valid() && this.thread == thread && this.run == run && log == null
    {
      this.thread, this.run, log := thread, run, null;
    }

    method Attach()
      requires Valid() && log == null
      modifies this
      ensures Valid() && fresh(log) && View() == Step(old(View()), DoAttach)
      ensures log.last == 0.0 && log.dirty == 0
    {
      log := new RunLog(thread, run);
    }

    method EmitFrame(e: Emit)
      requires Valid()
      modifies run`seqNo, run`events, thread, log
      ensures Valid() && View() == Step(old(View()), DoEmit(e))
      ensures run.events == old(run.events) + [Frame(Render(|old(run.events)| + 1, Ten), e.event, e.data)]
      ensures log != null && e.written && (e.force || e.event != "token") ==>
                thread.row == Stored(run.runId, run.status, run.events)
      ensures log == null ==> thread.row == old(thread.row)
    {
      var _ := run.PublishFrame(e.event, e.data);
      if log != null {
        log.Note(e.force || e.event != "token", e.now, e.written, e.done);
      }
    }

    method Pause()
      requires Valid()
      modifies run`status
      ensures Valid() && View() == Step(old(View()), DoPause)
    {
      run.Pause();
    }
  }
}

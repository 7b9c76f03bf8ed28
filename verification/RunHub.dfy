/**
 The process's registry of runs: by id, and by thread the run that was last created for it or bound to it.
 Runs are numbered in the order in which they are created, as every run gets a new id.
 */
module RunHub {
  import opened Wrappers

  datatype Entry = Entry(thread: Option<string>, finished: bool, kept: bool)

  datatype Hub = Hub(runs: seq<Entry>, byThread: map<string, nat>)

  datatype Op = Create(on: Option<string>) | Bind(run: nat, thread: string) | Finish(run: nat) | Drop(run: nat)

  predicate Named(t: Option<string>) {
    t.Some? && t.value != ""
  }

  predicate Enabled(h: Hub, op: Op) {
    op.Create? || op.run < |h.runs|
  }

  function Step(h: Hub, op: Op): Hub
    requires Enabled(h, op)
  {
    match op
    case Create(t) =>
      Hub(h.runs + [Entry(t, false, true)], if Named(t) then h.byThread[t.value := |h.runs|] else h.byThread)
    case Bind(r, t) => Hub(h.runs[r := h.runs[r].(thread := Some(t))], h.byThread[t := r])
    case Finish(r) => h.(runs := h.runs[r := h.runs[r].(finished := true)])
    case Drop(r) =>
      var t := h.runs[r].thread;
      Hub(h.runs[r := h.runs[r].(kept := false)],
          if Named(t) && t.value in h.byThread && h.byThread[t.value] == r then h.byThread - {t.value} else h.byThread)
  }

  /** The run answered for a thread. */
  function RunFor(h: Hub, t: string): Option<nat> {
    if t in h.byThread && h.byThread[t] < |h.runs| && h.runs[h.byThread[t]].kept && !h.runs[h.byThread[t]].finished
    then Some(h.byThread[t])
    else None
  }

  ghost predicate Runs(ops: seq<Op>, k: nat)
    requires k <= |ops|
    decreases k, 0
  {
    k == 0 || (Runs(ops, k - 1) && Enabled(RunTo(ops, k - 1), ops[k - 1]))
  }

  ghost function RunTo(ops: seq<Op>, k: nat): Hub
    requires k <= |ops| && Runs(ops, k)
    decreases k, 1
  {
    if k == 0 then Hub([], map[]) else Step(RunTo(ops, k - 1), ops[k - 1])
  }

  /** Operation i registers run r for the thread. */
  ghost predicate Registers(ops: seq<Op>, i: nat, r: nat, t: string)
    requires i < |ops| && Runs(ops, i)
  {
    || ops[i] == Bind(r, t)
    || (ops[i] == Create(Some(t)) && t != "" && r == |RunTo(ops, i).runs|)
  }

  ghost predicate RegistersAny(op: Op, t: string) {
    (op.Bind? && op.thread == t) || (op == Create(Some(t)) && t != "")
  }

  lemma {:induction false} RunsBefore(ops: seq<Op>, i: nat, k: nat)
    requires i <= k <= |ops| && Runs(ops, k)
    ensures Runs(ops, i)
  {
    if i >= k {
    } else {
      RunsBefore(ops, i, k - 1);
    }
  }

  /** Operation i is the last of the first k that registers a run for the thread, and that run is r. */
  ghost predicate LastRegistered(ops: seq<Op>, i: int, k: nat, r: nat, t: string)
    requires k <= |ops| && Runs(ops, k)
  {
    && 0 <= i < k && Runs(ops, i) && Registers(ops, i, r, t)
    && forall j | i < j < k :: !RegistersAny(ops[j], t)
  }

  lemma {:induction false} RunFlags(ops: seq<Op>, k: nat, r: nat)
    requires k <= |ops| && Runs(ops, k) && r < |RunTo(ops, k).runs|
    ensures RunTo(ops, k).runs[r].kept <==> Drop(r) !in ops[..k]
    ensures RunTo(ops, k).runs[r].finished <==> Finish(r) in ops[..k]
  {
    assert ops[..k] == ops[..k - 1] + [ops[k - 1]];
    if r < |RunTo(ops, k - 1).runs| {
      RunFlags(ops, k - 1, r);
    } else {
      NotYetCreated(ops, k - 1, r);
    }
  }

  lemma {:induction false} NotYetCreated(ops: seq<Op>, k: nat, r: nat)
    requires k <= |ops| && Runs(ops, k) && r >= |RunTo(ops, k).runs|
    ensures Drop(r) !in ops[..k] && Finish(r) !in ops[..k]
  {
    if k == 0 {
    } else {
      NotYetCreated(ops, k - 1, r);
      assert ops[..k] == ops[..k - 1] + [ops[k - 1]];
    }
  }

  lemma {:induction false} ThreadEntryWasRegistered(ops: seq<Op>, k: nat, t: string)
    requires k <= |ops| && Runs(ops, k) && t in RunTo(ops, k).byThread
    ensures RunTo(ops, k).byThread[t] < |RunTo(ops, k).runs|
    ensures exists i :: LastRegistered(ops, i, k, RunTo(ops, k).byThread[t], t)
  {
    var r := RunTo(ops, k).byThread[t];
    if RegistersAny(ops[k - 1], t) {
      assert LastRegistered(ops, k - 1, k, r, t);
    } else {
      ThreadEntryWasRegistered(ops, k - 1, t);
      var i :| LastRegistered(ops, i, k - 1, r, t);
      assert LastRegistered(ops, i, k, r, t);
    }
  }

  lemma {:induction false} RegisteredRunIsFound(ops: seq<Op>, i: nat, k: nat, r: nat, t: string)
    requires k <= |ops| && Runs(ops, k) && LastRegistered(ops, i, k, r, t) && Drop(r) !in ops[i..k]
    ensures t in RunTo(ops, k).byThread && RunTo(ops, k).byThread[t] == r < |RunTo(ops, k).runs|
  {
    if i < k - 1 {
      assert ops[i..k] == ops[i..k - 1] + [ops[k - 1]];
      RegisteredRunIsFound(ops, i, k - 1, r, t);
    } else {
      assert ops[i..k] == [ops[i]];
    }
  }

  /**
   A thread is answered with a run exactly when that run was the last to be created for or bound to the thread,
   and has neither finished nor been dropped. So dropping an older run never hides a newer one.
   */
  lemma ThreadFindsItsLastRun(ops: seq<Op>, t: string, r: nat)
    requires Runs(ops, |ops|)
    ensures RunFor(RunTo(ops, |ops|), t) == Some(r)
      <==> (exists i :: LastRegistered(ops, i, |ops|, r, t)) && Drop(r) !in ops && Finish(r) !in ops
  {
    var n := |ops|;
    assert ops[..n] == ops;
    if t in RunTo(ops, n).byThread {
      ThreadEntryWasRegistered(ops, n, t);
      RunFlags(ops, n, RunTo(ops, n).byThread[t]);
    }
    if i :| LastRegistered(ops, i, n, r, t) && Drop(r) !in ops {
      RegisteredRunIsFound(ops, i, n, r, t);
    }
  }

  // ----- The objects -----

  class HubRun {
    const id: nat
    var thread: Option<string>
    var finished: bool

    constructor (id: nat, thread: Option<string>)
      ensures this.id == id && this.thread == thread && !finished
    {
      this.id, this.thread, finished := id, thread, false;
    }
  }

  class RunHub {
    var runs: map<nat, HubRun>
    var byThread: map<string, nat>
    ghost var created: seq<HubRun>

    ghost predicate Valid()
      reads this
    {
      && (forall i | 0 <= i < |created| :: created[i].id == i)
      && (forall r | r in runs :: r < |created| && runs[r] == created[r])
    }

    ghost function EntryOf(i: nat): Entry
      requires i < |created|
      reads this, created
    {
      Entry(created[i].thread, created[i].finished, i in runs)
    }

    ghost function View(): Hub
      reads this, created
    {
      Hub(seq(|created|, i requires 0 <= i < |created| reads this, created => EntryOf(i)), byThread)
    }

    /** The caller passes a new id. */
    method Create(thread: Option<string>, id: nat) returns (run: HubRun)
      requires Valid() && id == |created|
      modifies this
      ensures Valid() && fresh(run) && created == old(created) + [run]
      ensures View() == Step(old(View()), Op.Create(thread))
      ensures run.id == id && run.thread == thread && !run.finished && id in runs && runs[id] == run
      ensures byThread ==
                if thread != None && thread != Some("") then old(byThread)[thread.value := id] else old(byThread)
    {
      run := new HubRun(id, thread);
      runs, created := runs[run.id := run], created + [run];
      if thread.Some? && thread.value != "" {
        byThread := byThread[thread.value := run.id];
      }
    }

    method Bind(run: HubRun, thread: string)
      requires Valid() && run in created
      modifies this, run
      ensures Valid() && created == old(created)
      ensures View() == Step(old(View()), Op.Bind(run.id, thread))
      ensures run.thread == Some(thread) && byThread == old(byThread)[thread := run.id]
    {
      run.thread := Some(thread);
      byThread := byThread[thread := run.id];
    }

    method ForThread(thread: string) returns (run: Option<HubRun>)
      requires Valid()
      ensures (if run.Some? then Some(run.value.id) else None) == RunFor(View(), thread)
    {
      if thread in byThread && byThread[thread] in runs && !runs[byThread[thread]].finished {
        run := Some(runs[byThread[thread]]);
      } else {
        run := None;
      }
    }

    method Drop(run: HubRun)
      requires Valid() && run in created
      modifies this
      ensures Valid() && created == old(created)
      ensures View() == Step(old(View()), Op.Drop(run.id))
      ensures runs == old(runs) - {run.id}
      ensures var t := run.thread;
              byThread == if t != None && t != Some("") && t.value in old(byThread) && old(byThread)[t.value] == run.id
                          then old(byThread) - {t.value} else old(byThread)
    {
      runs := runs - {run.id};
      if run.thread.Some? && run.thread.value != "" {
        if run.thread.value in byThread && byThread[run.thread.value] == run.id {
          byThread := byThread - {run.thread.value};
        }
      }
    }
  }
}

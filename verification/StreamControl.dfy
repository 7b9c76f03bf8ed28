/**
 The local registry of cancel requests: which stream is running on a thread, and which cancel tokens are set.
 A token is a string made of the thread id, a colon and the stream id, or a star for every stream. The remote
 store is an answer given to each question.
 */
module StreamControl {
  import opened Wrappers

  const ALL := "*"

  datatype Op =
    | Begin(thread: string, stream: string)
    | End(thread: string, stream: string)
    | Stop(thread: string, target: Option<string>)
    | Ask(thread: string, stream: string, flag: Option<string>)

  datatype Registry = Registry(active: map<string, string>, cancelled: set<string>)

  function Token(thread: string, stream: string): string {
    thread + ":" + stream
  }

  predicate SaysStop(r: Registry, thread: string, stream: string) {
    Token(thread, stream) in r.cancelled || Token(thread, ALL) in r.cancelled
  }

  predicate Hears(flag: Option<string>, stream: string) {
    flag.Some? && (flag.value == ALL || flag.value == stream)
  }

  function Step(r: Registry, op: Op): Registry {
    match op
    case Begin(t, s) => Registry(r.active[t := s], r.cancelled - {Token(t, ALL), Token(t, s)})
    case End(t, s) =>
      var active := if t in r.active && r.active[t] == s then r.active - {t} else r.active;
      Registry(active, r.cancelled - {Token(t, s), Token(t, ALL)})
    case Stop(t, target) => r.(cancelled := r.cancelled + {Token(t, if target.Some? then target.value else ALL)})
    case Ask(t, s, flag) =>
      if !SaysStop(r, t, s) && Hears(flag, s) then r.(cancelled := r.cancelled + {Token(t, s)}) else r
  }

  /** The registry after the first k operations of a run that starts with an empty one. */
  function RunTo(ops: seq<Op>, k: nat): Registry
    requires k <= |ops|
  {
    if k == 0 then Registry(map[], {}) else Step(RunTo(ops, k - 1), ops[k - 1])
  }

  // ----- Tokens -----

  /** Thread ids have no colon; the streams that run are never called "*". */
  ghost predicate Proper(op: Op) {
    && ':' !in op.thread
    && (!op.Stop? ==> op.stream != ALL)
  }

  lemma TokenParts(t: string, s: string)
    requires ':' !in t
    ensures |t| < |Token(t, s)| && Token(t, s)[|t|] == ':'
    ensures forall k | 0 <= k < |t| :: Token(t, s)[k] != ':'
    ensures Token(t, s)[..|t|] == t && Token(t, s)[|t| + 1..] == s
  {
  }

  lemma TokenTellsThreadAndStream(t: string, s: string, t': string, s': string)
    requires ':' !in t && ':' !in t'
    ensures Token(t, s) == Token(t', s') <==> t == t' && s == s'
  {
    TokenParts(t, s);
    TokenParts(t', s');
  }

  /** Without that, two threads can share a token. */
  lemma ColonsCollide()
    ensures Token("a", "b:c") == Token("a:b", "c")
  {
    assert Token("a", "b:c") == "a:b:c" == Token("a:b", "c");
  }

  // ----- What a run has asked for -----

  ghost predicate StopsAll(op: Op, t: string) {
    op == Stop(t, None) || op == Stop(t, Some("*"))
  }

  ghost predicate ClearsThread(op: Op, t: string) {
    (op.Begin? || op.End?) && op.thread == t
  }

  ghost predicate ClearsStream(op: Op, t: string, s: string) {
    ClearsThread(op, t) && op.stream == s
  }

  /** Operation i stopped the thread, and nothing has begun or ended on it since. */
  ghost predicate StillStopsThread(ops: seq<Op>, i: int, k: nat, t: string)
    requires k <= |ops|
  {
    0 <= i < k && StopsAll(ops[i], t) && forall j | i < j < k :: !ClearsThread(ops[j], t)
  }

  ghost predicate ThreadStopped(ops: seq<Op>, k: nat, t: string)
    requires k <= |ops|
  {
    exists i :: StillStopsThread(ops, i, k, t)
  }

  /** Operation i is a stop for the stream, or the moment its producer hears of one from another worker. */
  ghost predicate StopsStream(ops: seq<Op>, i: nat, t: string, s: string)
    requires i < |ops|
  {
    || ops[i] == Stop(t, Some(s))
    || ((ops[i] == Ask(t, s, Some(s)) || ops[i] == Ask(t, s, Some("*"))) && !ThreadStopped(ops, i, t))
  }

  ghost predicate StillStopsStream(ops: seq<Op>, i: int, k: nat, t: string, s: string)
    requires k <= |ops|
  {
    0 <= i < k && StopsStream(ops, i, t, s) && forall j | i < j < k :: !ClearsStream(ops[j], t, s)
  }

  ghost predicate StreamStopped(ops: seq<Op>, k: nat, t: string, s: string)
    requires k <= |ops|
  {
    exists i :: StillStopsStream(ops, i, k, t, s)
  }

  lemma ThreadStoppedNext(ops: seq<Op>, k: nat, t: string)
    requires k < |ops|
    ensures ThreadStopped(ops, k + 1, t)
      <==> StopsAll(ops[k], t) || (ThreadStopped(ops, k, t) && !ClearsThread(ops[k], t))
  {
    if StopsAll(ops[k], t) {
      assert StillStopsThread(ops, k, k + 1, t);
    } else if i :| StillStopsThread(ops, i, k, t) && !ClearsThread(ops[k], t) {
      assert StillStopsThread(ops, i, k + 1, t);
    } else if ThreadStopped(ops, k + 1, t) {
      var i :| StillStopsThread(ops, i, k + 1, t);
      assert StillStopsThread(ops, i, k, t);
    }
  }

  lemma StreamStoppedNext(ops: seq<Op>, k: nat, t: string, s: string)
    requires k < |ops|
    ensures StreamStopped(ops, k + 1, t, s)
      <==> StopsStream(ops, k, t, s) || (StreamStopped(ops, k, t, s) && !ClearsStream(ops[k], t, s))
  {
    if StopsStream(ops, k, t, s) {
      assert StillStopsStream(ops, k, k + 1, t, s);
    } else if i :| StillStopsStream(ops, i, k, t, s) && !ClearsStream(ops[k], t, s) {
      assert StillStopsStream(ops, i, k + 1, t, s);
    } else if StreamStopped(ops, k + 1, t, s) {
      var i :| StillStopsStream(ops, i, k + 1, t, s);
      assert StillStopsStream(ops, i, k, t, s);
    }
  }

  /** What one operation does to the token of a thread and a stream. */
  lemma StepOnToken(r: Registry, op: Op, t: string, s: string)
    requires Proper(op) && ':' !in t
    ensures Token(t, s) in Step(r, op).cancelled
      <==>
      || (op.Stop? && op.thread == t && (if op.target.Some? then op.target.value else ALL) == s)
      || (op.Ask? && op.thread == t && op.stream == s && Hears(op.flag, s) && !SaysStop(r, t, s))
      || (Token(t, s) in r.cancelled && !(ClearsThread(op, t) && (op.stream == s || s == ALL)))
  {
    TokenTellsThreadAndStream(t, s, op.thread, ALL);
    if op.Stop? {
      TokenTellsThreadAndStream(t, s, op.thread, if op.target.Some? then op.target.value else ALL);
    } else {
      TokenTellsThreadAndStream(t, s, op.thread, op.stream);
    }
  }

  lemma {:induction false} ThreadTokenIsThreadStop(ops: seq<Op>, k: nat, t: string)
    requires k <= |ops| && (forall i | 0 <= i < k :: Proper(ops[i])) && ':' !in t
    ensures Token(t, ALL) in RunTo(ops, k).cancelled <==> ThreadStopped(ops, k, t)
  {
    if k == 0 {
    } else {
      ThreadTokenIsThreadStop(ops, k - 1, t);
      ThreadStoppedNext(ops, k - 1, t);
      StepOnToken(RunTo(ops, k - 1), ops[k - 1], t, ALL);
    }
  }

  lemma {:induction false} StreamTokenIsStreamStop(ops: seq<Op>, k: nat, t: string, s: string)
    requires k <= |ops| && (forall i | 0 <= i < k :: Proper(ops[i])) && ':' !in t && s != ALL
    ensures Token(t, s) in RunTo(ops, k).cancelled <==> StreamStopped(ops, k, t, s)
  {
    if k == 0 {
    } else {
      StreamTokenIsStreamStop(ops, k - 1, t, s);
      StreamStoppedNext(ops, k - 1, t, s);
      ThreadTokenIsThreadStop(ops, k - 1, t);
      StepOnToken(RunTo(ops, k - 1), ops[k - 1], t, s);
    }
  }

  /**
   A stream is told to stop exactly when it was stopped by name, here or on another worker, and has neither
   begun nor ended since, or when its thread was stopped and no stream of the thread has begun or ended since.
   */
  lemma StopIsSeenUntilCleared(ops: seq<Op>, t: string, s: string)
    requires (forall i | 0 <= i < |ops| :: Proper(ops[i])) && ':' !in t && s != ALL
    ensures SaysStop(RunTo(ops, |ops|), t, s) <==> StreamStopped(ops, |ops|, t, s) || ThreadStopped(ops, |ops|, t)
  {
    ThreadTokenIsThreadStop(ops, |ops|, t);
    StreamTokenIsStreamStop(ops, |ops|, t, s);
  }

  /** Nothing asked for before a stream begins can stop it: what stops it came after. */
  lemma BeginForgetsEarlierStops(ops: seq<Op>, b: nat, t: string, s: string)
    requires (forall i | 0 <= i < |ops| :: Proper(ops[i])) && b < |ops| && ops[b] == Begin(t, s)
    requires SaysStop(RunTo(ops, |ops|), t, s)
    ensures exists i :: b < i < |ops| && (StopsStream(ops, i, t, s) || StopsAll(ops[i], t))
  {
    assert Proper(ops[b]);
    StopIsSeenUntilCleared(ops, t, s);
    if StreamStopped(ops, |ops|, t, s) {
      var i :| StillStopsStream(ops, i, |ops|, t, s);
      assert ClearsStream(ops[b], t, s) && i != b;
    } else {
      var i :| StillStopsThread(ops, i, |ops|, t);
      assert ClearsThread(ops[b], t) && i != b;
    }
  }

  /** A stop for one stream changes the answer of no other stream, on this thread or elsewhere. */
  lemma StopReachesOnlyItsStream(r: Registry, t: string, s: string, t': string, s': string)
    requires ':' !in t && ':' !in t' && s != ALL && (t, s) != (t', s')
    ensures SaysStop(Step(r, Stop(t, Some(s))), t', s') <==> SaysStop(r, t', s')
  {
    TokenTellsThreadAndStream(t, s, t', s');
    TokenTellsThreadAndStream(t, s, t', ALL);
  }

  /** A stop for the whole thread is lost when an older stream of the thread ends after it. */
  lemma OldStreamsEndLosesThreadStop(t: string, earlier: string, later: string)
    requires ':' !in t && earlier != ALL && later != ALL && earlier != later
    ensures var ops := [Begin(t, earlier), Begin(t, later), Stop(t, None), End(t, earlier)];
      && SaysStop(RunTo(ops, 3), t, later)
      && !SaysStop(RunTo(ops, 4), t, later)
  {
    var ops := [Begin(t, earlier), Begin(t, later), Stop(t, None), End(t, earlier)];
    assert RunTo(ops, 1).cancelled == {};
    assert RunTo(ops, 2).cancelled == {};
    assert RunTo(ops, 3).cancelled == {Token(t, ALL)};
    TokenTellsThreadAndStream(t, later, t, ALL);
  }

  // ----- The stream a stop is reported against -----

  /** The stream of the last begin on the thread, unless that stream has ended since. */
  ghost predicate RunsOn(ops: seq<Op>, i: int, k: nat, t: string)
    requires k <= |ops|
  {
    && 0 <= i < k && ops[i].Begin? && ops[i].thread == t
    && forall j | i < j < k && ops[j].thread == t :: !ops[j].Begin? && ops[j] != End(t, ops[i].stream)
  }

  lemma {:induction false} ActiveWasBegun(ops: seq<Op>, k: nat, t: string)
    requires k <= |ops| && t in RunTo(ops, k).active
    ensures exists i :: RunsOn(ops, i, k, t) && ops[i].stream == RunTo(ops, k).active[t]
  {
    if ops[k - 1] == Begin(t, RunTo(ops, k).active[t]) {
      assert RunsOn(ops, k - 1, k, t);
    } else {
      ActiveWasBegun(ops, k - 1, t);
      var i :| RunsOn(ops, i, k - 1, t) && ops[i].stream == RunTo(ops, k - 1).active[t];
      assert RunsOn(ops, i, k, t);
    }
  }

  lemma {:induction false} BegunStaysActive(ops: seq<Op>, i: int, k: nat, t: string)
    requires k <= |ops| && RunsOn(ops, i, k, t)
    ensures t in RunTo(ops, k).active && RunTo(ops, k).active[t] == ops[i].stream
  {
    if i >= k - 1 {
    } else {
      BegunStaysActive(ops, i, k - 1, t);
    }
  }

  /** A thread has an active stream exactly when its last begun stream has not ended, and it is that one. */
  lemma ActiveIsTheLastBegun(ops: seq<Op>, t: string, s: string)
    ensures var r := RunTo(ops, |ops|);
      t in r.active && r.active[t] == s <==> exists i :: RunsOn(ops, i, |ops|, t) && ops[i].stream == s
  {
    if t in RunTo(ops, |ops|).active {
      ActiveWasBegun(ops, |ops|, t);
    }
    if i :| RunsOn(ops, i, |ops|, t) && ops[i].stream == s {
      BegunStaysActive(ops, i, |ops|, t);
    }
  }

  // ----- The registry object -----

  class StreamControl {
    var active: map<string, string>
    var cancelled: set<string>

    constructor ()
      ensures View() == Registry(map[], {})
    {
      active, cancelled := map[], {};
    }

    ghost function View(): Registry
      reads this
    {
      Registry(active, cancelled)
    }

    method BeginStream(thread: string, stream: string)
      modifies this
      ensures View() == Step(old(View()), Begin(thread, stream))
      ensures active == old(active)[thread := stream]
      ensures cancelled == old(cancelled) - {thread + ":" + stream, thread + ":" + "*"}
    {
      active := active[thread := stream];
      cancelled := cancelled - {Token(thread, ALL)};
      cancelled := cancelled - {Token(thread, stream)};
    }

    method EndStream(thread: string, stream: string)
      modifies this
      ensures View() == Step(old(View()), End(thread, stream))
      ensures active ==
                if thread in old(active) && old(active)[thread] == stream then old(active) - {thread} else old(active)
      ensures cancelled == old(cancelled) - {thread + ":" + stream, thread + ":" + "*"}
    {
      if thread in active && active[thread] == stream {
        active := active - {thread};
      }
      cancelled := cancelled - {Token(thread, stream)};
      cancelled := cancelled - {Token(thread, ALL)};
    }

    /** Returns the stream the stop is reported against; `remote` is what the shared store has for the thread. */
    method RequestStop(thread: string, stream: Option<string>, remote: Option<string>) returns (target: Option<string>)
      modifies this
      ensures View() == Step(old(View()), Stop(thread, stream)) && active == old(active)
      ensures cancelled == old(cancelled) + {thread + ":" + if stream.Some? then stream.value else "*"}
      ensures stream.Some? ==> target == stream
      ensures stream.None? ==>
        if thread in old(active) && old(active)[thread] != "" then target == Some(old(active)[thread])
        else if remote == Some("") then target == None
        else target == remote
    {
      var token;
      if stream.None? {
        if thread in active && active[thread] != "" {
          target := Some(active[thread]);
        } else if remote.Some? && remote.value != "" {
          target := remote;
        } else {
          target := None;
        }
        token := Token(thread, ALL);
      } else {
        target := stream;
        token := Token(thread, stream.value);
      }
      cancelled := cancelled + {token};
    }

    /** `flag` is what the shared store answers, or None when it is not asked this time. */
    method ShouldStop(thread: string, stream: string, flag: Option<string>) returns (stop: bool)
      modifies this
      ensures View() == Step(old(View()), Ask(thread, stream, flag))
      ensures stop <==> old(thread + ":" + stream in cancelled || thread + ":" + "*" in cancelled)
                        || flag == Some(stream) || flag == Some("*")
      ensures active == old(active) && old(cancelled) <= cancelled <= old(cancelled) + {thread + ":" + stream}
      ensures stop ==> thread + ":" + stream in cancelled || thread + ":" + "*" in cancelled
    {
      if Token(thread, stream) in cancelled || Token(thread, ALL) in cancelled {
        return true;
      }
      stop := false;
      if flag.Some? && (flag.value == ALL || flag.value == stream) {
        cancelled := cancelled + {Token(thread, stream)};
        stop := true;
      }
    }
  }
}

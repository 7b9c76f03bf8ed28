/**
 Reading a run's log: live readers on the process that produces it, the resume cursor taken from the
 last event id a client saw, and readers on other processes that poll the stored copy.
 */
module Replay {
  import opened Wrappers
  import opened Text
  import opened Numerals
  import opened RunLog

  function After(events: seq<Frame>, after: nat): seq<Frame> {
    if after <= |events| then events[after..] else []
  }

  /** `int(frame["id"])`, and 0 for text that is not a number (which no run publishes). */
  function Number(f: Frame): nat {
    if f.id != "" && AllDigits(f.id, Ten) then Value(f.id, Ten) else 0
  }

  lemma NumberOfPublished(events: seq<Frame>, i: nat)
    requires Numbered(events) && i < |events|
    ensures events[i].id != "" && AllDigits(events[i].id, Ten) && Number(events[i]) == i + 1
  {
    ValueOfRender(i + 1, Ten);
  }

  // ---- Live readers ----

  /** `iter_after` between two of its pauses: what it has taken, what it still holds, what it gave out. */
  datatype Reader = Reader(after: nat, index: nat, batch: seq<Frame>, out: seq<Frame>)

  /** A reader holds a stretch of the log that ends at `index` and gave out all it should before it. */
  ghost predicate ReaderOk(r: Reader, events: seq<Frame>) {
    && Numbered(events)
    && |r.batch| <= r.index <= |events|
    && r.batch == events[r.index - |r.batch|..r.index]
    && r.out == After(events[..r.index - |r.batch|], r.after)
  }

  function TakeBatch(r: Reader, events: seq<Frame>): Reader
    requires r.index <= |events|
  {
    r.(batch := events[r.index..], index := |events|)
  }

  function PopFrame(r: Reader): Reader
    requires r.batch != []
  {
    r.(batch := r.batch[1..], out := if Number(r.batch[0]) > r.after then r.out + [r.batch[0]] else r.out)
  }

  lemma TakeBatchOk(r: Reader, events: seq<Frame>)
    requires ReaderOk(r, events) && r.batch == []
    ensures ReaderOk(TakeBatch(r, events), events)
  {
  }

  lemma AfterGrows(events: seq<Frame>, n: nat, after: nat)
    requires n < |events|
    ensures After(events[..n + 1], after)
            == if n >= after then After(events[..n], after) + [events[n]] else After(events[..n], after)
  {
    if n >= after {
      assert events[..n + 1][after..] == events[..n][after..] + [events[n]];
    }
  }

  lemma PopFrameOk(r: Reader, events: seq<Frame>)
    requires ReaderOk(r, events) && r.batch != []
    ensures ReaderOk(PopFrame(r), events)
  {
    var n := r.index - |r.batch|;
    NumberOfPublished(events, n);
    assert r.batch[0] == events[n];
    assert r.batch[1..] == events[n + 1..r.index];
    AfterGrows(events, n, r.after);
  }

  lemma PublishOk(r: Reader, events: seq<Frame>, more: seq<Frame>)
    requires ReaderOk(r, events) && Numbered(more) && events <= more
    ensures ReaderOk(r, more)
  {
    var n := r.index - |r.batch|;
    assert more[..n] == events[..n];
    assert more[n..r.index] == events[n..r.index];
  }

  /** What the reader gave out is always the beginning of what it should give out. */
  lemma ReaderGivesPrefix(r: Reader, events: seq<Frame>)
    requires ReaderOk(r, events)
    ensures r.out <= After(events, r.after)
    ensures r.batch == [] && r.index == |events| ==> r.out == After(events, r.after)
    ensures forall k | 0 <= k < |r.out| :: r.after + k < |events| && r.out[k] == events[r.after + k]
  {
    var n := r.index - |r.batch|;
    if r.after <= n {
      assert events[..n][r.after..] == events[r.after..][..n - r.after];
    }
    assert n == |events| ==> events[..n] == events;
  }

  /** What an asynchronous generator does when it is asked for its next item. */
  datatype Signal = Yield(frame: Frame) | Wait | Stop

  class Subscriber {
    const run: AgentRun
    const after: nat
    var index: nat
    var batch: seq<Frame>
    ghost var out: seq<Frame>

    ghost function View(): Reader
      reads this
    {
      Reader(after, index, batch, out)
    }

    ghost predicate Valid()
      reads this, run
    {
      run.Valid() && ReaderOk(View(), run.events)
    }

    constructor (run: AgentRun, after: nat)
      requires run.Valid()
      ensures Valid() && this.run == run && this.after == after && out == []
    {
      this.run, this.after, index, batch, out := run, after, 0, [], [];
    }

    /**
     Runs to the next yield, wait or return. It waits only when everything published has been given
     out and the run is open, and returns only when the run is sealed and drained.
     */
    method Next() returns (s: Signal)
      requires Valid()
      modifies this
      ensures Valid()
      ensures s.Yield? ==> out == old(out) + [s.frame]
      ensures s.Yield? ==> after + |old(out)| < |run.events| && s.frame == run.events[after + |old(out)|]
      ensures !s.Yield? ==> out == old(out) == After(run.events, after) && (s.Stop? <==> run.closed)
      ensures !s.Yield? ==> |out| == if after <= |run.events| then |run.events| - after else 0
    {
      while true
        invariant Valid() && out == old(out)
        decreases |run.events| - index, |batch|
      {
        if batch == [] {
          if index >= |run.events| {
            ReaderGivesPrefix(View(), run.events);
            return if run.closed then Stop else Wait;
          }
          TakeBatchOk(View(), run.events);
          batch, index := run.events[index..], |run.events|;
        } else {
          PopFrameOk(View(), run.events);
          NumberOfPublished(run.events, index - |batch|);
          var frame := batch[0];
          assert frame == run.events[index - |batch|];
          batch := batch[1..];
          if Value(frame.id, Ten) > after {
            out := out + [frame];
            ReaderGivesPrefix(View(), run.events);
            assert out[|out| - 1] == frame;
            return Yield(frame);
          }
        }
      }
    }
  }

  // ---- Any interleaving of one producer and many readers ----

  datatype System = System(events: seq<Frame>, closed: bool, readers: seq<Reader>, stopped: seq<bool>)

  datatype Action =
    | DoPublish(event: string, data: string)
    | DoSeal
    | DoJoin(after: nat)
    | DoResume(reader: nat)

  /**
   One step. The producer seals its run when it has nothing left to publish. A reader takes a batch, gives
   out or skips one frame, waits, or stops for good.
   */
  function SystemStep(s: System, x: Action): System {
    match x
    case DoPublish(event, data) => if s.closed then s else s.(events := Publish(s.events, event, data))
    case DoSeal => s.(closed := true)
    case DoJoin(after) => s.(readers := s.readers + [Reader(after, 0, [], [])], stopped := s.stopped + [false])
    case DoResume(i) =>
      if i >= |s.readers| || i >= |s.stopped| || s.stopped[i] then s
      else
        var r := s.readers[i];
        if r.batch != [] then s.(readers := s.readers[i := PopFrame(r)])
        else if r.index < |s.events| then s.(readers := s.readers[i := TakeBatch(r, s.events)])
        else if s.closed then s.(stopped := s.stopped[i := true])
        else s
  }

  function SystemRun(xs: seq<Action>): System {
    if xs == [] then System([], false, [], []) else SystemStep(SystemRun(xs[..|xs| - 1]), xs[|xs| - 1])
  }

  ghost predicate SystemOk(s: System) {
    && Numbered(s.events) && |s.readers| == |s.stopped|
    && (forall i | 0 <= i < |s.readers| :: ReaderOk(s.readers[i], s.events))
    && (forall i | 0 <= i < |s.stopped| && s.stopped[i] ::
          s.closed && s.readers[i].batch == [] && s.readers[i].index == |s.events|)
  }

  lemma SystemStepOk(s: System, x: Action)
    requires SystemOk(s)
    ensures SystemOk(SystemStep(s, x))
  {
    var t := SystemStep(s, x);
    forall i | 0 <= i < |t.readers| ensures ReaderOk(t.readers[i], t.events) {
      if x.DoResume? && x.reader == i && !s.stopped[i] {
        if s.readers[i].batch != [] {
          PopFrameOk(s.readers[i], s.events);
        } else {
          TakeBatchOk(s.readers[i], s.events);
        }
      } else if i < |s.readers| {
        PublishOk(s.readers[i], s.events, t.events);
      }
    }
  }

  lemma {:induction false} SystemRunOk(xs: seq<Action>)
    ensures SystemOk(SystemRun(xs))
  {
    if xs == [] {
    } else {
      SystemRunOk(xs[..|xs| - 1]);
      SystemStepOk(SystemRun(xs[..|xs| - 1]), xs[|xs| - 1]);
    }
  }

  /**
   For every interleaving of publishing, sealing and readers joining and resuming: every reader has
   given out a beginning of the frames after its cursor, in order and once each, and a reader that has
   stopped has given out all of them.
   */
  lemma ReadersLoseAndRepeatNothing(xs: seq<Action>, i: nat)
    requires i < |SystemRun(xs).readers|
    ensures var s := SystemRun(xs);
            var r := s.readers[i];
            && Numbered(s.events) && |s.stopped| == |s.readers|
            && (forall k | 0 <= k < |r.out| :: r.after + k < |s.events| && r.out[k] == s.events[r.after + k])
            && (s.stopped[i] ==> s.closed && |r.out| == if r.after <= |s.events| then |s.events| - r.after else 0)
  {
    SystemRunOk(xs);
    ReaderGivesPrefix(SystemRun(xs).readers[i], SystemRun(xs).events);
  }

  /** How much a reader still has to take and to give out. */
  function Ahead(r: Reader, events: seq<Frame>): nat
    requires r.index <= |events|
  {
    2 * (|events| - r.index) + |r.batch|
  }

  /** A reader that is resumed gets on, unless it has everything; then it stops if the run is sealed. */
  lemma ResumingGetsOn(s: System, i: nat)
    requires SystemOk(s) && i < |s.readers| && !s.stopped[i]
    ensures var t := SystemStep(s, DoResume(i));
      && |t.readers| == |s.readers| && |t.stopped| == |s.stopped| && t.readers[i].index <= |s.events| == |t.events|
      && (Ahead(s.readers[i], s.events) > 0 ==> Ahead(t.readers[i], t.events) < Ahead(s.readers[i], s.events))
      && (Ahead(s.readers[i], s.events) == 0 ==> (t.stopped[i] <==> s.closed))
      && forall j | 0 <= j < |s.readers| && j != i ::
           t.readers[j] == s.readers[j] && t.stopped[j] == s.stopped[j]
  {
    assert ReaderOk(s.readers[i], s.events);
  }

  lemma StepExtendsLog(s: System, x: Action)
    ensures s.events <= SystemStep(s, x).events
    ensures SystemStep(s, x).closed <==> s.closed || x.DoSeal?
    ensures x.DoPublish? && !s.closed ==>
      SystemStep(s, x).events == s.events + [Frame(Render(|s.events| + 1, Ten), x.event, x.data)]
  {
  }

  lemma {:induction false} OpenUntilSealed(xs: seq<Action>)
    ensures SystemRun(xs).closed <==> exists j :: 0 <= j < |xs| && xs[j].DoSeal?
  {
    if xs == [] {
    } else {
      OpenUntilSealed(xs[..|xs| - 1]);
      StepExtendsLog(SystemRun(xs[..|xs| - 1]), xs[|xs| - 1]);
      assert forall j | 0 <= j < |xs| - 1 :: xs[..|xs| - 1][j] == xs[j];
    }
  }

  lemma {:induction false} LogOnlyGrows(xs: seq<Action>, k: nat)
    requires k <= |xs|
    ensures SystemRun(xs[..k]).events <= SystemRun(xs).events
  {
    if k == |xs| {
      assert xs[..k] == xs;
    } else {
      var n := |xs| - 1;
      LogOnlyGrows(xs[..n], k);
      assert xs[..n][..k] == xs[..k];
      StepExtendsLog(SystemRun(xs[..n]), xs[n]);
    }
  }

  /** The log they read: a frame published before the run is sealed carries its event and data from then on. */
  lemma {:induction false} PublishedFramesStay(xs: seq<Action>, k: nat)
    requires k < |xs| && xs[k].DoPublish? && forall j | 0 <= j < k :: !xs[j].DoSeal?
    ensures var events, i := SystemRun(xs).events, |SystemRun(xs[..k]).events|;
            i < |events| && events[i] == Frame(Render(i + 1, Ten), xs[k].event, xs[k].data)
  {
    OpenUntilSealed(xs[..k]);
    assert xs[..k + 1][..k] == xs[..k];
    StepExtendsLog(SystemRun(xs[..k]), xs[k]);
    LogOnlyGrows(xs, k + 1);
  }

  // ---- Resuming by the last event id ----

  /** Header text is Latin-1; there `str.isdigit` also holds for the three superscript digits. */
  predicate IsDigitChar(c: char) {
    '0' <= c <= '9' || c as int in {0xB2, 0xB3, 0xB9}
  }

  predicate IsDigits(s: string) {
    s != "" && forall i | 0 <= i < |s| :: IsDigitChar(s[i])
  }

  datatype Crash = NotANumber

  /** More digits than this are refused when text is read as a number, leading zeros counted. */
  const MAX_INT_DIGITS := 4300

  /** `int(s)` on text that passed `isdigit`. */
  function ToInt(s: string): Result<nat, Crash> {
    if AllDigits(s, Ten) && |s| <= MAX_INT_DIGITS then Ok(Value(s, Ten)) else Err(NotANumber)
  }

  /** `cursor_after`: where to resume, given the client's last event id and the frames at hand. */
  method CursorAfter(header: Option<string>, frames: seq<Frame>) returns (cursor: Result<nat, Crash>)
    requires Numbered(frames)
    ensures cursor == Cursor(header, |frames|)
  {
    if header.None? || !IsDigits(Strip(header.value)) {
      return Ok(0);
    }
    var value := ToInt(Strip(header.value));
    if value.Err? {
      return value;
    }
    if value.value == 0 {
      return Ok(0);
    }
    var known: set<nat> := {};
    var i := 0;
    while i < |frames|
      invariant i <= |frames|
      invariant forall n :: n in known <==> 1 <= n <= i
    {
      NumberOfPublished(frames, i);
      known := known + {Number(frames[i])};
      i := i + 1;
    }
    return if value.value in known then value else Ok(0);
  }

  /** The cursor for a log of `n` frames. */
  function Cursor(header: Option<string>, n: nat): Result<nat, Crash> {
    if header.None? || !IsDigits(Strip(header.value)) then Ok(0)
    else
      match ToInt(Strip(header.value))
      case Ok(k) => if k <= n then Ok(k) else Ok(0)
      case Err(e) => Err(e)
  }

  /** Without digits it reads from the start; a number the log has is where it goes on, any other the start. */
  lemma CursorSays(header: Option<string>, n: nat)
    ensures header.None? ==> Cursor(header, n) == Ok(0)
    ensures header.Some? ==>
      var s := Strip(header.value);
      && (s == "" || (exists i :: 0 <= i < |s| && !('0' <= s[i] <= '9') && s[i] as int !in {0xB2, 0xB3, 0xB9})
          ==> Cursor(header, n) == Ok(0))
      && (s != "" && AllDigits(s, Ten) && |s| <= 4300
          ==> Cursor(header, n) == Ok(if Value(s, Ten) <= n then Value(s, Ten) else 0))
  {
    if header.Some? {
      DigitsOnly(Strip(header.value));
    }
  }

  lemma DigitsOnly(s: string)
    ensures AllDigits(s, Ten) <==> forall i | 0 <= i < |s| :: '0' <= s[i] <= '9'
  {
  }

  /**
   The cursor fails exactly on headers of digits that contain a superscript digit, which `isdigit` takes and
   `int` does not, or that have too many digits.
   */
  lemma CursorFailsOnSuperscriptsOrLength(header: Option<string>, n: nat)
    ensures Cursor(header, n).Err?
            <==> header.Some? && IsDigits(Strip(header.value))
                 && (|Strip(header.value)| > 4300
                     || exists i :: 0 <= i < |Strip(header.value)|
                                    && Strip(header.value)[i] as int in {0xB2, 0xB3, 0xB9})
  {
    if header.Some? && IsDigits(Strip(header.value)) {
      var s := Strip(header.value);
      forall i | 0 <= i < |s|
        ensures 0 <= DigitValue(s[i]) < 10 <==> !(s[i] as int in {0xB2, 0xB3, 0xB9})
      {
        assert IsDigitChar(s[i]);
      }
    }
  }

  /** A header that fails: a superscript two. */
  lemma SuperscriptHeader(n: nat)
    ensures Cursor(Some("\U{B2}"), n).Err?
  {
    StripOfVisible("\U{B2}", "");
    assert "\U{B2}" + "" == "\U{B2}";
    CursorFailsOnSuperscriptsOrLength(Some("\U{B2}"), n);
  }

  /** A header that fails: 4301 ones. */
  lemma OverlongHeader(n: nat)
    ensures Cursor(Some(seq(4301, _ => '1')), n).Err?
  {
    var s := seq(4301, _ => '1');
    StripOfVisible(s, "");
    assert s + "" == s;
    CursorFailsOnSuperscriptsOrLength(Some(s), n);
  }

  lemma DigitsAreNotSpaces(c: char)
    requires 0 <= DigitValue(c) < 10
    ensures IsDigitChar(c) && !IsSpace(c)
  {
  }

  /** An id that was published is read back as its number, as long as it has no more digits than can be read. */
  lemma CursorOfPublishedId(k: nat, n: nat)
    ensures Cursor(Some(Render(k, Ten)), n)
            == if |Render(k, Ten)| > MAX_INT_DIGITS then Err(NotANumber) else Ok(if k <= n then k else 0)
  {
    var s := Render(k, Ten);
    ValueOfRender(k, Ten);
    forall i | 0 <= i < |s| ensures IsDigitChar(s[i]) && !IsSpace(s[i]) {
      DigitsAreNotSpaces(s[i]);
    }
    assert SpacesEnd(s, 0) == 0 && VisibleEnd(s, |s|) == |s|;
    assert Strip(s) == s;
  }

  lemma {:induction false} TwoReadings(
    first: seq<Frame>, second: seq<Frame>, seen: seq<Frame>, log: seq<Frame>, after: nat, last: nat)
    requires after <= last <= |log| && last <= |seen| && (seen <= log || log <= seen)
    requires first == seen[after..last] && second == log[last..]
    ensures first + second == log[after..]
  {
    assert seen[after..last] == log[after..last];
  }

  /**
   Reading a while, losing the connection and rejoining with the id of the last frame received. If the
   log at hand has that frame, the two readings together are the log after the first cursor, nothing
   lost or repeated. If it does not (a copy that lags behind), the second reading is the whole log.
   */
  lemma {:induction false} RejoinLosesNothing(r: Reader, seen: seq<Frame>, q: Reader, log: seq<Frame>, header: string)
    requires ReaderOk(r, seen) && r.out != [] && header == r.out[|r.out| - 1].id
    requires ReaderOk(q, log) && q.batch == [] && q.index == |log|
    requires seen <= log || log <= seen
    requires Cursor(Some(header), |log|) == Ok(q.after)
    ensures if r.after + |r.out| <= |log| then r.out + q.out == After(log, r.after) else q.out == log
  {
    ReaderGivesPrefix(r, seen);
    ReaderGivesPrefix(q, log);
    var last := r.after + |r.out|;
    assert r.out[|r.out| - 1] == seen[last - 1];
    CursorOfPublishedId(last, |log|);
    if last <= |log| {
      TwoReadings(r.out, q.out, seen, log, r.after, last);
    }
  }
}

/**
 A client that loses its connection again and again. Each time it comes back with the id of the last frame it
 received and is served by whichever process answers: the one that runs the turn gives it a live reader, any
 other polls the stored copy, which may lag behind what the client has already seen.
 */
module Reconnect {
  import opened Wrappers
  import opened Numerals
  import opened Text
  import opened RunLog
  import opened Replay
  import opened Polling

  /**
   One connection: the log at hand when the cursor is chosen, and what is read then. A live connection reads up
   to some point of the run's log as it has become; a polling one finds a row at each poll.
   */
  datatype Connection =
    | Live(atHand: seq<Frame>, reader: Reader, events: seq<Frame>)
    | Polled(atHand: seq<Frame>, polls: seq<Seen>)

  /** The last id received, everything received with the run it came from, and what went wrong on the way. */
  datatype Client = Client(last: nat, got: seq<Given>, restarted: bool, leaked: bool)

  function Header(last: nat): Option<string> {
    if last == 0 then None else Some(Render(last, Ten))
  }

  function Start(runId: string, cursor: nat): Poller {
    Poller(runId, cursor, [], false)
  }

  /** What a connection gives out from its cursor on. */
  function Received(runId: string, x: Connection, cursor: nat): seq<Given> {
    match x
    case Live(_, reader, _) => Tag(runId, reader.out)
    case Polled(_, polls) => Follow(Start(runId, cursor), polls).out
  }

  /** What a connection can be: all logs are beginnings of the run's log, as it ends up, or of other runs' logs. */
  ghost predicate Possible(runId: string, x: Connection, cursor: nat, logs: map<string, seq<Frame>>) {
    && runId in logs && x.atHand <= logs[runId]
    && match x
       case Live(_, reader, events) => reader.after == cursor && ReaderOk(reader, events) && events <= logs[runId]
       case Polled(_, polls) => forall i | 0 <= i < |polls| :: SnapshotOf(polls[i], logs)
  }

  /** A poll of this connection finds another run's row with frames beyond all read before. */
  ghost predicate LeaksIn(runId: string, x: Connection, cursor: nat) {
    x.Polled? && exists i :: RowLeaks(x.polls, i, runId, cursor)
  }

  /** The next connection. A header that cannot be read is refused, and the client receives nothing. */
  ghost function Join(runId: string, c: Client, x: Connection): Client {
    match Cursor(Header(c.last), |x.atHand|)
    case Err(_) => c
    case Ok(cursor) =>
      Add(c, Received(runId, x, cursor), cursor, c.leaked || LeaksIn(runId, x, cursor))
  }

  /** The last id stays what it was when nothing is received. */
  function Add(c: Client, out: seq<Given>, cursor: nat, leaked: bool): Client {
    Client(if out == [] then c.last else cursor + |out|, c.got + out,
           c.restarted || (out != [] && cursor != c.last), leaked)
  }

  ghost function JoinAll(runId: string, c: Client, xs: seq<Connection>): Client {
    if xs == [] then c else Join(runId, JoinAll(runId, c, xs[..|xs| - 1]), xs[|xs| - 1])
  }

  /** Every connection of the history is possible where it comes. */
  ghost predicate AllPossible(runId: string, c: Client, xs: seq<Connection>, logs: map<string, seq<Frame>>) {
    xs == []
    || (AllPossible(runId, c, xs[..|xs| - 1], logs)
        && match Cursor(Header(JoinAll(runId, c, xs[..|xs| - 1]).last), |xs[|xs| - 1].atHand|)
           case Ok(cursor) => Possible(runId, xs[|xs| - 1], cursor, logs)
           case Err(_) => true)
  }

  lemma CursorIsLastOrStart(last: nat, n: nat)
    ensures var r := Cursor(Header(last), n);
            r.Ok? ==> r.value == if last <= n then last else 0
  {
    if last > 0 {
      CursorOfPublishedId(last, n);
    }
  }

  /** A connection that does not leak gives out a stretch of the log that starts at its cursor. */
  lemma ReceivedIsStretch(runId: string, x: Connection, cursor: nat, logs: map<string, seq<Frame>>)
    requires Possible(runId, x, cursor, logs) && !LeaksIn(runId, x, cursor)
    ensures FramesOf(Received(runId, x, cursor)) <= After(logs[runId], cursor)
  {
    match x
    case Live(_, reader, events) =>
      assert FramesOf(Tag(runId, reader.out)) == reader.out;
      ReaderGivesPrefix(reader, events);
      AfterOfPrefix(events, logs[runId], cursor);
    case Polled(_, polls) =>
      PollingAgreesWithLiveReading(runId, cursor, polls, logs);
  }

  lemma AfterOfPrefix(part: seq<Frame>, log: seq<Frame>, cursor: nat)
    requires part <= log
    ensures After(part, cursor) <= After(log, cursor)
  {
    if cursor <= |part| {
      assert part[cursor..] == log[cursor..][..|part| - cursor];
    }
  }

  /** Nothing is missing before any frame the client has. */
  ghost predicate NoGaps(got: seq<Frame>, from: nat, log: seq<Frame>) {
    forall i, j | from <= i <= j < |log| && log[j] in got :: log[i] in got
  }

  ghost predicate Covers(got: seq<Frame>, from: nat, last: nat, log: seq<Frame>) {
    last <= |log| && forall i | from <= i < last :: log[i] in got
  }

  /** Nothing is there twice, unless the client was restarted; then something is. */
  ghost predicate ExactUnless(restarted: bool, got: seq<Frame>, from: nat, last: nat, log: seq<Frame>) {
    if restarted then |got| + from > last else from <= last <= |log| && got == log[from..last]
  }

  ghost predicate Complete(c: Client, from: nat, log: seq<Frame>) {
    && NoGaps(FramesOf(c.got), from, log) && Covers(FramesOf(c.got), from, c.last, log)
    && ExactUnless(c.restarted, FramesOf(c.got), from, c.last, log)
  }

  lemma FramesDiffer(log: seq<Frame>, i: nat, j: nat)
    requires Numbered(log) && i < |log| && j < |log| && log[i] == log[j]
    ensures i == j
  {
    RenderInjective(i + 1, j + 1, Ten);
  }

  lemma InStretch(log: seq<Frame>, a: nat, b: nat, i: nat)
    requires a <= b <= |log| && i < |log| && Numbered(log)
    ensures log[i] in log[a..b] <==> a <= i < b
  {
    if log[i] in log[a..b] {
      var k :| 0 <= k < b - a && log[a..b][k] == log[i];
      FramesDiffer(log, a + k, i);
    }
  }

  /** One more stretch of the log, from where the client was or from the start. */
  lemma StretchKeepsNoGaps(got: seq<Frame>, last: nat, from: nat, log: seq<Frame>, cursor: nat, end: nat)
    requires Numbered(log) && NoGaps(got, from, log) && Covers(got, from, last, log)
    requires cursor <= end <= |log| && (cursor == last || cursor == 0)
    ensures NoGaps(got + log[cursor..end], from, log) && Covers(got + log[cursor..end], from, end, log)
  {
    var all := got + log[cursor..end];
    forall i | from <= i < end
      ensures log[i] in all
    {
      InStretch(log, cursor, end, i);
    }
    forall i, j | from <= i <= j < |log| && log[j] in all
      ensures log[i] in all
    {
      InStretch(log, cursor, end, j);
    }
  }

  lemma StretchKeepsExact(
    restarted: bool, got: seq<Frame>, from: nat, last: nat, log: seq<Frame>, cursor: nat, end: nat)
    requires ExactUnless(restarted, got, from, last, log) && cursor < end <= |log|
    requires cursor == last || cursor == 0
    ensures ExactUnless(restarted || cursor != last, got + log[cursor..end], from, end, log)
  {
    if !restarted && cursor == last {
      assert log[from..last] + log[last..end] == log[from..end];
    }
  }

  lemma FramesOfConcat(a: seq<Given>, b: seq<Given>)
    ensures FramesOf(a + b) == FramesOf(a) + FramesOf(b)
  {
  }

  lemma {:induction false} AddingKeepsComplete(c: Client, out: seq<Given>, cursor: nat, from: nat, log: seq<Frame>)
    requires Numbered(log) && Complete(c, from, log) && FramesOf(out) <= After(log, cursor)
    requires cursor == c.last || cursor == 0
    ensures Complete(Add(c, out, cursor, c.leaked), from, log)
  {
    if out == [] {
      assert c.got + out == c.got;
    } else {
      var end := cursor + |out|;
      var got := FramesOf(c.got);
      assert FramesOf(out) == log[cursor..end];
      FramesOfConcat(c.got, out);
      StretchKeepsNoGaps(got, c.last, from, log, cursor, end);
      StretchKeepsExact(c.restarted, got, from, c.last, log, cursor, end);
    }
  }

  lemma JoinKeepsComplete(runId: string, c: Client, x: Connection, from: nat, logs: map<string, seq<Frame>>)
    requires runId in logs && Numbered(logs[runId])
    requires match Cursor(Header(c.last), |x.atHand|)
             case Ok(cursor) => Possible(runId, x, cursor, logs)
             case Err(_) => true
    requires !c.leaked ==> Complete(c, from, logs[runId])
    ensures var d := Join(runId, c, x);
            !d.leaked ==> Complete(d, from, logs[runId])
  {
    var d, log, r := Join(runId, c, x), logs[runId], Cursor(Header(c.last), |x.atHand|);
    if r.Ok? && !d.leaked {
      var cursor, out := r.value, Received(runId, x, r.value);
      CursorIsLastOrStart(c.last, |x.atHand|);
      ReceivedIsStretch(runId, x, cursor, logs);
      AddingKeepsComplete(c, out, cursor, from, log);
    }
  }

  /** Every frame received is the run's own. */
  ghost predicate AllOwnGot(got: seq<Given>, runId: string) {
    forall i | 0 <= i < |got| :: got[i].origin == runId
  }

  lemma {:induction false} ReceivedIsOwnUnlessLeaked(
    runId: string, x: Connection, cursor: nat, logs: map<string, seq<Frame>>)
    requires Possible(runId, x, cursor, logs)
    ensures AllOwnGot(Received(runId, x, cursor), runId) <==> !LeaksIn(runId, x, cursor)
  {
    if x.Polled? {
      PollingAgreesWithLiveReading(runId, cursor, x.polls, logs);
      FollowOwn(Start(runId, cursor), x.polls);
    }
  }

  lemma OwnConcat(a: seq<Given>, b: seq<Given>, runId: string)
    ensures AllOwnGot(a + b, runId) <==> AllOwnGot(a, runId) && AllOwnGot(b, runId)
  {
    var all := a + b;
    assert forall i | 0 <= i < |a| :: all[i] == a[i];
    assert forall i | 0 <= i < |b| :: all[|a| + i] == b[i];
  }

  /** A client that began with frames of the run alone has received such frames alone, exactly if nothing leaked. */
  lemma {:induction false} AllOwnUnlessLeaked(
    runId: string, c: Client, xs: seq<Connection>, logs: map<string, seq<Frame>>)
    requires runId in logs && AllPossible(runId, c, xs, logs)
    requires AllOwnGot(c.got, runId) <==> !c.leaked
    ensures var d := JoinAll(runId, c, xs);
            AllOwnGot(d.got, runId) <==> !d.leaked
  {
    if xs == [] {
    } else {
      var before, x := JoinAll(runId, c, xs[..|xs| - 1]), xs[|xs| - 1];
      AllOwnUnlessLeaked(runId, c, xs[..|xs| - 1], logs);
      var r := Cursor(Header(before.last), |x.atHand|);
      if r.Ok? {
        ReceivedIsOwnUnlessLeaked(runId, x, r.value, logs);
        OwnConcat(before.got, Received(runId, x, r.value), runId);
      }
    }
  }

  /**
   For any number of connections, live and polling, with copies that lag by any amount: every frame the client
   has received is the run's own if and only if no polled row of another run leaked in. If so, the client misses
   no frame before any frame it has received, and it received exactly the frames from where it began, once each
   and in order, if and only if no connection that gave it something had to start over because the log at hand
   lacked the client's last frame.
   */
  lemma {:induction false} ReconnectingLosesNothing(
    runId: string, from: nat, xs: seq<Connection>, logs: map<string, seq<Frame>>)
    requires runId in logs && Numbered(logs[runId]) && from <= |logs[runId]|
    requires AllPossible(runId, Client(from, [], false, false), xs, logs)
    ensures var c, log := JoinAll(runId, Client(from, [], false, false), xs), logs[runId];
            && (AllOwnGot(c.got, runId) <==> !c.leaked)
            && (AllOwnGot(c.got, runId) ==>
                  && (forall i, j | from <= i <= j < |log| && log[j] in FramesOf(c.got) :: log[i] in FramesOf(c.got))
                  && (!c.restarted <==> from <= c.last <= |log| && FramesOf(c.got) == log[from..c.last]))
  {
    AllOwnUnlessLeaked(runId, Client(from, [], false, false), xs, logs);
    ManyJoinsKeepComplete(runId, Client(from, [], false, false), xs, from, logs);
  }

  lemma {:induction false} ManyJoinsKeepComplete(
    runId: string, c: Client, xs: seq<Connection>, from: nat, logs: map<string, seq<Frame>>)
    requires runId in logs && Numbered(logs[runId]) && AllPossible(runId, c, xs, logs)
    requires !c.leaked ==> Complete(c, from, logs[runId])
    ensures var d := JoinAll(runId, c, xs);
            !d.leaked ==> Complete(d, from, logs[runId])
  {
    if xs == [] {
    } else {
      ManyJoinsKeepComplete(runId, c, xs[..|xs| - 1], from, logs);
      JoinKeepsComplete(runId, JoinAll(runId, c, xs[..|xs| - 1]), xs[|xs| - 1], from, logs);
    }
  }

  /**
   Two connections: what is read before the connection is lost, and a polling reader whose first row is `atHand`.
   If that row has the last frame received, both together are a beginning of the log after the first cursor; if
   it lags behind, the polling reader gives out a beginning of the whole log.
   */
  lemma {:induction false} PollingAfterALostConnection(
    runId: string, from: nat, before: seq<Frame>, x: Connection, cursor: nat, logs: map<string, seq<Frame>>)
    requires runId in logs && before != [] && before <= After(logs[runId], from) && x.Polled?
    requires Cursor(Header(from + |before|), |x.atHand|) == Ok(cursor)
    requires Possible(runId, x, cursor, logs) && !LeaksIn(runId, x, cursor)
    ensures var out, log := FramesOf(Received(runId, x, cursor)), logs[runId];
            if from + |before| <= |x.atHand| then before + out <= After(log, from) else out <= log
  {
    CursorIsLastOrStart(from + |before|, |x.atHand|);
    StretchAfter(runId, from, before, x, cursor, logs);
  }

  lemma {:induction false} StretchAfter(
    runId: string, from: nat, before: seq<Frame>, x: Connection, cursor: nat, logs: map<string, seq<Frame>>)
    requires runId in logs && before != [] && before <= After(logs[runId], from)
    requires cursor == if from + |before| <= |x.atHand| then from + |before| else 0
    requires Possible(runId, x, cursor, logs) && !LeaksIn(runId, x, cursor)
    ensures var out, log := FramesOf(Received(runId, x, cursor)), logs[runId];
            if from + |before| <= |x.atHand| then before + out <= After(log, from) else out <= log
  {
    ReceivedIsStretch(runId, x, cursor, logs);
    FromLastOrStart(before, FramesOf(Received(runId, x, cursor)), logs[runId], from, |x.atHand|, cursor);
  }

  lemma {:induction false} FromLastOrStart(
    before: seq<Frame>, out: seq<Frame>, log: seq<Frame>, from: nat, n: nat, cursor: nat)
    requires before != [] && before <= After(log, from) && out <= After(log, cursor)
    requires cursor == if from + |before| <= n then from + |before| else 0
    ensures if from + |before| <= n then before + out <= After(log, from) else out <= log
  {
    if from + |before| <= n {
      PrefixAfterPrefix(before, out, log, from);
    } else {
      assert After(log, 0) == log;
    }
  }

  lemma {:induction false} PrefixAfterPrefix(before: seq<Frame>, out: seq<Frame>, log: seq<Frame>, from: nat)
    requires before != [] && before <= After(log, from) && out <= After(log, from + |before|)
    ensures before + out <= After(log, from)
  {
    var rest := After(log, from);
    assert rest[|before|..] == After(log, from + |before|);
    assert rest == before + rest[|before|..];
  }

  // ---- What a leak costs ----

  function Log(n: nat, data: string): (log: seq<Frame>)
    ensures |log| == n && Numbered(log) && forall i | 0 <= i < n :: log[i] == Frame(Render(i + 1, Ten), "token", data)
  {
    seq(n, i requires 0 <= i < n => Frame(Render(i + 1, Ten), "token", data))
  }

  /** Polling a row of another run that has more frames than the client has received. */
  lemma {:induction false} PollOfOther(runId: string, cursor: nat, other: string, row: seq<Frame>)
    requires cursor < |row| && Numbered(row)
    ensures Follow(Start(runId, cursor), [Found(Stored(other, Running, row), false)]).out == Tag(other, row[cursor..])
  {
    var seen := Found(Stored(other, Running, row), false);
    var r := Start(runId, cursor);
    assert [seen][..0] == [] && Follow(r, []) == r;
    assert Follow(r, [seen]) == Poll(r, seen);
    PollOfNumbered(r, seen);
    assert [] + Tag(other, row[cursor..]) == Tag(other, row[cursor..]);
  }

  lemma {:induction false} OtherRowLeaks(runId: string, cursor: nat, other: string, row: seq<Frame>)
    requires cursor < |row| && other != runId
    ensures RowLeaks([Found(Stored(other, Running, row), false)], 0, runId, cursor)
  {
    var polls := [Found(Stored(other, Running, row), false)];
    assert Longest(polls, 0, cursor) == cursor;
  }

  lemma {:induction false} JoinThatLeaks(runId: string, c: Client, atHand: seq<Frame>, other: string, row: seq<Frame>)
    requires Cursor(Header(c.last), |atHand|) == Ok(c.last) && c.last < |row| && Numbered(row) && other != runId
    ensures var x := Polled(atHand, [Found(Stored(other, Running, row), false)]);
            Join(runId, c, x) == Client(|row|, c.got + Tag(other, row[c.last..]), c.restarted, true)
  {
    PollOfOther(runId, c.last, other, row);
    OtherRowLeaks(runId, c.last, other, row);
    JoinGives(runId, c, Polled(atHand, [Found(Stored(other, Running, row), false)]), c.last);
  }

  lemma {:induction false} JoinGives(runId: string, c: Client, x: Connection, cursor: nat)
    requires Cursor(Header(c.last), |x.atHand|) == Ok(cursor)
    ensures Join(runId, c, x) == Add(c, Received(runId, x, cursor), cursor, c.leaked || LeaksIn(runId, x, cursor))
  {
  }

  lemma {:induction false} JoinAllOfTwo(runId: string, c: Client, x: Connection, y: Connection)
    ensures JoinAll(runId, c, [x, y]) == Join(runId, Join(runId, c, x), y)
  {
    assert [x, y][..1] == [x] && [x][..0] == [];
    assert JoinAll(runId, c, []) == c;
    assert JoinAll(runId, c, [x]) == Join(runId, c, x);
  }

  lemma {:induction false} HeaderOfSmallId(k: nat, n: nat)
    requires 0 < k < 10 && k <= n
    ensures Cursor(Header(k), n) == Ok(k)
  {
    CursorOfPublishedId(k, n);
    assert |Render(k, Ten)| == 1;
  }

  /**
   A client of run "a" with its first frame polls a row of run "b" with three frames, and comes back live with
   the id of the last: it is given the fourth frame of "a", and has neither the second nor the third.
   */
  lemma {:induction false} LeakLosesFrames()
    ensures var a, b := Log(4, "of a"), Log(3, "of b");
            var polled := Polled(a[..1], [Found(Stored("b", Running, b), false)]);
            var live := Live(a, Reader(3, 4, [], [a[3]]), a);
            var c := JoinAll("a", Client(1, Tag("a", a[..1]), false, false), [polled, live]);
            && c.leaked && c.got == Tag("a", a[..1]) + Tag("b", b[1..]) + Tag("a", [a[3]])
            && a[1] !in FramesOf(c.got) && a[2] !in FramesOf(c.got)
  {
    var a, b := Log(4, "of a"), Log(3, "of b");
    var polled := Polled(a[..1], [Found(Stored("b", Running, b), false)]);
    var live := Live(a, Reader(3, 4, [], [a[3]]), a);
    var start := Client(1, Tag("a", a[..1]), false, false);
    HeaderOfSmallId(1, 1);
    JoinThatLeaks("a", start, a[..1], "b", b);
    HeaderOfSmallId(3, 4);
    JoinAllOfTwo("a", start, polled, live);
    var got := Tag("a", a[..1]) + Tag("b", b[1..]) + Tag("a", [a[3]]);
    NoneOf(a, b, got);
  }

  lemma {:induction false} NoneOf(a: seq<Frame>, b: seq<Frame>, got: seq<Given>)
    requires a == Log(4, "of a") && b == Log(3, "of b")
    requires got == Tag("a", a[..1]) + Tag("b", b[1..]) + Tag("a", [a[3]])
    ensures a[1] !in FramesOf(got) && a[2] !in FramesOf(got)
  {
    var frames := FramesOf(got);
    assert frames == [a[0], b[1], b[2], a[3]];
    assert b[1].data != a[1].data by {
      assert "of a"[3] == 'a' && "of b"[3] == 'b';
    }
    forall i, j | 0 <= i < j < 4
      ensures a[i] != a[j]
    {
      RenderInjectiveContra(i + 1, j + 1);
    }
  }

  lemma RenderInjectiveContra(m: nat, n: nat)
    requires m != n
    ensures Render(m, Ten) != Render(n, Ten)
  {
    if Render(m, Ten) == Render(n, Ten) {
      RenderInjective(m, n, Ten);
    }
  }
}

/**
 How many requests of one key the limiter allows: in a window exactly the limit, and in any interval
 as long as a window less than twice the limit, whatever other keys do meanwhile.
 */
module RateBound {
  import opened Wrappers
  import opened Numerals
  import opened RateLimit

  /** The limit as it works out: the request that opens a window always passes. */
  function Effective(limit: int): nat {
    if limit >= 1 then limit else 1
  }

  function AfterAll(t: Table, rs: seq<Request>): Table
    decreases |rs|
  {
    if rs == [] then t else AfterAll(Hit(t, rs[0]), rs[1..])
  }

  /** How many of the requests for `k` are allowed. */
  function Allowed(t: Table, rs: seq<Request>, k: string): nat
    decreases |rs|
  {
    if rs == [] then 0
    else (if rs[0].key == k && Answer(t, rs[0]).0 then 1 else 0) + Allowed(Hit(t, rs[0]), rs[1..], k)
  }

  function Requests(rs: seq<Request>, k: string): nat {
    if rs == [] then 0 else (if rs[0].key == k then 1 else 0) + Requests(rs[1..], k)
  }

  /** No live window of `k` is evicted while the requests come in. */
  predicate Kept(t: Table, rs: seq<Request>, k: string)
    decreases |rs|
  {
    rs == [] || (!Evicts(t, k, rs[0].now) && Kept(Hit(t, rs[0]), rs[1..], k))
  }

  /** The clock does not run backwards, and the key has one limit and one window length. */
  predicate Orderly(now: real, rs: seq<Request>, k: string, limit: int, seconds: int)
    decreases |rs|
  {
    rs == []
    || (now <= rs[0].now && (rs[0].key == k ==> rs[0].limit == limit && rs[0].seconds == seconds)
        && Orderly(rs[0].now, rs[1..], k, limit, seconds))
  }

  predicate Before(rs: seq<Request>, end: real) {
    forall i | 0 <= i < |rs| :: rs[i].now < end
  }

  /** How many more requests a window that has counted `count` lets pass. */
  function Room(limit: int, count: nat): nat {
    if count >= Effective(limit) then 0 else Effective(limit) - count
  }

  function Min(a: nat, b: nat): nat {
    if a < b then a else b
  }

  // ---- One request, seen from one key ----

  lemma CountOther(s: Table, r: Request, k: string, later: real)
    requires Inv(s) && r.key != k
    ensures Live(Count(s, r), k, later) == Live(s, k, later)
  {
    var i := IndexOf(s, k);
    IndexIs(Count(s, r), k, if i == |s| then |Count(s, r)| else i);
  }

  lemma CountSame(s: Table, r: Request, later: real)
    requires Inv(s)
    ensures var w := match Live(s, r.key, r.now)
              case None => Window(r.key, 1, r.now + r.seconds as real)
              case Some(w) => w.(count := w.count + 1);
            Live(Count(s, r), r.key, later) == if w.resetAt > later then Some(w) else None
  {
    IndexIs(Count(s, r), r.key, IndexOf(s, r.key));
  }

  /** Sweeping matters to a key only by eviction. */
  lemma SweptLive(t: Table, k: string, now: real, later: real)
    requires Inv(t) && !Evicts(t, k, now) && now <= later
    ensures Live(Sweep(t, now), k, later) == Live(t, k, later)
  {
    SweepKeepsLive(t, k, now);
    if Live(t, k, now).None? {
      var s := Sweep(t, now);
      assert Live(s, k, now).None?;
      assert IndexOf(s, k) < |s| ==> s[IndexOf(s, k)].resetAt <= now;
    }
  }

  lemma HitOther(t: Table, r: Request, k: string, later: real)
    requires Inv(t) && r.key != k && !Evicts(t, k, r.now) && r.now <= later
    ensures Live(Hit(t, r), k, later) == Live(t, k, later)
  {
    SweepKeepsInv(t, r.now);
    CountOther(Sweep(t, r.now), r, k, later);
    SweptLive(t, k, r.now, later);
  }

  lemma HitSame(t: Table, r: Request, later: real)
    requires Inv(t) && !Evicts(t, r.key, r.now) && r.now <= later
    ensures var w := match Live(t, r.key, r.now)
              case None => Window(r.key, 1, r.now + r.seconds as real)
              case Some(w) => w.(count := w.count + 1);
            && Live(Hit(t, r), r.key, later) == (if w.resetAt > later then Some(w) else None)
            && (Answer(t, r).0 <==> w.count <= 1 || w.count <= r.limit || Live(t, r.key, r.now).None?)
  {
    SweepKeepsInv(t, r.now);
    CountSame(Sweep(t, r.now), r, later);
    SweepKeepsLive(t, r.key, r.now);
    var s, i := Sweep(t, r.now), IndexOf(Sweep(t, r.now), r.key);
    assert Live(s, r.key, r.now).Some? ==> s[i].count >= 1;
  }

  lemma HitInWindow(t: Table, r: Request, w: Window)
    requires Inv(t) && !Evicts(t, r.key, r.now)
    requires Live(t, r.key, r.now) == Some(w) && w.count >= 1
    ensures Live(Hit(t, r), r.key, r.now) == Some(w.(count := w.count + 1))
    ensures Answer(t, r).0 <==> w.count + 1 <= r.limit
  {
    HitSame(t, r, r.now);
  }

  // ---- Many requests ----

  lemma RoomShrinks(limit: int, count: nat)
    requires count >= 1
    ensures if count + 1 <= limit then Room(limit, count) == 1 + Room(limit, count + 1)
            else Room(limit, count) == 0 == Room(limit, count + 1)
  {
  }

  /** While one window lasts, exactly as many requests pass as it has room for. */
  lemma {:induction false} OneWindow(
    t: Table, rs: seq<Request>, k: string, limit: int, seconds: int, now: real, w: Window)
    requires Inv(t) && Orderly(now, rs, k, limit, seconds) && Kept(t, rs, k)
    requires Live(t, k, now) == Some(w) && w.count >= 1 && Before(rs, w.resetAt)
    ensures Allowed(t, rs, k) == Min(Requests(rs, k), Room(limit, w.count))
    decreases |rs|
  {
    if rs == [] {
    } else {
      var r, rest := rs[0], rs[1..];
      var u := Hit(t, r);
      HitKeepsCap(t, r);
      if r.key == k {
        HitInWindow(t, r, w);
        RoomShrinks(limit, w.count);
        OneWindow(u, rest, k, limit, seconds, r.now, w.(count := w.count + 1));
      } else {
        HitOther(t, r, k, r.now);
        OneWindow(u, rest, k, limit, seconds, r.now, w);
      }
    }
  }

  /** From a moment without a live window, at most one window's worth passes in one window's time. */
  lemma {:induction false} FirstWindow(t: Table, rs: seq<Request>, k: string, limit: int, seconds: int, now: real)
    requires Inv(t) && Orderly(now, rs, k, limit, seconds) && Kept(t, rs, k)
    requires Live(t, k, now).None? && Before(rs, now + seconds as real)
    ensures Allowed(t, rs, k) == Min(Requests(rs, k), Effective(limit))
    decreases |rs|
  {
    if rs == [] {
    } else {
      var r := rs[0];
      HitKeepsCap(t, r);
      StillNone(t, k, now, r.now);
      if r.key == k {
        HitSame(t, r, r.now);
        OneWindow(Hit(t, r), rs[1..], k, limit, seconds, r.now, Window(k, 1, r.now + seconds as real));
      } else {
        HitOther(t, r, k, r.now);
        FirstWindow(Hit(t, r), rs[1..], k, limit, seconds, r.now);
      }
    }
  }

  lemma StillNone(t: Table, k: string, now: real, later: real)
    requires Live(t, k, now).None? && now <= later
    ensures Live(t, k, later).None?
  {
  }

  // ---- With evictions ----

  /** One more allowance for each request whose sweep evicts the key's live window. */
  function Extra(t: Table, rs: seq<Request>, k: string, limit: int): nat
    decreases |rs|
  {
    if rs == [] then 0
    else (if Evicts(t, k, rs[0].now) then Effective(limit) else 0) + Extra(Hit(t, rs[0]), rs[1..], k, limit)
  }

  lemma {:induction false} KeptHasNoExtra(t: Table, rs: seq<Request>, k: string, limit: int)
    ensures Kept(t, rs, k) ==> Extra(t, rs, k, limit) == 0
    decreases |rs|
  {
    if rs == [] {
    } else {
      KeptHasNoExtra(Hit(t, rs[0]), rs[1..], k, limit);
    }
  }

  /** A request that finds no live window of the key after its sweep. */
  lemma {:induction false} HitWithoutWindow(t: Table, r: Request, k: string)
    requires Inv(t) && Live(Sweep(t, r.now), k, r.now).None?
    ensures if r.key == k && r.seconds > 0
            then Answer(t, r).0 && Live(Hit(t, r), k, r.now) == Some(Window(k, 1, r.now + r.seconds as real))
            else r.key != k ==> Live(Hit(t, r), k, r.now).None?
  {
    SweepKeepsInv(t, r.now);
    if r.key == k {
      CountSame(Sweep(t, r.now), r, r.now);
    } else {
      CountOther(Sweep(t, r.now), r, k, r.now);
    }
  }

  /** What can come in time before `end`, which is no further away than a window's length. */
  ghost predicate InTime(now: real, rs: seq<Request>, k: string, limit: int, seconds: int, end: real) {
    Orderly(now, rs, k, limit, seconds) && Before(rs, end) && end <= now + seconds as real
  }

  lemma {:induction false} InTimeNext(
    now: real, rs: seq<Request>, k: string, limit: int, seconds: int, end: real)
    requires InTime(now, rs, k, limit, seconds, end) && rs != []
    ensures now <= rs[0].now < end && seconds > 0 && InTime(rs[0].now, rs[1..], k, limit, seconds, end)
    ensures InTime(rs[0].now, rs, k, limit, seconds, end)
    ensures rs[0].key == k ==> rs[0].limit == limit && rs[0].seconds == seconds
  {
  }

  /** Without a live window, one allowance, and one more for each eviction. */
  lemma {:induction false} AllowedWithoutWindow(
    t: Table, rs: seq<Request>, k: string, limit: int, seconds: int, now: real, end: real)
    requires Inv(t) && InTime(now, rs, k, limit, seconds, end) && Live(t, k, now).None?
    ensures Allowed(t, rs, k) <= Effective(limit) + Extra(t, rs, k, limit)
    decreases |rs|, 1
  {
    if rs == [] {
    } else {
      InTimeNext(now, rs, k, limit, seconds, end);
      StillNone(t, k, now, rs[0].now);
      SweepKeepsLive(t, k, rs[0].now);
      AllowedAfterEmptySweep(t, rs, k, limit, seconds, end);
    }
  }

  /** The same, seen from a request whose sweep leaves no live window. */
  lemma {:induction false} AllowedAfterEmptySweep(
    t: Table, rs: seq<Request>, k: string, limit: int, seconds: int, end: real)
    requires Inv(t) && rs != [] && InTime(rs[0].now, rs, k, limit, seconds, end)
    requires Live(Sweep(t, rs[0].now), k, rs[0].now).None?
    ensures Allowed(t, rs, k) <= Effective(limit) + Extra(Hit(t, rs[0]), rs[1..], k, limit)
    decreases |rs|, 0
  {
    var r, rest, u := rs[0], rs[1..], Hit(t, rs[0]);
    InTimeNext(r.now, rs, k, limit, seconds, end);
    HitKeepsCap(t, r);
    HitWithoutWindow(t, r, k);
    if r.key == k {
      AllowedInWindow(u, rest, k, limit, seconds, r.now, end, Window(k, 1, r.now + seconds as real));
    } else {
      AllowedWithoutWindow(u, rest, k, limit, seconds, r.now, end);
    }
  }

  /** In a window that lasts to the end, what it has room for, and one allowance for each eviction. */
  lemma {:induction false} AllowedInWindow(
    t: Table, rs: seq<Request>, k: string, limit: int, seconds: int, now: real, end: real, w: Window)
    requires Inv(t) && InTime(now, rs, k, limit, seconds, end)
    requires Live(t, k, now) == Some(w) && w.count >= 1 && end <= w.resetAt
    ensures Allowed(t, rs, k) <= Room(limit, w.count) + Extra(t, rs, k, limit)
    decreases |rs|, 1
  {
    if rs == [] {
    } else {
      var r, rest, u := rs[0], rs[1..], Hit(t, rs[0]);
      InTimeNext(now, rs, k, limit, seconds, end);
      HitKeepsCap(t, r);
      if Evicts(t, k, r.now) {
        AllowedAfterEmptySweep(t, rs, k, limit, seconds, end);
      } else if r.key == k {
        HitInWindow(t, r, w);
        RoomShrinks(limit, w.count);
        AllowedInWindow(u, rest, k, limit, seconds, r.now, end, w.(count := w.count + 1));
      } else {
        HitOther(t, r, k, r.now);
        AllowedInWindow(u, rest, k, limit, seconds, r.now, end, w);
      }
    }
  }

  /** From inside a window that may end meanwhile, what it has room for and one allowance on top of these. */
  lemma {:induction false} AllowedAcrossWindows(
    t: Table, rs: seq<Request>, k: string, limit: int, seconds: int, now: real, end: real, w: Window)
    requires Inv(t) && InTime(now, rs, k, limit, seconds, end)
    requires Live(t, k, now) == Some(w) && w.count >= 1
    ensures Allowed(t, rs, k) <= Effective(limit) + Room(limit, w.count) + Extra(t, rs, k, limit)
    decreases |rs|, 1
  {
    if rs == [] {
    } else {
      var r, rest, u := rs[0], rs[1..], Hit(t, rs[0]);
      InTimeNext(now, rs, k, limit, seconds, end);
      HitKeepsCap(t, r);
      if r.now >= w.resetAt {
        assert Live(t, k, r.now).None?;
        AllowedWithoutWindow(t, rs, k, limit, seconds, r.now, end);
      } else if Evicts(t, k, r.now) {
        AllowedAfterEmptySweep(t, rs, k, limit, seconds, end);
      } else if r.key == k {
        HitInWindow(t, r, w);
        RoomShrinks(limit, w.count);
        AllowedAcrossWindows(u, rest, k, limit, seconds, r.now, end, w.(count := w.count + 1));
      } else {
        HitOther(t, r, k, r.now);
        AllowedAcrossWindows(u, rest, k, limit, seconds, r.now, end, w);
      }
    }
  }

  /**
   In any stretch of time as long as a window, from any table and whatever happens to it: fewer than twice the
   limit of a key's requests are allowed, and one limit more for each time its live window is evicted.
   */
  lemma {:induction false} OneMoreLimitPerEviction(
    t: Table, rs: seq<Request>, k: string, limit: int, seconds: int, start: real)
    requires Inv(t) && Orderly(start, rs, k, limit, seconds) && Before(rs, start + seconds as real)
    ensures Allowed(t, rs, k) <= 2 * Effective(limit) - 1 + Extra(t, rs, k, limit)
  {
    match Live(t, k, start)
    case None => AllowedWithoutWindow(t, rs, k, limit, seconds, start, start + seconds as real);
    case Some(w) =>
      assert w == t[IndexOf(t, k)];
      AllowedAcrossWindows(t, rs, k, limit, seconds, start, start + seconds as real, w);
  }

  /**
   In any stretch of time as long as a window, from any state of the table and whatever other keys
   do, fewer than twice the limit of a key's requests are allowed, provided the key's live window is
   not evicted meanwhile.
   */
  lemma {:induction false} LessThanTwiceTheLimit(
    t: Table, rs: seq<Request>, k: string, limit: int, seconds: int, start: real)
    requires Inv(t) && Orderly(start, rs, k, limit, seconds) && Kept(t, rs, k)
    requires Before(rs, start + seconds as real)
    ensures Allowed(t, rs, k) <= 2 * Effective(limit) - 1
  {
    OneMoreLimitPerEviction(t, rs, k, limit, seconds, start);
    KeptHasNoExtra(t, rs, k, limit);
  }

  /** The key of the first window is opened again, one more key fills the table, and the key comes back. */
  lemma {:induction false} EvictedKeyIsAllowedAgain(t: Table, r: Request, other: Request)
    requires Inv(t) && |t| == WINDOW_CAP - 1 && t[0].key == r.key && t[0].resetAt <= r.now && r.seconds > 0
    requires forall i | 0 < i < |t| :: r.now < t[i].resetAt <= r.now + r.seconds as real
    requires !HasKey(t, other.key) && other.now == r.now && 0 < other.seconds <= r.seconds
    ensures Allowed(t, [r, other, r], r.key) == 2
    ensures r.limit <= 1 ==> Allowed(t, [r, other, r], r.key) > 2 * Effective(r.limit) - 1
  {
    var u, v := Hit(t, r), Hit(Hit(t, r), other);
    NewestWindowCanBeEvicted(t, r, other);
    HitKeepsCap(t, r);
    HitKeepsCap(u, other);
    OpensAtFirst(t, r);
    assert t[0].key == r.key && other.key != r.key;
    assert Live(Sweep(v, r.now), r.key, r.now).None?;
    HitWithoutWindow(v, r, r.key);
    AllowedOfThree(t, r, other, r, r.key);
  }

  lemma {:induction false} OpensAtFirst(t: Table, r: Request)
    requires Inv(t) && |t| < WINDOW_CAP && t != [] && t[0].key == r.key && t[0].resetAt <= r.now
    ensures Answer(t, r).0
  {
    assert Sweep(t, r.now) == t && IndexOf(t, r.key) == 0;
  }

  lemma {:induction false} AllowedOfThree(t: Table, a: Request, b: Request, c: Request, k: string)
    ensures Allowed(t, [a, b, c], k)
      == (if a.key == k && Answer(t, a).0 then 1 else 0)
         + (if b.key == k && Answer(Hit(t, a), b).0 then 1 else 0)
         + (if c.key == k && Answer(Hit(Hit(t, a), b), c).0 then 1 else 0)
  {
    assert [a, b, c][1..] == [b, c] && [b, c][1..] == [c] && [c][1..] == [];
    var v := Hit(Hit(t, a), b);
    assert Allowed(Hit(v, c), [], k) == 0;
    assert Allowed(v, [c], k) == if c.key == k && Answer(v, c).0 then 1 else 0;
    assert Allowed(Hit(t, a), [b, c], k)
      == (if b.key == k && Answer(Hit(t, a), b).0 then 1 else 0) + Allowed(v, [c], k);
  }

  function Crowd(): (t: Table)
    ensures |t| == WINDOW_CAP - 1
    ensures forall i | 0 <= i < |t| :: t[i] == Window(Render(i, Ten), 1, if i == 0 then 0.0 else 2.0)
  {
    seq(WINDOW_CAP - 1, i requires 0 <= i < WINDOW_CAP - 1 => Window(Render(i, Ten), 1, if i == 0 then 0.0 else 2.0))
  }

  lemma {:induction false} CrowdHasDistinctKeys()
    ensures Inv(Crowd())
  {
    var t := Crowd();
    forall i, j | 0 <= i < j < |t|
      ensures t[i].key != t[j].key
    {
      if Render(i, Ten) == Render(j, Ten) {
        RenderInjective(i, j, Ten);
      }
    }
  }

  lemma {:induction false} CrowdHasOnlyNumbers()
    ensures !HasKey(Crowd(), "x")
  {
    var t := Crowd();
    forall i | 0 <= i < |t|
      ensures t[i].key != "x"
    {
      ValueOfRender(i, Ten);
      assert t[i].key == "x" ==> !AllDigits("x", Ten) by {
        assert "x"[0] == 'x' && DigitValue('x') == 33;
      }
    }
  }

  /** A table and a history that break the bound: limit one, and two requests allowed at one moment. */
  lemma {:induction false} EvictionBreaksTheBound()
    ensures var r, other := Request(1.0, "0", 1, 2), Request(1.0, "x", 1, 2);
            Inv(Crowd()) && Allowed(Crowd(), [r, other, r], "0") == 2 && 2 * Effective(1) - 1 == 1
  {
    CrowdHasDistinctKeys();
    CrowdHasOnlyNumbers();
    assert Render(0, Ten) == "0";
    EvictedKeyIsAllowedAgain(Crowd(), Request(1.0, "0", 1, 2), Request(1.0, "x", 1, 2));
  }

  // ---- The bound is reached ----

  function Repeat(r: Request, n: nat): (rs: seq<Request>)
    ensures |rs| == n && forall i | 0 <= i < n :: rs[i] == r
  {
    seq(n, _ => r)
  }

  lemma {:induction false} AllowedConcat(t: Table, xs: seq<Request>, ys: seq<Request>, k: string)
    ensures Allowed(t, xs + ys, k) == Allowed(t, xs, k) + Allowed(AfterAll(t, xs), ys, k)
    decreases |xs|
  {
    if xs == [] {
      assert xs + ys == ys;
    } else {
      assert (xs + ys)[0] == xs[0] && (xs + ys)[1..] == xs[1..] + ys;
      AllowedConcat(Hit(t, xs[0]), xs[1..], ys, k);
    }
  }

  /** Hitting a one-entry table with the entry's own key. */
  lemma {:induction false} RepeatedHits(w: Window, r: Request, n: nat)
    requires w.key == r.key && r.now < w.resetAt && w.count >= 1
    ensures AfterAll([w], Repeat(r, n)) == [w.(count := w.count + n)]
    ensures Allowed([w], Repeat(r, n), r.key)
            == if w.count >= r.limit then 0 else Min(n, r.limit - w.count)
    decreases n
  {
    if n == 0 {
    } else {
      assert Repeat(r, n)[1..] == Repeat(r, n - 1);
      assert IndexOf([w], r.key) == 0;
      assert Hit([w], r) == [w.(count := w.count + 1)];
      RepeatedHits(w.(count := w.count + 1), r, n - 1);
    }
  }

  /**
   Twice the limit less one is reached for every limit: one request opens a two-second window at 0;
   the rest of its allowance at 1 and a full allowance at 2 all pass, within the two seconds from 1.
   */
  lemma BoundIsReached(k: string, limit: nat)
    requires limit >= 1
    ensures var first := Request(0.0, k, limit, 2);
            var rs := Repeat(Request(1.0, k, limit, 2), limit - 1) + Repeat(Request(2.0, k, limit, 2), limit);
            Allowed(AfterAll([], [first]), rs, k) == 2 * limit - 1
  {
    var first, second, third := Request(0.0, k, limit, 2), Request(1.0, k, limit, 2), Request(2.0, k, limit, 2);
    var w := Window(k, 1, 2.0);
    assert Hit([], first) == [w];
    assert AfterAll([], [first]) == [w] by {
      assert [first][1..] == [];
    }
    RepeatedHits(w, second, limit - 1);
    AllowedConcat([w], Repeat(second, limit - 1), Repeat(third, limit), k);
    var full := [w.(count := limit)];
    assert AfterAll([w], Repeat(second, limit - 1)) == full;
    assert IndexOf(full, k) == 0;
    assert Hit(full, third) == [Window(k, 1, 4.0)];
    assert Repeat(third, limit)[1..] == Repeat(third, limit - 1);
    RepeatedHits(Window(k, 1, 4.0), third, limit - 1);
  }

  // ---- Coming back after the waiting time ----

  /** A window outlives any requests for other keys that come in before it ends. */
  lemma {:induction false} OthersLeaveTheWindow(
    t: Table, rs: seq<Request>, k: string, limit: int, seconds: int, now: real, end: real)
    requires Inv(t) && Orderly(now, rs, k, limit, seconds) && Kept(t, rs, k) && Requests(rs, k) == 0
    requires now <= end && forall i | 0 <= i < |rs| :: rs[i].now <= end
    ensures Inv(AfterAll(t, rs)) && Live(AfterAll(t, rs), k, end) == Live(t, k, end)
    decreases |rs|
  {
    if rs == [] {
    } else {
      HitKeepsCap(t, rs[0]);
      HitOther(t, rs[0], k, end);
      OthersLeaveTheWindow(Hit(t, rs[0]), rs[1..], k, limit, seconds, rs[0].now, end);
    }
  }

  /** What a refused request finds, and is told. */
  lemma RefusedRequest(t: Table, r: Request) returns (w: Window)
    requires Inv(t) && !Answer(t, r).0
    ensures Live(t, r.key, r.now) == Some(w) && !Evicts(t, r.key, r.now) && w.count >= 1 && w.count + 1 > r.limit
    ensures Live(Sweep(t, r.now), r.key, r.now) == Some(w)
    ensures var left := w.resetAt - r.now;
            Answer(t, r).1 == if left.Floor > 1 then left.Floor else 1
  {
    SweepKeepsInv(t, r.now);
    var s := Sweep(t, r.now);
    w := s[IndexOf(s, r.key)];
    SweepOnlyKeeps(t, r.key, r.now);
  }

  /** A window found live after a sweep was there before it. */
  lemma SweepOnlyKeeps(t: Table, k: string, now: real)
    requires Inv(t) && Live(Sweep(t, now), k, now).Some?
    ensures Live(t, k, now) == Live(Sweep(t, now), k, now)
  {
    if |t| >= WINDOW_CAP {
      var kept := Unexpired(t, now);
      UnexpiredKeepsLive(t, k, now);
      UnexpiredIsPart(t, now);
      SuffixLive(kept, Excess(kept), k, now);
    }
  }

  /**
   A client that is refused and comes back exactly after the time it was told is refused again, whatever other
   keys did meanwhile, if and only if what was left of the window was more than a second and not a whole number
   of seconds.
   */
  lemma {:induction false} WaitingAsToldCanFail(t: Table, r: Request, rs: seq<Request>)
    requires Inv(t) && !Answer(t, r).0
    requires var again := r.now + Answer(t, r).1 as real;
             && Requests(rs, r.key) == 0 && Orderly(r.now, rs, r.key, r.limit, r.seconds)
             && (forall i | 0 <= i < |rs| :: rs[i].now <= again)
             && Kept(Hit(t, r), rs + [r.(now := again)], r.key)
    ensures var w := Live(Sweep(t, r.now), r.key, r.now);
            var u, again := AfterAll(Hit(t, r), rs), r.(now := r.now + Answer(t, r).1 as real);
            && w.Some?
            && var left := w.value.resetAt - r.now;
            !Answer(u, again).0 <==> left > 1.0 && left != left.Floor as real
  {
    var w := RefusedRequest(t, r);
    var again := r.(now := r.now + Answer(t, r).1 as real);
    var u := Hit(t, r);
    HitKeepsCap(t, r);
    HitSame(t, r, again.now);
    KeptApart(u, rs, [again], r.key);
    OthersLeaveTheWindow(u, rs, r.key, r.limit, r.seconds, r.now, again.now);
    var v := AfterAll(u, rs);
    HitSame(v, again, again.now);
  }

  lemma {:induction false} KeptApart(t: Table, xs: seq<Request>, ys: seq<Request>, k: string)
    requires Kept(t, xs + ys, k)
    ensures Kept(t, xs, k) && Kept(AfterAll(t, xs), ys, k)
    decreases |xs|
  {
    if xs == [] {
      assert xs + ys == ys;
    } else {
      assert (xs + ys)[0] == xs[0] && (xs + ys)[1..] == xs[1..] + ys;
      KeptApart(Hit(t, xs[0]), xs[1..], ys, k);
    }
  }

  /** Such a client: limit one in two seconds; refused at a half, told to wait one second, refused again. */
  lemma RefusedAfterWaiting(k: string)
    ensures var first, second := Request(0.0, k, 1, 2), Request(0.5, k, 1, 2);
            var t := Hit([], first);
            && Answer([], first).0
            && Answer(t, second) == (false, 1)
            && !Answer(Hit(t, second), Request(1.5, k, 1, 2)).0
  {
    var first, second := Request(0.0, k, 1, 2), Request(0.5, k, 1, 2);
    var w := Window(k, 1, 2.0);
    assert Hit([], first) == [w];
    assert IndexOf([w], k) == 0;
    assert Hit([w], second) == [w.(count := 2)];
    assert IndexOf([w.(count := 2)], k) == 0;
    assert (1.5 as real).Floor == 1;
    var again := Request(1.5, k, 1, 2);
    assert Live([w.(count := 2)], k, 1.5) == Some(w.(count := 2));
    assert Answer([w.(count := 2)], again) == Reply([w.(count := 2)], again);
  }
}

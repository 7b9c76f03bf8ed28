/**
 The in-memory rate limiter: one fixed window per key, in a table that is swept and, when full of live
 windows, loses the entry whose key came first. The table is a dictionary; it is kept here as its items in insertion
 order.
 */
module RateLimit {
  import opened Wrappers

  const WINDOW_CAP := 10_000

  datatype Window = Window(key: string, count: nat, resetAt: real)

  type Table = seq<Window>

  /** One request: the clock, the key, and the limit that applies to it. */
  datatype Request = Request(now: real, key: string, limit: int, seconds: int)

  predicate HasKey(t: Table, k: string) {
    exists i :: 0 <= i < |t| && t[i].key == k
  }

  ghost predicate Inv(t: Table) {
    && (forall i, j | 0 <= i < j < |t| :: t[i].key != t[j].key)
    && (forall i | 0 <= i < |t| :: t[i].count >= 1)
  }

  /** The position of a key, or the length of the table. */
  function IndexOf(t: Table, k: string): (i: nat)
    ensures i <= |t| && (i < |t| ==> t[i].key == k)
    ensures forall j | 0 <= j < i :: t[j].key != k
  {
    if t == [] || t[0].key == k then 0 else 1 + IndexOf(t[1..], k)
  }

  function Unexpired(t: Table, now: real): Table {
    if t == [] then []
    else
      var rest := Unexpired(t[..|t| - 1], now);
      if t[|t| - 1].resetAt <= now then rest else rest + [t[|t| - 1]]
  }

  /** How many of the first windows have to go to make room for one more. */
  function Excess(t: Table): (n: nat)
    ensures n <= |t|
  {
    if |t| >= WINDOW_CAP then |t| - WINDOW_CAP + 1 else 0
  }

  function Sweep(t: Table, now: real): Table {
    if |t| < WINDOW_CAP then t
    else
      var kept := Unexpired(t, now);
      kept[Excess(kept)..]
  }

  /** A request on a swept table: it opens a window unless the key has a live one. */
  function Count(t: Table, r: Request): Table {
    var i := IndexOf(t, r.key);
    var started := Window(r.key, 1, r.now + r.seconds as real);
    if i == |t| then t + [started]
    else if t[i].resetAt <= r.now then t[i := started]
    else t[i := t[i].(count := t[i].count + 1)]
  }

  function Hit(t: Table, r: Request): Table {
    Count(Sweep(t, r.now), r)
  }

  /** The window of `k` that is still running at `now`, if any. */
  function Live(t: Table, k: string, now: real): Option<Window> {
    var i := IndexOf(t, k);
    if i < |t| && t[i].resetAt > now then Some(t[i]) else None
  }

  /** The request that opens a window is allowed whatever the limit. */
  function Reply(t: Table, r: Request): (bool, int) {
    match Live(t, r.key, r.now)
    case None => (true, r.seconds)
    case Some(w) =>
      var left := (w.resetAt - r.now).Floor;
      (w.count + 1 <= r.limit, if left > 1 then left else 1)
  }

  function Answer(t: Table, r: Request): (bool, int) {
    Reply(Sweep(t, r.now), r)
  }

  // ---- The table ----

  lemma {:induction false} UnexpiredIsPart(t: Table, now: real)
    requires Inv(t)
    ensures Inv(Unexpired(t, now)) && |Unexpired(t, now)| <= |t|
    ensures forall i | 0 <= i < |Unexpired(t, now)| ::
              Unexpired(t, now)[i].resetAt > now && HasKey(t, Unexpired(t, now)[i].key)
  {
    if t == [] {
    } else {
      var front, last := t[..|t| - 1], t[|t| - 1];
      var rest := Unexpired(front, now);
      UnexpiredIsPart(front, now);
      forall i | 0 <= i < |rest| ensures HasKey(t, rest[i].key) && rest[i].key != last.key {
        var j :| 0 <= j < |front| && front[j].key == rest[i].key;
        assert t[j].key == rest[i].key;
      }
      assert HasKey(t, last.key);
      assert Unexpired(t, now) == if last.resetAt <= now then rest else rest + [last];
    }
  }

  lemma {:induction false} UnexpiredAll(t: Table, now: real)
    ensures |Unexpired(t, now)| <= |t|
    ensures |Unexpired(t, now)| == |t| <==> forall i | 0 <= i < |t| :: t[i].resetAt > now
    ensures |Unexpired(t, now)| == |t| ==> Unexpired(t, now) == t
  {
    if t == [] {
    } else {
      UnexpiredAll(t[..|t| - 1], now);
      assert t == t[..|t| - 1] + [t[|t| - 1]];
    }
  }

  /** Sweeping expired windows keeps every live one as it was. */
  lemma {:induction false} UnexpiredKeepsLive(t: Table, k: string, now: real)
    requires Inv(t)
    ensures Live(Unexpired(t, now), k, now) == Live(t, k, now)
  {
    if t == [] {
    } else {
      var front, last := t[..|t| - 1], t[|t| - 1];
      UnexpiredKeepsLive(front, k, now);
      UnexpiredIsPart(front, now);
      LiveOfAppend(front, last, k, now);
      assert t == front + [last];
      var rest := Unexpired(front, now);
      if last.resetAt > now {
        LiveOfAppend(rest, last, k, now);
      }
    }
  }

  lemma IndexIs(t: Table, k: string, i: nat)
    requires i <= |t| && (i < |t| ==> t[i].key == k) && forall j | 0 <= j < i :: t[j].key != k
    ensures IndexOf(t, k) == i
  {
  }

  lemma LiveOfAppend(t: Table, w: Window, k: string, now: real)
    requires !HasKey(t, w.key)
    ensures Live(t + [w], k, now)
            == if w.key != k then Live(t, k, now) else if w.resetAt > now then Some(w) else None
  {
    var i := IndexOf(t, k);
    if w.key == k {
      IndexIs(t + [w], k, |t|);
    } else {
      IndexIs(t + [w], k, if i == |t| then |t| + 1 else i);
    }
  }

  lemma {:induction false} SuffixLive(t: Table, n: nat, k: string, now: real)
    requires Inv(t) && n <= |t|
    ensures Inv(t[n..])
    ensures Live(t[n..], k, now) == if IndexOf(t, k) < n then None else Live(t, k, now)
  {
    var i, u := IndexOf(t, k), t[n..];
    assert forall j | 0 <= j < |u| :: u[j] == t[n + j];
    IndexIs(u, k, if i < n then |u| else i - n);
  }

  lemma SweepKeepsInv(t: Table, now: real)
    requires Inv(t)
    ensures Inv(Sweep(t, now)) && |Sweep(t, now)| < WINDOW_CAP
  {
    if |t| >= WINDOW_CAP {
      UnexpiredIsPart(t, now);
    }
  }

  /** The table never holds more than the cap after a request. */
  lemma HitKeepsCap(t: Table, r: Request)
    requires Inv(t)
    ensures Inv(Hit(t, r)) && |Hit(t, r)| <= 10_000
  {
    SweepKeepsInv(t, r.now);
    CountKeepsInv(Sweep(t, r.now), r);
  }

  lemma CountKeepsInv(t: Table, r: Request)
    requires Inv(t)
    ensures Inv(Count(t, r)) && |Count(t, r)| <= |t| + 1
  {
    var i := IndexOf(t, r.key);
    var u := Count(t, r);
    assert forall j | 0 <= j < |t| :: u[j].key == t[j].key;
    assert i == |t| ==> u[|t|].key == r.key && forall j | 0 <= j < |t| :: t[j].key != r.key;
  }

  /** The sweep at `now` drops a live window of `k`. */
  predicate Evicts(t: Table, k: string, now: real) {
    Live(t, k, now).Some? && Live(Sweep(t, now), k, now).None?
  }

  /**
   A live window is evicted exactly when the table is full of live windows and its key is the first in it (for
   a table within the cap, which every request leaves behind).
   */
  lemma OnlyTheFirstKeyIsEvicted(t: Table, k: string, now: real)
    requires Inv(t) && |t| <= 10_000
    ensures Evicts(t, k, now)
            <==> |t| == 10_000 && t[0].key == k && forall i | 0 <= i < |t| :: t[i].resetAt > now
  {
    UnexpiredAll(t, now);
    UnexpiredKeepsLive(t, k, now);
    if |t| == WINDOW_CAP {
      if |Unexpired(t, now)| == |t| {
        SuffixLive(t, 1, k, now);
        assert t[0].resetAt > now;
      } else {
        assert Sweep(t, now) == Unexpired(t, now);
      }
    }
  }

  lemma {:induction false} CountReopens(t: Table, r: Request)
    requires IndexOf(t, r.key) < |t| && t[IndexOf(t, r.key)].resetAt <= r.now
    ensures Count(t, r) == t[IndexOf(t, r.key) := Window(r.key, 1, r.now + r.seconds as real)]
  {
  }

  /** A key keeps its place in the table when its window is reopened. */
  lemma {:induction false} ReopenedKeyKeepsItsPlace(t: Table, r: Request)
    requires Inv(t) && |t| < WINDOW_CAP && IndexOf(t, r.key) < |t| && t[IndexOf(t, r.key)].resetAt <= r.now
    ensures Hit(t, r) == t[IndexOf(t, r.key) := Window(r.key, 1, r.now + r.seconds as real)]
  {
    assert Sweep(t, r.now) == t;
    CountReopens(t, r);
  }

  /**
   So the window that goes need not be the oldest one: a key that came first and has just been reopened has the
   newest window of all, and when one more key fills the table, that window is the next to be evicted.
   */
  lemma NewestWindowCanBeEvicted(t: Table, r: Request, other: Request)
    requires Inv(t) && |t| == WINDOW_CAP - 1 && t[0].key == r.key && t[0].resetAt <= r.now && r.seconds > 0
    requires forall i | 0 < i < |t| :: r.now < t[i].resetAt <= r.now + r.seconds as real
    requires !HasKey(t, other.key) && other.now == r.now && 0 < other.seconds <= r.seconds
    ensures var u := Hit(Hit(t, r), other);
            && Evicts(u, r.key, r.now)
            && forall i | 0 <= i < |u| :: u[i].resetAt <= u[0].resetAt
  {
    ReopenedKeyKeepsItsPlace(t, r);
    var v := t[0 := Window(r.key, 1, r.now + r.seconds as real)];
    assert Hit(t, r) == v;
    assert forall i | 0 <= i < |v| :: v[i].key == t[i].key;
    IndexIs(v, other.key, |v|);
    var u := v + [Window(other.key, 1, other.now + other.seconds as real)];
    assert Hit(v, other) == u;
    HitKeepsCap(t, r);
    HitKeepsCap(v, other);
    OnlyTheFirstKeyIsEvicted(u, r.key, r.now);
  }

  /** A sweep that does not evict `k` leaves its live window as it was. */
  lemma SweepKeepsLive(t: Table, k: string, now: real)
    requires Inv(t) && !Evicts(t, k, now)
    ensures Live(Sweep(t, now), k, now) == Live(t, k, now)
  {
    if |t| >= WINDOW_CAP {
      var kept := Unexpired(t, now);
      UnexpiredKeepsLive(t, k, now);
      UnexpiredIsPart(t, now);
      SuffixLive(kept, Excess(kept), k, now);
    }
  }

  /** A request whose key has a live window at i: it is counted there, and passes while the count is in the limit. */
  lemma {:induction false} LiveWindowCounts(t: Table, r: Request, i: nat)
    requires Inv(t) && |t| < 10_000 && i < |t| && t[i].key == r.key && t[i].resetAt > r.now
    ensures Hit(t, r) == t[i := Window(r.key, t[i].count + 1, t[i].resetAt)]
    ensures var (allowed, retry) := Answer(t, r);
      && (allowed <==> t[i].count + 1 <= r.limit)
      && retry >= 1 && (retry == 1 || retry as real <= t[i].resetAt - r.now)
      && t[i].resetAt - r.now < retry as real + 1.0
  {
    IndexIs(t, r.key, i);
    assert Sweep(t, r.now) == t;
  }

  /** A request without a live window passes whatever its limit, and a new window counts it as the first. */
  lemma {:induction false} FirstRequestPasses(t: Table, r: Request)
    requires Inv(t) && |t| < 10_000 && forall i | 0 <= i < |t| && t[i].key == r.key :: t[i].resetAt <= r.now
    ensures Answer(t, r) == (true, r.seconds)
    ensures var u := Hit(t, r);
      && |t| <= |u| && (forall i | 0 <= i < |t| :: u[i].key == t[i].key && (t[i].key != r.key ==> u[i] == t[i]))
      && exists i :: 0 <= i < |u| && u[i] == Window(r.key, 1, r.now + r.seconds as real)
  {
    var i := IndexOf(t, r.key);
    assert Sweep(t, r.now) == t;
    assert Hit(t, r)[i] == Window(r.key, 1, r.now + r.seconds as real);
  }

  // ---- The limiter ----

  class RateLimiter {
    var memory: Table

    ghost predicate Valid()
      reads this
    {
      Inv(memory)
    }

    constructor ()
      ensures Valid() && memory == []
    {
      memory := [];
    }

    method SweepTable(now: real)
      requires Valid()
      modifies this
      ensures Valid() && memory == Sweep(old(memory), now)
    {
      SweepKeepsInv(memory, now);
      if |memory| < WINDOW_CAP {
        return;
      }
      ghost var t := memory;
      var kept := [];
      var i := 0;
      while i < |memory|
        invariant i <= |memory| && memory == t && kept == Unexpired(t[..i], now)
      {
        assert t[..i + 1][..i] == t[..i];
        if !(memory[i].resetAt <= now) {
          kept := kept + [memory[i]];
        }
        i := i + 1;
      }
      assert t[..i] == t;
      memory := kept;
      if |memory| >= WINDOW_CAP {
        var excess := |memory| - WINDOW_CAP + 1;
        var n := 0;
        while n < excess
          invariant n <= excess <= |kept| && memory == kept[n..]
        {
          memory := memory[1..];
          n := n + 1;
        }
      }
    }

    /** Whether the request is allowed, and how long to wait otherwise. */
    method HitMemory(r: Request) returns (allowed: bool, retry: int)
      requires Valid()
      modifies this
      ensures Valid() && memory == Hit(old(memory), r) && |memory| <= 10_000
      ensures (allowed, retry) == Answer(old(memory), r)
    {
      HitKeepsCap(memory, r);
      SweepTable(r.now);
      allowed, retry := CountHit(r);
    }

    method CountHit(r: Request) returns (allowed: bool, retry: int)
      requires Valid()
      modifies this
      ensures memory == Count(old(memory), r) && (allowed, retry) == Reply(old(memory), r)
    {
      var i := IndexOf(memory, r.key);
      if i == |memory| || memory[i].resetAt <= r.now {
        var started := Window(r.key, 1, r.now + r.seconds as real);
        memory := if i == |memory| then memory + [started] else memory[i := started];
        return true, r.seconds;
      }
      assert memory[i].count >= 1;
      memory := memory[i := memory[i].(count := memory[i].count + 1)];
      var left := (memory[i].resetAt - r.now).Floor;
      retry := if left > 1 then left else 1;
      allowed := memory[i].count <= 1 || memory[i].count <= r.limit;
    }
  }
}

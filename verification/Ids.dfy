/**
 Collision-resistant ids: a letter, the time, a process-wide counter, a fingerprint and a random
 part. Time, process id and random numbers are inputs; only the counter is under control.
 */
module Ids {
  import opened Numerals

  const COUNTERS := 1_679_616  // 36 to the fourth

  function Abs(n: int): (r: nat)
    ensures r == n || r == -n
  {
    if n < 0 then -n else n
  }

  /** `_base36`: digits come out least significant first and are put in front. */
  method Base36(value: int) returns (text: string)
    ensures text == Render(Abs(value), ThirtySix)
  {
    var v := Abs(value);
    if v == 0 {
      assert Digit(0) == '0';
      return "0";
    }
    text := "";
    ghost var all := v;
    while v > 0
      invariant v >= 0
      invariant v == 0 ==> text == Render(all, ThirtySix)
      invariant v > 0 ==> Render(all, ThirtySix) == Render(v, ThirtySix) + text
    {
      var remainder := v % 36;
      text := [Digit(remainder)] + text;
      v := v / 36;
    }
  }

  /** What the world supplies for one id. */
  datatype World = World(millis: int, pid: int, fingerprint: int, random: int)

  function Encode(n: int): string {
    Render(Abs(n), ThirtySix)
  }

  function Counter(count: nat): string {
    PadLeft(Encode(count), 4)
  }

  function Fingerprint(w: World): string {
    PadLeft(Encode(w.pid) + Encode(w.fingerprint), 4)[..4]
  }

  function Random(w: World): string {
    PadLeft(Encode(w.random), 8)[..8]
  }

  function Cuid(w: World, count: nat): string {
    "c" + Encode(w.millis) + Counter(count) + Fingerprint(w) + Random(w)
  }

  class IdGenerator {
    var counter: nat

    ghost predicate Valid()
      reads this
    {
      counter < COUNTERS
    }

    constructor (start: nat)
      requires start < COUNTERS
      ensures Valid() && counter == start
    {
      counter := start;
    }

    method Next(w: World) returns (id: string)
      requires Valid()
      modifies this
      ensures Valid() && counter == (old(counter) + 1) % COUNTERS
      ensures id == Cuid(w, counter)
    {
      counter := (counter + 1) % COUNTERS;
      var count := counter;
      var timestamp := Base36(w.millis);
      var digits := Base36(count);
      var pid := Base36(w.pid);
      var salt := Base36(w.fingerprint);
      var rand := Base36(w.random);
      id := "c" + timestamp + PadLeft(digits, 4) + PadLeft(pid + salt, 4)[..4] + PadLeft(rand, 8)[..8];
    }

    /** The ids one process hands out, one per entry of `world`. */
    method NextAll(world: seq<World>) returns (ids: seq<string>)
      requires Valid()
      modifies this
      ensures Valid() && ids == Issued(old(counter), world)
    {
      ids := [];
      var i := 0;
      while i < |world|
        invariant i <= |world| && Valid() && counter == (old(counter) + i) % COUNTERS
        invariant ids == Issued(old(counter), world)[..i]
      {
        NextCount(old(counter), i);
        var id := Next(world[i]);
        ids := ids + [id];
        i := i + 1;
      }
    }
  }

  lemma NextCount(start: nat, i: nat)
    ensures ((start + i) % COUNTERS + 1) % COUNTERS == (start + i + 1) % COUNTERS
  {
  }

  function Issued(start: nat, world: seq<World>): (ids: seq<string>)
    ensures |ids| == |world|
  {
    seq(|world|, i requires 0 <= i < |world| => Cuid(world[i], (start + i + 1) % COUNTERS))
  }

  // ---- What the text determines ----

  /** The counter field has its four characters, and they determine the counter. */
  lemma CounterField(m: nat, n: nat)
    requires m < COUNTERS && n < COUNTERS
    ensures |Counter(m)| == 4 && (Counter(m) == Counter(n) <==> m == n)
  {
    FourDigits(m);
    FourDigits(n);
    if Counter(m) == Counter(n) {
      PaddedInjective(m, n, 4, ThirtySix);
    }
  }

  lemma FourDigits(n: nat)
    requires n < COUNTERS
    ensures |Encode(n)| <= 4 && (n > 0 ==> Encode(n)[0] != '0')
  {
    assert Pow(ThirtySix, 1) == 36 && Pow(ThirtySix, 2) == 1296 && Pow(ThirtySix, 3) == 46656;
    assert Pow(ThirtySix, 4) == COUNTERS;
    RenderLength(n, ThirtySix, 4);
    if n > 0 {
      NoLeadingZero(n, ThirtySix);
    }
  }

  /** Processes show in the fingerprint: the digits of the process id and then of the salt, cut or filled to four. */
  lemma FingerprintShowsProcess(w: World)
    ensures var t, f := Render(Abs(w.pid), ThirtySix) + Render(Abs(w.fingerprint), ThirtySix), Fingerprint(w);
      && |f| == 4 && (|t| >= 4 ==> f == t[..4])
      && (|t| < 4 ==> f[4 - |t|..] == t && forall i | 0 <= i < 4 - |t| :: f[i] == '0')
  {
    PaddedWithZeros(Encode(w.pid) + Encode(w.fingerprint), 4);
  }

  const LARGEST_RANDOM := 2_821_109_907_456  // 36 to the eighth, which is drawn too

  lemma PowersOf36()
    ensures Pow(ThirtySix, 7) == 78_364_164_096 && Pow(ThirtySix, 8) == LARGEST_RANDOM
  {
    assert Pow(ThirtySix, 1) == 36 && Pow(ThirtySix, 2) == 1296 && Pow(ThirtySix, 3) == 46656;
    assert Pow(ThirtySix, 4) == COUNTERS && Pow(ThirtySix, 5) == 60_466_176;
    assert Pow(ThirtySix, 6) == 2_176_782_336;
  }

  /** Below the largest random number the field is its padded numeral. */
  lemma EightDigits(w: World)
    requires 0 <= w.random < LARGEST_RANDOM
    ensures Random(w) == PadLeft(Render(w.random, ThirtySix), 8) && |Random(w)| == 8
  {
    PowersOf36();
    RenderLength(w.random, ThirtySix, 8);
  }

  /** The largest has nine digits, of which the last is lost: it looks like the 36th part of it. */
  lemma NineDigits(w: World)
    requires w.random == LARGEST_RANDOM
    ensures Random(w) == PadLeft(Render(78_364_164_096, ThirtySix), 8) && |Random(w)| == 8
  {
    PowersOf36();
    var short := Render(78_364_164_096, ThirtySix);
    RenderLength(78_364_164_096, ThirtySix, 8);
    RenderIsLonger(78_364_164_096, ThirtySix, 7);
    assert Encode(w.random) == short + [Digit(0)];
    assert Random(w) == short;
  }

  /**
   The random field has its eight characters, and they determine the random number, except that the largest one
   that can be drawn, 36 to the eighth, reads like 36 to the seventh.
   */
  lemma RandomField(v: World, w: World)
    requires 0 <= v.random <= LARGEST_RANDOM && 0 <= w.random <= LARGEST_RANDOM
    ensures |Random(v)| == 8
    ensures Random(v) == Random(w)
      <==> v.random == w.random || {v.random, w.random} == {78_364_164_096, 2_821_109_907_456}
  {
    var m := if v.random == LARGEST_RANDOM then 78_364_164_096 else v.random;
    var n := if w.random == LARGEST_RANDOM then 78_364_164_096 else w.random;
    FieldReads(v, m);
    FieldReads(w, n);
    if Random(v) == Random(w) {
      PaddedInjective(m, n, 8, ThirtySix);
    }
  }

  lemma FieldReads(w: World, n: nat)
    requires 0 <= w.random <= LARGEST_RANDOM
    requires n == if w.random == LARGEST_RANDOM then 78_364_164_096 else w.random
    ensures Random(w) == PadLeft(Render(n, ThirtySix), 8) && |Random(w)| == 8
  {
    if w.random == LARGEST_RANDOM {
      NineDigits(w);
    } else {
      EightDigits(w);
    }
  }

  lemma SplitAtEnd(a: string, b: string, x: string, y: string)
    requires |x| == |y| && a + x == b + y
    ensures a == b && x == y
  {
    assert |a| == |b|;
    assert a == (a + x)[..|a|] && b == (b + y)[..|b|];
    assert x == (a + x)[|a|..] && y == (b + y)[|b|..];
  }

  /** Where an id has its parts: the letter, the time, and three fields of fixed width. */
  lemma CuidLayout(w: World, n: nat)
    requires n < COUNTERS
    ensures var id := Cuid(w, n);
      var k := |id|;
      && k >= 18 && id[0] == 'c' && id[1..k - 16] == Render(Abs(w.millis), ThirtySix)
      && id[k - 16..k - 12] == Counter(n) && id[k - 12..k - 8] == Fingerprint(w) && id[k - 8..] == Random(w)
  {
    CounterField(n, n);
  }

  /**
   The last sixteen characters are fixed fields, so an id determines each of its parts although the
   time in front of them has no fixed width: two ids agree exactly when all four parts agree.
   */
  lemma CuidDeterminesItsParts(v: World, m: nat, w: World, n: nat)
    requires m < COUNTERS && n < COUNTERS
    ensures Cuid(v, m) == Cuid(w, n)
            <==> Abs(v.millis) == Abs(w.millis) && m == n
                 && Fingerprint(v) == Fingerprint(w) && Random(v) == Random(w)
  {
    CounterField(m, n);
    CounterField(n, m);
    if Cuid(v, m) == Cuid(w, n) {
      SplitAtEnd("c" + Encode(v.millis) + Counter(m) + Fingerprint(v),
                 "c" + Encode(w.millis) + Counter(n) + Fingerprint(w), Random(v), Random(w));
      SplitAtEnd("c" + Encode(v.millis) + Counter(m), "c" + Encode(w.millis) + Counter(n),
                 Fingerprint(v), Fingerprint(w));
      SplitAtEnd("c" + Encode(v.millis), "c" + Encode(w.millis), Counter(m), Counter(n));
      assert Encode(v.millis) == ("c" + Encode(v.millis))[1..] == ("c" + Encode(w.millis))[1..];
      RenderInjective(Abs(v.millis), Abs(w.millis), ThirtySix);
    }
  }

  /** Any 36 to the fourth consecutive ids of one process differ, whatever time and chance do. */
  lemma ConsecutiveIdsDiffer(start: nat, world: seq<World>, i: nat, j: nat)
    requires i < j < |world| && j - i < COUNTERS
    ensures Issued(start, world)[i] != Issued(start, world)[j]
  {
    CuidDeterminesItsParts(world[i], (start + i + 1) % COUNTERS, world[j], (start + j + 1) % COUNTERS);
  }

  /** The bound is the best possible: the counter repeats, and then only time and chance can help. */
  lemma CounterRepeats(start: nat, world: seq<World>, i: nat)
    requires i + COUNTERS < |world| && world[i] == world[i + COUNTERS]
    ensures Issued(start, world)[i] == Issued(start, world)[i + COUNTERS]
  {
    assert (start + i + COUNTERS + 1) % COUNTERS == (start + i + 1) % COUNTERS;
  }
}

/** The stable sort the program relies on: by a key, keeping the order of what has the same key. */
module StableSort {

  /** Where x goes in a sorted sequence: after everything whose key is not larger. */
  function Slot<T>(s: seq<T>, k: real, key: T -> real): (p: nat)
    ensures p <= |s| && (p > 0 ==> key(s[p - 1]) <= k)
    ensures forall i | p <= i < |s| :: key(s[i]) > k
  {
    if s == [] || key(s[|s| - 1]) <= k then |s| else Slot(s[..|s| - 1], k, key)
  }

  function Insert<T>(s: seq<T>, x: T, key: T -> real): (r: seq<T>)
    ensures |r| == |s| + 1
  {
    var p := Slot(s, key(x), key);
    s[..p] + [x] + s[p..]
  }

  function Sort<T>(s: seq<T>, key: T -> real): (r: seq<T>)
    ensures |r| == |s|
  {
    if s == [] then [] else Insert(Sort(s[..|s| - 1], key), s[|s| - 1], key)
  }

  ghost predicate Sorted<T>(s: seq<T>, key: T -> real) {
    forall i, j | 0 <= i < j < |s| :: key(s[i]) <= key(s[j])
  }

  /** The elements with one key, in order. */
  function Having<T>(s: seq<T>, key: T -> real, v: real): seq<T> {
    if s == [] then []
    else
      var rest := Having(s[..|s| - 1], key, v);
      if key(s[|s| - 1]) == v then rest + [s[|s| - 1]] else rest
  }

  ghost predicate SameTies<T>(r: seq<T>, s: seq<T>, key: T -> real) {
    forall v :: Having(r, key, v) == Having(s, key, v)
  }

  lemma {:induction false} HavingConcat<T>(a: seq<T>, b: seq<T>, key: T -> real, v: real)
    ensures Having(a + b, key, v) == Having(a, key, v) + Having(b, key, v)
  {
    if b == [] {
      assert a + b == a;
    } else {
      HavingConcat(a, b[..|b| - 1], key, v);
      assert (a + b)[..|a + b| - 1] == a + b[..|b| - 1];
    }
  }

  lemma {:induction false} HavingNone<T>(s: seq<T>, key: T -> real, v: real)
    ensures Having(s, key, v) == [] <==> forall i | 0 <= i < |s| :: key(s[i]) != v
  {
    if s == [] {
    } else {
      HavingNone(s[..|s| - 1], key, v);
    }
  }

  lemma InsertSorts<T>(s: seq<T>, x: T, key: T -> real)
    requires Sorted(s, key)
    ensures Sorted(Insert(s, x, key), key)
  {
    var p, r := Slot(s, key(x), key), Insert(s, x, key);
    forall i, j | 0 <= i < j < |r|
      ensures key(r[i]) <= key(r[j])
    {
      var left := if i < p then s[i] else if i == p then x else s[i - 1];
      var right := if j < p then s[j] else if j == p then x else s[j - 1];
      assert r[i] == left && r[j] == right;
    }
  }

  lemma InsertAddsOne<T>(s: seq<T>, x: T, key: T -> real)
    ensures multiset(Insert(s, x, key)) == multiset(s) + multiset{x}
  {
    var p := Slot(s, key(x), key);
    assert s == s[..p] + s[p..];
  }

  lemma AroundKeepsTies<T>(low: seq<T>, x: T, high: seq<T>, key: T -> real, v: real)
    requires forall i | 0 <= i < |high| :: key(high[i]) > key(x)
    ensures Having(low + [x] + high, key, v) == Having(low + high, key, v) + Having([x], key, v)
  {
    HavingConcat(low + [x], high, key, v);
    HavingConcat(low, [x], key, v);
    HavingConcat(low, high, key, v);
    HavingNone([x], key, v);
    HavingNone(high, key, v);
    if Having(high, key, v) == [] {
      assert Having(low, key, v) + Having(high, key, v) == Having(low, key, v);
    } else {
      assert Having([x], key, v) == [];
    }
  }

  lemma InsertKeepsTies<T>(s: seq<T>, x: T, key: T -> real, v: real)
    ensures Having(Insert(s, x, key), key, v) == Having(s, key, v) + Having([x], key, v)
  {
    var p := Slot(s, key(x), key);
    AroundKeepsTies(s[..p], x, s[p..], key, v);
    assert s == s[..p] + s[p..];
  }

  /** Sorting orders by key, loses and adds nothing, and keeps the order of equal keys. */
  lemma {:induction false} SortIsStable<T>(s: seq<T>, key: T -> real)
    ensures Sorted(Sort(s, key), key)
    ensures multiset(Sort(s, key)) == multiset(s)
    ensures SameTies(Sort(s, key), s, key)
  {
    if s == [] {
    } else {
      var rest, x := s[..|s| - 1], s[|s| - 1];
      SortIsStable(rest, key);
      InsertSorts(Sort(rest, key), x, key);
      InsertAddsOne(Sort(rest, key), x, key);
      assert s == rest + [x];
      forall v
        ensures Having(Sort(s, key), key, v) == Having(s, key, v)
      {
        InsertKeepsTies(Sort(rest, key), x, key, v);
        HavingConcat(rest, [x], key, v);
      }
    }
  }

  lemma SameTiesSameLast<T>(a: seq<T>, b: seq<T>, key: T -> real)
    requires a != [] && b != [] && Sorted(a, key) && Sorted(b, key) && SameTies(a, b, key)
    ensures a[|a| - 1] == b[|b| - 1]
  {
    var x, y := a[|a| - 1], b[|b| - 1];
    HavingNone(b, key, key(x));
    HavingNone(a, key, key(y));
    var v := key(x);
    assert key(y) == v;
    var r, q := Having(a, key, v), Having(b, key, v);
    assert r == Having(a[..|a| - 1], key, v) + [x] && r[|r| - 1] == x;
    assert q == Having(b[..|b| - 1], key, v) + [y] && q[|q| - 1] == y;
  }

  lemma SameTiesButLast<T>(a: seq<T>, b: seq<T>, x: T, key: T -> real)
    requires SameTies(a + [x], b + [x], key)
    ensures SameTies(a, b, key)
  {
    forall v
      ensures Having(a, key, v) == Having(b, key, v)
    {
      HavingConcat(a, [x], key, v);
      HavingConcat(b, [x], key, v);
      assert Having(a + [x], key, v) == Having(b + [x], key, v);
      var r, q, tail := Having(a, key, v), Having(b, key, v), Having([x], key, v);
      assert r == (r + tail)[..|r|] && q == (q + tail)[..|q|];
    }
  }

  /** There is only one way to sort stably: order and ties determine the sequence. */
  lemma {:induction false} OrderAndTiesDetermine<T>(a: seq<T>, b: seq<T>, key: T -> real)
    requires Sorted(a, key) && Sorted(b, key) && SameTies(a, b, key)
    ensures a == b
    decreases |a|
  {
    if a != [] && b != [] {
      SameTiesSameLast(a, b, key);
      var a', b', x := a[..|a| - 1], b[..|b| - 1], a[|a| - 1];
      assert a == a' + [x] && b == b' + [x];
      SameTiesButLast(a', b', x, key);
      OrderAndTiesDetermine(a', b', key);
    } else if a != [] {
      HavingNone(a, key, key(a[0]));
      HavingNone(b, key, key(a[0]));
      assert false;
    } else if b != [] {
      HavingNone(b, key, key(b[0]));
      HavingNone(a, key, key(b[0]));
      assert false;
    }
  }

  /** Cutting the sorted sequence at c: the first c elements are the smallest, and come first among equals. */
  lemma CutSorted<T>(s: seq<T>, c: nat, key: T -> real)
    requires c <= |s|
    ensures var top, rest := Sort(s, key)[..c], Sort(s, key)[c..];
      && multiset(top) + multiset(rest) == multiset(s)
      && Sorted(top, key)
      && (forall i, j | 0 <= i < |top| && 0 <= j < |rest| :: key(top[i]) <= key(rest[j]))
      && (forall v :: Having(top, key, v) + Having(rest, key, v) == Having(s, key, v))
  {
    SortIsStable(s, key);
    CutAnySorted(s, Sort(s, key), c, key);
  }

  lemma CutAnySorted<T>(s: seq<T>, all: seq<T>, c: nat, key: T -> real)
    requires c <= |all| && Sorted(all, key) && multiset(all) == multiset(s) && SameTies(all, s, key)
    ensures var top, rest := all[..c], all[c..];
      && multiset(top) + multiset(rest) == multiset(s)
      && Sorted(top, key)
      && (forall i, j | 0 <= i < |top| && 0 <= j < |rest| :: key(top[i]) <= key(rest[j]))
      && (forall v :: Having(top, key, v) + Having(rest, key, v) == Having(s, key, v))
  {
    var top, rest := all[..c], all[c..];
    assert all == top + rest;
    forall i, j | 0 <= i < |top| && 0 <= j < |rest|
      ensures key(top[i]) <= key(rest[j])
    {
      assert top[i] == all[i] && rest[j] == all[c + j];
    }
    forall v
      ensures Having(top, key, v) + Having(rest, key, v) == Having(s, key, v)
    {
      HavingConcat(top, rest, key, v);
    }
  }

  lemma {:induction false} HavingHas<T>(s: seq<T>, key: T -> real, v: real)
    ensures forall i | 0 <= i < |Having(s, key, v)| :: key(Having(s, key, v)[i]) == v
  {
    if s == [] {
    } else {
      HavingHas(s[..|s| - 1], key, v);
    }
  }

  lemma {:induction false} HavingAgain<T>(s: seq<T>, key: T -> real, v: real, w: real)
    ensures Having(Having(s, key, v), key, w) == if v == w then Having(s, key, v) else []
  {
    if s == [] {
    } else {
      var rest, x := s[..|s| - 1], s[|s| - 1];
      HavingAgain(rest, key, v, w);
      HavingConcat(Having(rest, key, v), [x], key, w);
    }
  }

  /** With only two keys, sorting puts one group before the other and leaves each in its order. */
  lemma SortIntoTwo<T>(s: seq<T>, key: T -> real, low: real, high: real)
    requires low < high && forall i | 0 <= i < |s| :: key(s[i]) == low || key(s[i]) == high
    ensures Sort(s, key) == Having(s, key, low) + Having(s, key, high)
  {
    var first, second := Having(s, key, low), Having(s, key, high);
    SortIsStable(s, key);
    HavingHas(s, key, low);
    HavingHas(s, key, high);
    forall v
      ensures Having(first + second, key, v) == Having(s, key, v)
    {
      HavingConcat(first, second, key, v);
      HavingAgain(s, key, low, v);
      HavingAgain(s, key, high, v);
      HavingNone(s, key, v);
    }
    OrderAndTiesDetermine(Sort(s, key), first + second, key);
  }

  // ---- Sorting what stands for something else ----

  function Mapped<S, T>(s: seq<S>, f: S -> T): (r: seq<T>)
    ensures |r| == |s| && forall i | 0 <= i < |s| :: r[i] == f(s[i])
  {
    seq(|s|, i requires 0 <= i < |s| => f(s[i]))
  }

  lemma {:induction false} SlotOfMapped<S, T>(s: seq<S>, f: S -> T, k: real, ks: S -> real, kt: T -> real)
    requires forall x :: kt(f(x)) == ks(x)
    ensures Slot(Mapped(s, f), k, kt) == Slot(s, k, ks)
  {
    if s == [] {
    } else {
      SlotOfMapped(s[..|s| - 1], f, k, ks, kt);
      assert Mapped(s, f)[..|s| - 1] == Mapped(s[..|s| - 1], f);
    }
  }

  lemma MappedAround<S, T>(s: seq<S>, x: S, p: nat, f: S -> T)
    requires p <= |s|
    ensures Mapped(s, f)[..p] + [f(x)] + Mapped(s, f)[p..] == Mapped(s[..p] + [x] + s[p..], f)
  {
    var left, right := Mapped(s, f)[..p] + [f(x)] + Mapped(s, f)[p..], s[..p] + [x] + s[p..];
    forall i | 0 <= i < |left|
      ensures left[i] == f(right[i])
    {
      if i < p {
        assert right[i] == s[i];
      } else if i > p {
        assert right[i] == s[i - 1] && left[i] == Mapped(s, f)[i - 1];
      }
    }
  }

  lemma InsertMapped<S, T>(s: seq<S>, x: S, f: S -> T, ks: S -> real, kt: T -> real)
    requires forall y :: kt(f(y)) == ks(y)
    ensures Insert(Mapped(s, f), f(x), kt) == Mapped(Insert(s, x, ks), f)
  {
    SlotOfMapped(s, f, ks(x), ks, kt);
    MappedAround(s, x, Slot(s, ks(x), ks), f);
  }

  /** Sorting what elements stand for, by a key they agree on, is sorting the elements. */
  lemma {:induction false} SortMapped<S, T>(s: seq<S>, f: S -> T, ks: S -> real, kt: T -> real)
    requires forall x :: kt(f(x)) == ks(x)
    ensures Sort(Mapped(s, f), kt) == Mapped(Sort(s, ks), f)
  {
    if s == [] {
    } else {
      SortMapped(s[..|s| - 1], f, ks, kt);
      assert Mapped(s, f)[..|s| - 1] == Mapped(s[..|s| - 1], f);
      InsertMapped(Sort(s[..|s| - 1], ks), s[|s| - 1], f, ks, kt);
    }
  }
}

/**
 The filter that keeps study-card fences out of the tokens a student sees while a reply streams in.

 The filter sees the reply in pieces cut anywhere. It must show everything before the first fence
 marker at once, and hold back only text that may still turn out to be the start of a marker.
 */
module UiStream {
  import opened Text

  const FENCE := "```ui"

  predicate HasFence(s: string) {
    Find(s, FENCE, 0) >= 0
  }

  /** The last `k` characters of `s` are a proper prefix of `needle`. */
  predicate IsBorder(s: string, needle: string, k: nat) {
    k == 0 || (k <= |s| && k < |needle| && s[|s| - k..] == needle[..k])
  }

  ghost predicate IsLongestBorder(s: string, needle: string, k: nat) {
    IsBorder(s, needle, k) && forall j: nat | k < j :: !IsBorder(s, needle, j)
  }

  /** `out` is `s` up to its first fence, except perhaps for whitespace just before the fence. */
  ghost predicate IsCutAtFence(s: string, out: string) {
    var p := Find(s, FENCE, 0);
    p >= 0 && out <= s[..p] && Blank(s[|out|..p])
  }

  /** `out` is what the stream filter shows of `content`, however it is cut into pieces. */
  ghost predicate IsStreamOf(content: string, out: string) {
    if HasFence(content) then IsCutAtFence(content, out) else out == content
  }

  /** `_held_suffix`: tries the longest candidate first. */
  method HeldSuffix(text: string, needle: string) returns (size: nat)
    ensures IsLongestBorder(text, needle, size)
  {
    var upper := if |text| < |needle| - 1 then |text| else |needle| - 1;
    var k := upper;
    while k > 0
      invariant k <= upper
      invariant forall j: nat | j > k && j > 0 :: !IsBorder(text, needle, j)
    {
      if text[|text| - k..] <= needle {
        assert IsBorder(text, needle, k);
        return k;
      }
      k := k - 1;
    }
    return 0;
  }

  /** A border reaching back past `text` was already a border before `text` arrived. */
  lemma BorderBeforeText(input: string, text: string, needle: string, k: nat)
    requires k > |text| && IsBorder(input + text, needle, k)
    ensures IsBorder(input, needle, k - |text|)
  {
    var whole, j := input + text, k - |text|;
    assert input[|input| - j..] == whole[|whole| - k..][..j];
  }

  /** An occurrence that starts before `text` either was complete or had begun. */
  lemma OccurrenceBeforeText(input: string, text: string, needle: string, i: nat)
    requires i < |input| && At(input + text, i, needle)
    ensures At(input, i, needle) || IsBorder(input, needle, |input| - i)
  {
    var whole := input + text;
    if i + |needle| <= |input| {
      assert input[i..i + |needle|] == whole[i..i + |needle|];
    } else {
      assert input[i..] == whole[i..i + |needle|][..|input| - i];
    }
  }

  /** `held` is the longest border of an input that has no fence yet. */
  ghost predicate Holds(input: string, held: string, needle: string) {
    && Find(input, needle, 0) < 0
    && |held| <= |input| && input[|input| - |held|..] == held
    && IsLongestBorder(input, needle, |held|)
  }

  /**
   The held text stands for the whole input: looking at `held + text` finds the same borders and
   the same first occurrence as looking at everything received so far.
   */
  lemma BordersOfHeldText(input: string, held: string, text: string, needle: string, k: nat)
    requires Holds(input, held, needle)
    ensures IsBorder(held + text, needle, k) <==> IsBorder(input + text, needle, k)
  {
    var whole := input + text;
    if k <= |held + text| {
      assert (held + text)[|held + text| - k..] == whole[|whole| - k..];
    } else if IsBorder(whole, needle, k) {
      BorderBeforeText(input, text, needle, k);
    }
  }

  lemma OccurrencesInHeldText(input: string, held: string, text: string, needle: string, i: nat)
    requires Holds(input, held, needle)
    ensures At(input + text, i, needle)
            <==> i >= |input| - |held| && At(held + text, i - (|input| - |held|), needle)
  {
    var shift, whole := |input| - |held|, input + text;
    if i < shift {
      if At(whole, i, needle) {
        OccurrenceBeforeText(input, text, needle, i);
      }
    } else if i + |needle| <= |whole| {
      assert whole[i..i + |needle|] == (held + text)[i - shift..i - shift + |needle|];
    }
  }

  lemma FenceInHeldText(input: string, held: string, text: string, needle: string)
    requires Holds(input, held, needle)
    ensures var p := Find(held + text, needle, 0);
            Find(input + text, needle, 0) == if p < 0 then -1 else |input| - |held| + p
  {
    var p, q := Find(held + text, needle, 0), Find(input + text, needle, 0);
    if p >= 0 {
      OccurrencesInHeldText(input, held, text, needle, |input| - |held| + p);
    }
    if q >= 0 {
      OccurrencesInHeldText(input, held, text, needle, q);
    }
  }

  lemma FenceStays(input: string, text: string, needle: string)
    requires Find(input, needle, 0) >= 0
    ensures Find(input + text, needle, 0) == Find(input, needle, 0)
  {
    var p := Find(input, needle, 0);
    assert (input + text)[p..p + |needle|] == input[p..p + |needle|];
    assert At(input + text, p, needle);
    var q := Find(input + text, needle, 0);
    assert input[q..q + |needle|] == (input + text)[q..q + |needle|];
    assert At(input, q, needle);
  }

  /**
   What the filter keeps true of everything it was given (`input`) and handed out (`emitted`).
   Before a fence: nothing is lost, and what is held is the longest suffix of the whole input that
   can still become a fence. After a fence: what was handed out is the text before it.
   */
  ghost predicate Keeps(input: string, emitted: string, held: string, capturing: bool) {
    && (capturing <==> HasFence(input))
    && if capturing then held == "" && IsCutAtFence(input, emitted)
       else emitted + held == input && IsLongestBorder(input, FENCE, |held|)
  }

  lemma PushIgnored(input: string, emitted: string, held: string, capturing: bool, text: string)
    requires Keeps(input, emitted, held, capturing) && (text == "" || capturing)
    ensures Keeps(input + text, emitted + "", held, capturing)
    ensures AtFence(input, emitted, input + text, "")
  {
    assert emitted + "" == emitted;
    if text == "" {
      assert input + text == input;
    } else {
      FenceStays(input, text, FENCE);
      var p := Find(input, FENCE, 0);
      assert (input + text)[..p] == input[..p];
      assert (input + text)[|emitted|..p] == input[|emitted|..p];
    }
  }

  /** Nothing is shown after a fence; the push that completes it shows the rest of the text before. */
  ghost predicate AtFence(before: string, emitted: string, input: string, emit: string) {
    var p := Find(input, FENCE, 0);
    && (HasFence(before) ==> emit == "")
    && (!HasFence(before) && p >= 0 ==> |emitted| <= p && emit == RStrip(input[|emitted|..p]))
  }

  /** `emit` is to be shown and `keep` held when `all` has been seen since the last release. */
  ghost predicate Splits(all: string, emit: string, keep: string, fence: bool) {
    && (fence <==> HasFence(all))
    && if fence then emit == RStrip(all[..Find(all, FENCE, 0)]) && keep == ""
       else emit + keep == all && IsLongestBorder(all, FENCE, |keep|)
  }

  /** A push that completes no fence leaves the filter holding the longest border of all it saw. */
  lemma PushKeepsTheBorder(input: string, emitted: string, held: string, text: string, emit: string, keep: string)
    requires Keeps(input, emitted, held, false) && Splits(held + text, emit, keep, false)
    ensures Keeps(input + text, emitted + emit, keep, false)
    ensures AtFence(input, emitted, input + text, emit)
  {
    assert input[|input| - |held|..] == held;
    FenceInHeldText(input, held, text, FENCE);
    forall k: nat ensures IsBorder(held + text, FENCE, k) <==> IsBorder(input + text, FENCE, k) {
      BordersOfHeldText(input, held, text, FENCE, k);
    }
    assert emitted + emit + keep == emitted + (held + text) == input + text;
  }

  lemma CutAt(before: string, emitted: string, rest: string)
    requires before == emitted + rest
    ensures emitted + RStrip(rest) <= before
    ensures Blank(before[|emitted + RStrip(rest)|..])
  {
    assert before[|emitted + RStrip(rest)|..] == rest[|RStrip(rest)|..];
  }

  /** A push that completes a fence shows the rest of the text before it, less trailing whitespace. */
  lemma PushCutsAtTheFence(input: string, emitted: string, held: string, text: string, emit: string)
    requires Keeps(input, emitted, held, false) && Splits(held + text, emit, "", true)
    ensures Keeps(input + text, emitted + emit, "", true)
    ensures AtFence(input, emitted, input + text, emit)
  {
    assert input[|input| - |held|..] == held;
    FenceInHeldText(input, held, text, FENCE);
    var index, p := Find(held + text, FENCE, 0), Find(input + text, FENCE, 0);
    SameText(input, emitted, held, text, index, p);
    CutAt((input + text)[..p], emitted, (held + text)[..index]);
    assert (input + text)[..p][|emitted + emit|..] == (input + text)[|emitted + emit|..p];
  }

  lemma PushAdvances(
    input: string, emitted: string, held: string, text: string, emit: string, keep: string, fence: bool)
    requires Keeps(input, emitted, held, false) && Splits(held + text, emit, keep, fence)
    ensures Keeps(input + text, emitted + emit, keep, fence)
    ensures AtFence(input, emitted, input + text, emit)
  {
    if fence {
      PushCutsAtTheFence(input, emitted, held, text, emit);
    } else {
      PushKeepsTheBorder(input, emitted, held, text, emit, keep);
    }
  }

  lemma SameText(input: string, emitted: string, held: string, text: string, index: nat, p: nat)
    requires input == emitted + held && index <= |held + text| && p == |emitted| + index
    ensures (input + text)[|emitted|..p] == (held + text)[..index]
    ensures (input + text)[..p] == emitted + (held + text)[..index]
  {
    assert input + text == emitted + (held + text);
  }

  class UiStreamFilter {
    var held: string
    var capturing: bool
    ghost var input: string    // everything pushed since the last flush
    ghost var emitted: string  // everything handed out for it

    ghost predicate Valid()
      reads this
    {
      Keeps(input, emitted, held, capturing)
    }

    constructor ()
      ensures Valid() && !capturing && input == "" && emitted == ""
    {
      held, capturing, input, emitted := "", false, "", "";
    }

    method Push(text: string) returns (emit: string)
      requires Valid()
      modifies this
      ensures Valid() && AtFence(old(input), old(emitted), input, emit)
      ensures input == old(input) + text && emitted == old(emitted) + emit
    {
      if text == "" || capturing {
        PushIgnored(input, emitted, held, capturing, text);
        emit := "";
      } else {
        ghost var was := held;
        emit, held, capturing := Release(held + text);
        PushAdvances(input, emitted, was, text, emit, held, capturing);
      }
      input, emitted := input + text, emitted + emit;
    }

    /** Splits the text seen since the last release into what to show and what to hold. */
    static method Release(all: string) returns (emit: string, keep: string, fence: bool)
      ensures Splits(all, emit, keep, fence)
    {
      var index := Find(all, FENCE, 0);
      if index >= 0 {
        return RStrip(all[..index]), "", true;
      }
      var size := HeldSuffix(all, FENCE);
      if size > 0 {
        assert all[..|all| - size] + all[|all| - size..] == all;
        return all[..|all| - size], all[|all| - size..], false;
      }
      return all, "", false;
    }

    /** Releases the held text; what is pushed afterwards is filtered as a new stream. */
    method FlushTail() returns (tail: string)
      requires Valid()
      modifies this
      ensures Valid() && capturing == old(capturing)
      ensures capturing ==> tail == "" && input == old(input) && emitted == old(emitted)
      ensures !capturing ==> old(emitted) + tail == old(input) && input == "" && emitted == ""
    {
      if capturing {
        return "";
      }
      tail := held;
      held, input, emitted := "", "", "";
    }
  }

  /** What a student sees of a reply that arrives in `chunks`: every push, then the tail. */
  method StreamReply(chunks: seq<string>) returns (out: string)
    ensures IsStreamOf(Concat(chunks), out)
  {
    var filter := new UiStreamFilter();
    out := "";
    var n := 0;
    while n < |chunks|
      invariant n <= |chunks|
      invariant filter.Valid() && fresh(filter)
      invariant filter.input == Concat(chunks[..n]) && filter.emitted == out
    {
      assert chunks[..n + 1][..n] == chunks[..n];
      var safe := filter.Push(chunks[n]);
      if safe != "" {
        out := out + safe;
      }
      n := n + 1;
    }
    assert chunks[..n] == chunks;
    var tail := filter.FlushTail();
    out := out + tail;
  }

  /**
   Why holding exactly the longest border is right. A position still shown could never become the
   start of a fence whatever arrives next, and the first held position could.
   */
  lemma HeldTextIsExactlyWhatMayBecomeAFence(input: string, k: nat)
    requires !HasFence(input) && IsLongestBorder(input, FENCE, k)
    ensures k <= |input|
    ensures forall p: nat, next | p < |input| - k :: !At(input + next, p, FENCE)
    ensures At(input + FENCE[k..], |input| - k, FENCE)
  {
    forall p: nat, next | p < |input| - k ensures !At(input + next, p, FENCE) {
      OccurrencesInHeldText(input, input[|input| - k..], next, FENCE, p);
    }
    assert (input + FENCE[k..])[|input| - k..] == FENCE[..k] + FENCE[k..];
  }
}

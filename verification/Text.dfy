/** The string operations of the source language that the tutor code relies on. */
module Text {
  /** What `str.strip` removes: the code points for which `str.isspace` holds. */
  predicate IsSpace(c: char) {
    var n := c as int;
    || 9 <= n <= 13 || 28 <= n <= 32 || n == 0x85 || n == 0xA0 || n == 0x1680
    || 0x2000 <= n <= 0x200A || n == 0x2028 || n == 0x2029 || n == 0x202F || n == 0x205F || n == 0x3000
  }

  predicate Blank(s: string) {
    forall i | 0 <= i < |s| :: IsSpace(s[i])
  }

  predicate At(s: string, i: int, needle: string) {
    0 <= i && i + |needle| <= |s| && s[i..i + |needle|] == needle
  }

  /** `s.find(needle, i)`: the first occurrence at or after `i`, or -1. */
  function Find(s: string, needle: string, i: nat): (r: int)
    requires i <= |s|
    ensures r >= 0 ==> i <= r && At(s, r, needle) && forall j | i <= j < r :: !At(s, j, needle)
    ensures r < 0 ==> r == -1 && forall j | i <= j :: !At(s, j, needle)
    decreases |s| - i
  {
    if At(s, i, needle) then i else if i < |s| then Find(s, needle, i + 1) else -1
  }

  function SpacesEnd(s: string, i: nat): (r: nat)
    requires i <= |s|
    ensures i <= r <= |s| && forall j | i <= j < r :: IsSpace(s[j])
    ensures r == |s| || !IsSpace(s[r])
    decreases |s| - i
  {
    if i < |s| && IsSpace(s[i]) then SpacesEnd(s, i + 1) else i
  }

  function VisibleEnd(s: string, n: nat): (r: nat)
    requires n <= |s|
    ensures r <= n && forall j | r <= j < n :: IsSpace(s[j])
    ensures r == 0 || !IsSpace(s[r - 1])
  {
    if n > 0 && IsSpace(s[n - 1]) then VisibleEnd(s, n - 1) else n
  }

  function LStrip(s: string): string {
    s[SpacesEnd(s, 0)..]
  }

  function RStrip(s: string): (r: string)
    ensures r <= s && Blank(s[|r|..])
  {
    s[..VisibleEnd(s, |s|)]
  }

  function Strip(s: string): string {
    RStrip(LStrip(s))
  }

  /** Stripping takes whitespace off both ends, all of it and nothing else. */
  lemma StripSays(s: string) returns (a: nat)
    ensures a + |Strip(s)| <= |s| && Strip(s) == s[a..a + |Strip(s)|]
    ensures Blank(s[..a]) && Blank(s[a + |Strip(s)|..])
    ensures Strip(s) == "" || (!IsSpace(Strip(s)[0]) && !IsSpace(Strip(s)[|Strip(s)| - 1]))
  {
    a := SpacesEnd(s, 0);
    var rest := LStrip(s);
    assert Strip(s) == rest[..|Strip(s)|] && Blank(rest[|Strip(s)|..]);
    assert s[a + |Strip(s)|..] == rest[|Strip(s)|..];
  }

  /** `"".join(chunks)`. */
  function Concat(chunks: seq<string>): string {
    if chunks == [] then "" else Concat(chunks[..|chunks| - 1]) + chunks[|chunks| - 1]
  }

  lemma LStripConcat(p: string, r: string)
    ensures LStrip(p + r) == if Blank(p) then LStrip(r) else LStrip(p) + r
  {
    var k := SpacesEnd(p + r, 0);
    if Blank(p) {
      assert forall j | 0 <= j < |p| :: (p + r)[j] == p[j];
      forall j | 0 <= j < k - |p| ensures IsSpace(r[j]) {
        assert r[j] == (p + r)[|p| + j];
      }
      assert k - |p| == SpacesEnd(r, 0);
    } else {
      assert k == SpacesEnd(p, 0) by {
        assert forall j | 0 <= j < |p| :: (p + r)[j] == p[j];
      }
    }
  }

  lemma RStripConcat(p: string, r: string)
    ensures RStrip(p + r) == if Blank(r) then RStrip(p) else p + RStrip(r)
  {
    var k, n := VisibleEnd(p + r, |p + r|), VisibleEnd(r, |r|);
    assert forall j | 0 <= j < |r| :: (p + r)[|p| + j] == r[j];
    if Blank(r) {
      assert k == VisibleEnd(p, |p|) by {
        assert forall j | 0 <= j < |p| :: (p + r)[j] == p[j];
      }
    } else {
      assert k == |p| + n;
    }
  }

  /** What follows a text shows in the stripped whole exactly when it is not blank. */
  lemma StripOfConcat(p: string, r: string)
    ensures Strip(p) <= Strip(p + r)
    ensures Strip(p) == Strip(p + r) <==> Blank(r)
  {
    LStripConcat(p, r);
    if !Blank(p) {
      RStripConcat(LStrip(p), r);
    }
  }

  /** Dropping trailing whitespace does not change the stripped text. */
  lemma StripIgnoresTail(p: string, out: string)
    requires out <= p && Blank(p[|out|..])
    ensures Strip(out) == Strip(p)
  {
    assert p == out + p[|out|..];
    StripOfConcat(out, p[|out|..]);
  }

  /** A text is its stripped text with blanks on both sides. */
  lemma StripParts(s: string) returns (a: nat)
    ensures a + |Strip(s)| <= |s| && s[a..a + |Strip(s)|] == Strip(s)
    ensures Blank(s[..a]) && Blank(s[a + |Strip(s)|..])
  {
    a := SpacesEnd(s, 0);
    var rest := s[a..];
    var n := |Strip(s)|;
    assert rest[..n] == Strip(s);
    assert s[a + n..] == rest[n..];
  }

  /** Such an occurrence lies between the blanks. */
  lemma VisibleOccurrence(s: string, a: nat, b: nat, needle: string, i: nat)
    requires a <= b <= |s| && Blank(s[..a]) && Blank(s[b..]) && At(s, i, needle)
    requires needle != "" && !IsSpace(needle[0]) && !IsSpace(needle[|needle| - 1])
    ensures a <= i && i + |needle| <= b
  {
    var found, last := s[i..i + |needle|], i + |needle| - 1;
    assert s[i] == found[0] && s[last] == found[|needle| - 1];
    forall j | 0 <= j < a ensures IsSpace(s[j]) {
      assert s[j] == s[..a][j];
    }
    forall j | b <= j < |s| ensures IsSpace(s[j]) {
      assert s[j] == s[b..][j - b];
    }
  }

  /** An occurrence of a text that neither begins nor ends with whitespace survives stripping. */
  lemma OccurrenceInStripped(s: string, a: nat, needle: string, i: nat)
    requires a + |Strip(s)| <= |s| && s[a..a + |Strip(s)|] == Strip(s)
    requires Blank(s[..a]) && Blank(s[a + |Strip(s)|..])
    requires needle != "" && !IsSpace(needle[0]) && !IsSpace(needle[|needle| - 1])
    ensures At(s, i, needle) <==> i >= a && At(Strip(s), i - a, needle)
  {
    if At(s, i, needle) {
      VisibleOccurrence(s, a, a + |Strip(s)|, needle, i);
    }
    OccurrenceInside(s, a, Strip(s), needle, i);
  }

  lemma OccurrenceInside(s: string, a: nat, part: string, needle: string, i: nat)
    requires a + |part| <= |s| && s[a..a + |part|] == part
    ensures a <= i && i + |needle| <= a + |part| ==> (At(s, i, needle) <==> At(part, i - a, needle))
  {
    if a <= i && i + |needle| <= a + |part| {
      var u, v := part[i - a..i - a + |needle|], s[i..i + |needle|];
      forall k | 0 <= k < |needle| ensures u[k] == v[k] {
        assert part[i - a + k] == s[a..a + |part|][i - a + k];
      }
      assert u == v;
    }
  }

  lemma FindInStripped(s: string, a: nat, needle: string)
    requires a + |Strip(s)| <= |s| && s[a..a + |Strip(s)|] == Strip(s)
    requires Blank(s[..a]) && Blank(s[a + |Strip(s)|..])
    requires needle != "" && !IsSpace(needle[0]) && !IsSpace(needle[|needle| - 1])
    ensures var q := Find(Strip(s), needle, 0);
            Find(s, needle, 0) == if q < 0 then -1 else a + q
  {
    var p, q := Find(s, needle, 0), Find(Strip(s), needle, 0);
    if p >= 0 {
      OccurrenceInStripped(s, a, needle, p);
    }
    if q >= 0 {
      OccurrenceInStripped(s, a, needle, a + q);
    }
  }

  lemma BlankInFront(blank: string, s: string)
    requires Blank(blank)
    ensures Strip(blank + s) == Strip(s)
  {
    LStripConcat(blank, s);
  }

  lemma BlankBehind(s: string, blank: string)
    requires Blank(blank)
    ensures Strip(s + blank) == Strip(s)
  {
    StripOfConcat(s, blank);
  }

  lemma StripAgain(s: string)
    ensures Strip(Strip(s)) == Strip(s)
  {
    var a := StripParts(s);
    var full := Strip(s);
    var lead, tail := s[..a], s[a + |full|..];
    assert s == lead + (full + tail);
    BlankInFront(lead, full + tail);
    BlankBehind(full, tail);
  }

  /** A text that neither begins nor ends with whitespace is what is left of it and the blanks around it. */
  lemma StripOfVisible(s: string, tail: string)
    requires s != "" && !IsSpace(s[0]) && !IsSpace(s[|s| - 1]) && Blank(tail)
    ensures Strip(s + tail) == s
  {
    BlankBehind(s, tail);
    assert SpacesEnd(s, 0) == 0 && VisibleEnd(s, |s|) == |s|;
  }
}

/** Positional numerals: how counters become the text of ids, and back. */
module Numerals {
  /** The two number systems in use: base ten and base thirty-six. */
  datatype Base = Ten | ThirtySix {
    function Radix(): nat { if Ten? then 10 else 36 }
    function Times(n: nat): nat { if Ten? then n * 10 else n * 36 }
    function Quotient(n: nat): nat { if Ten? then n / 10 else n / 36 }
    function Remainder(n: nat): (r: nat)
      ensures r < Radix()
    {
      if Ten? then n % 10 else n % 36
    }
  }

  function Pow(b: Base, k: nat): (p: nat)
    ensures p >= 1
  {
    if k == 0 then 1 else b.Times(Pow(b, k - 1))
  }

  function Digit(d: nat): char
    requires d < 36
  {
    if d < 10 then '0' + d as char else 'a' + (d - 10) as char
  }

  lemma DigitsAre(d: nat)
    requires d < 36
    ensures Digit(d) == "0123456789abcdefghijklmnopqrstuvwxyz"[d]
  {
  }

  function DigitValue(c: char): (d: int)
    ensures -1 <= d < 36
    ensures d >= 0 ==> Digit(d) == c
  {
    if '0' <= c <= '9' then (c - '0') as int
    else if 'a' <= c <= 'z' then (c - 'a') as int + 10
    else -1
  }

  predicate AllDigits(s: string, b: Base) {
    forall i | 0 <= i < |s| :: 0 <= DigitValue(s[i]) < b.Radix()
  }

  function Render(n: nat, b: Base): (s: string)
    ensures s != ""
  {
    if n < b.Radix() then [Digit(n)] else Render(b.Quotient(n), b) + [Digit(b.Remainder(n))]
  }

  function Value(s: string, b: Base): nat
    requires AllDigits(s, b)
  {
    if s == "" then 0 else b.Times(Value(s[..|s| - 1], b)) + DigitValue(s[|s| - 1])
  }

  lemma DigitRoundTrip(d: nat)
    requires d < 36
    ensures DigitValue(Digit(d)) == d
  {
  }

  lemma ValueOfAppend(s: string, d: nat, b: Base)
    requires AllDigits(s, b) && d < b.Radix()
    ensures AllDigits(s + [Digit(d)], b) && Value(s + [Digit(d)], b) == b.Times(Value(s, b)) + d
  {
    DigitRoundTrip(d);
    assert (s + [Digit(d)])[..|s|] == s;
  }

  lemma {:induction false} ValueOfRender(n: nat, b: Base)
    ensures AllDigits(Render(n, b), b) && Value(Render(n, b), b) == n
  {
    if n < b.Radix() {
      ValueOfAppend("", n, b);
      assert "" + [Digit(n)] == Render(n, b);
    } else {
      ValueOfRender(b.Quotient(n), b);
      ValueOfAppend(Render(b.Quotient(n), b), b.Remainder(n), b);
    }
  }

  lemma RenderInjective(m: nat, n: nat, b: Base)
    requires Render(m, b) == Render(n, b)
    ensures m == n
  {
    ValueOfRender(m, b);
    ValueOfRender(n, b);
  }

  lemma {:induction false} NoLeadingZero(n: nat, b: Base)
    requires n > 0
    ensures Render(n, b)[0] != '0'
  {
    if n < b.Radix() {
    } else {
      NoLeadingZero(b.Quotient(n), b);
    }
  }

  lemma {:induction false} RenderLength(n: nat, b: Base, k: nat)
    requires k >= 1 && n < Pow(b, k)
    ensures |Render(n, b)| <= k
  {
    if n < b.Radix() {
    } else {
      assert k > 1 by {
        assert Pow(b, 0) == 1;
      }
      RenderLength(b.Quotient(n), b, k - 1);
    }
  }

  lemma {:induction false} RenderIsLonger(n: nat, b: Base, k: nat)
    requires n >= Pow(b, k)
    ensures |Render(n, b)| > k
  {
    if k == 0 {
    } else {
      RenderIsLonger(b.Quotient(n), b, k - 1);
    }
  }

  /** `s.rjust(width, "0")`. */
  function PadLeft(s: string, width: nat): (r: string)
    ensures |r| == if |s| >= width then |s| else width
    decreases width - |s|
  {
    if |s| >= width then s else PadLeft("0" + s, width)
  }

  lemma {:induction false} PaddedWithZeros(s: string, width: nat)
    ensures var r := PadLeft(s, width);
      r[|r| - |s|..] == s && forall i | 0 <= i < |r| - |s| :: r[i] == '0'
    decreases width - |s|
  {
    if |s| >= width {
    } else {
      var t := "0" + s;
      PaddedWithZeros(t, width);
      var r := PadLeft(t, width);
      var k := |r| - |t|;
      assert PadLeft(s, width) == r;
      assert r[k..] == t && r[k] == r[k..][0] == '0';
      assert r[k + 1..] == r[k..][1..] == t[1..] == s;
    }
  }

  lemma {:induction false} ZeroInFront(s: string, b: Base)
    requires AllDigits(s, b)
    ensures AllDigits("0" + s, b) && Value("0" + s, b) == Value(s, b)
  {
    if s == "" {
      assert "0"[..0] == "";
      assert "0" + s == "0";
    } else {
      assert ("0" + s)[..|s|] == "0" + s[..|s| - 1];
      ZeroInFront(s[..|s| - 1], b);
    }
  }

  lemma {:induction false} PaddingKeepsValue(s: string, width: nat, b: Base)
    requires AllDigits(s, b)
    ensures AllDigits(PadLeft(s, width), b) && Value(PadLeft(s, width), b) == Value(s, b)
    decreases width - |s|
  {
    if |s| >= width {
    } else {
      ZeroInFront(s, b);
      PaddingKeepsValue("0" + s, width, b);
    }
  }

  /** Padded numerals of two numbers are equal only if the numbers are. */
  lemma PaddedInjective(m: nat, n: nat, width: nat, b: Base)
    requires PadLeft(Render(m, b), width) == PadLeft(Render(n, b), width)
    ensures m == n
  {
    ValueOfRender(m, b);
    ValueOfRender(n, b);
    PaddingKeepsValue(Render(m, b), width, b);
    PaddingKeepsValue(Render(n, b), width, b);
  }
}

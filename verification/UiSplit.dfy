/**
 What is saved of a reply once it is complete: the text with every study-card fence removed and the
 raw text of each card. The saved text is compared with what was streamed.
 */
module UiSplit {
  import opened Text
  import opened UiStream

  const CLOSE := "\n```"

  /** The end of the run of spaces and tabs at `i`. */
  function SkipBlanks(s: string, i: nat): (r: nat)
    requires i <= |s|
    ensures i <= r <= |s|
    ensures forall j | i <= j < r :: s[j] == ' ' || s[j] == '\t'
    ensures r == |s| || (s[r] != ' ' && s[r] != '\t')
    decreases |s| - i
  {
    if i < |s| && (s[i] == ' ' || s[i] == '\t') then SkipBlanks(s, i + 1) else i
  }

  /** Where the card text begins if a fence opens at `i`, else -1: the marker, blanks, a newline. */
  function OpensAt(s: string, i: nat): (b: int)
    ensures b >= 0 ==> At(s, i, FENCE) && i + |FENCE| < b <= |s|
  {
    if At(s, i, FENCE) then
      var e := SkipBlanks(s, i + |FENCE|);
      if e < |s| && s[e] == '\n' then e + 1 else -1
    else -1
  }

  /** The pattern's `$`: the end of the text, or just before a final newline. */
  predicate AtEnd(s: string, e: nat) {
    e == |s| || (e + 1 == |s| && s[e] == '\n')
  }

  predicate ClosesAt(s: string, e: nat) {
    At(s, e, CLOSE) || AtEnd(s, e)
  }

  /** The shortest card text that starts at `b` ends here. */
  function CardEnd(s: string, b: nat): (e: nat)
    requires b <= |s|
    ensures b <= e <= |s| && ClosesAt(s, e)
    ensures forall j: nat | b <= j < e :: !ClosesAt(s, j)
    decreases |s| - b
  {
    if ClosesAt(s, b) then b else CardEnd(s, b + 1)
  }

  /** It is the first place where a closing fence follows, or nothing but a final newline, or nothing. */
  lemma CardEndSays(s: string, b: nat)
    requires b <= |s|
    ensures var e := CardEnd(s, b);
      && (At(s, e, "\n```") || s[e..] == "" || s[e..] == "\n")
      && forall j | b <= j < e :: !At(s, j, "\n```") && s[j..] != "" && s[j..] != "\n"
  {
    forall j: nat | b <= j <= |s|
      ensures ClosesAt(s, j) <==> At(s, j, "\n```") || s[j..] == "" || s[j..] == "\n"
    {
      assert s[j..] == "\n" <==> j + 1 == |s| && s[j] == '\n';
    }
  }

  /** A marker opens a fence if only blanks follow it on its line. */
  lemma OpenerSays(s: string, i: nat, e: nat)
    requires i + 5 <= e < |s| && s[i..i + 5] == "```ui" && s[e] == '\n'
    requires forall j | i + 5 <= j < e :: s[j] == ' ' || s[j] == '\t'
    ensures OpensAt(s, i) == e + 1
  {
  }

  function FenceEnd(s: string, b: nat): (e: nat)
    requires b <= |s|
    ensures b <= e <= |s|
  {
    var e := CardEnd(s, b);
    if At(s, e, CLOSE) then e + |CLOSE| else e
  }

  /** The text from `i` on with every fence cut out. */
  function WithoutFences(s: string, i: nat): string
    requires i <= |s|
    decreases |s| - i
  {
    if i == |s| then ""
    else if OpensAt(s, i) >= 0 then WithoutFences(s, FenceEnd(s, OpensAt(s, i)))
    else [s[i]] + WithoutFences(s, i + 1)
  }

  /** The card texts from `i` on, in order. */
  function Cards(s: string, i: nat): seq<string>
    requires i <= |s|
    decreases |s| - i
  {
    if i == |s| then []
    else if OpensAt(s, i) >= 0 then
      [s[OpensAt(s, i)..CardEnd(s, OpensAt(s, i))]] + Cards(s, FenceEnd(s, OpensAt(s, i)))
    else Cards(s, i + 1)
  }

  /** A stretch of a reply: text that is kept, or a fence that is cut out. */
  datatype Part = Kept(text: string) | Cut(opener: string, card: string, closer: string)

  ghost predicate IsFencePart(part: Part) {
    part.Cut? ==>
      && (part.closer == "\n```" || part.closer == "")
      && 5 < |part.opener| && part.opener[..5] == "```ui" && part.opener[|part.opener| - 1] == '\n'
      && forall j | 5 <= j < |part.opener| - 1 :: part.opener[j] == ' ' || part.opener[j] == '\t'
  }

  function Whole(parts: seq<Part>): string {
    if parts == [] then ""
    else
      (match parts[0]
       case Kept(text) => text
       case Cut(opener, card, closer) => opener + card + closer) + Whole(parts[1..])
  }

  function KeptText(parts: seq<Part>): string {
    if parts == [] then "" else (if parts[0].Kept? then parts[0].text else "") + KeptText(parts[1..])
  }

  function CutCards(parts: seq<Part>): seq<string> {
    if parts == [] then [] else (if parts[0].Cut? then [parts[0].card] else []) + CutCards(parts[1..])
  }

  /** The opener at `i`, its card and its closer. */
  function FenceAt(s: string, i: nat): Part
    requires i <= |s| && OpensAt(s, i) >= 0
  {
    var b := OpensAt(s, i);
    Cut(s[i..b], s[b..CardEnd(s, b)], s[CardEnd(s, b)..FenceEnd(s, b)])
  }

  lemma FenceAtIsFence(s: string, i: nat)
    requires i <= |s| && OpensAt(s, i) >= 0
    ensures IsFencePart(FenceAt(s, i))
  {
    var b := OpensAt(s, i);
    assert s[i..b][..|FENCE|] == s[i..i + |FENCE|];
  }

  /** The parts from `i` on. */
  function Parts(s: string, i: nat): seq<Part>
    requires i <= |s|
    decreases |s| - i
  {
    if i == |s| then []
    else if OpensAt(s, i) >= 0 then
      [FenceAt(s, i)] + Parts(s, FenceEnd(s, OpensAt(s, i)))
    else [Kept([s[i]])] + Parts(s, i + 1)
  }

  lemma WholeOfFence(s: string, i: nat, b: nat, e: nat, f: nat)
    requires i <= b <= e <= f <= |s|
    ensures Whole([Cut(s[i..b], s[b..e], s[e..f])]) + s[f..] == s[i..]
  {
    var part := Cut(s[i..b], s[b..e], s[e..f]);
    assert [part][1..] == [];
    assert Whole([part]) == s[i..b] + s[b..e] + s[e..f];
    assert s[i..b] + s[b..e] + s[e..f] == s[i..f];
  }

  lemma WholeInFront(part: Part, parts: seq<Part>)
    ensures Whole([part] + parts) == Whole([part]) + Whole(parts)
  {
    assert ([part] + parts)[1..] == parts && [part][1..] == [];
  }

  lemma {:induction false} WholeFromFence(s: string, i: nat)
    requires i < |s| && OpensAt(s, i) >= 0
    requires var f := FenceEnd(s, OpensAt(s, i)); Whole(Parts(s, f)) == s[f..]
    ensures Whole(Parts(s, i)) == s[i..]
  {
    var b := OpensAt(s, i);
    WholeInFront(FenceAt(s, i), Parts(s, FenceEnd(s, b)));
    WholeOfFence(s, i, b, CardEnd(s, b), FenceEnd(s, b));
  }

  lemma {:induction false} WholeOfKept(text: string, parts: seq<Part>)
    ensures Whole([Kept(text)] + parts) == text + Whole(parts)
  {
    assert ([Kept(text)] + parts)[1..] == parts;
  }

  lemma {:induction false} WholeFromKept(s: string, i: nat)
    requires i < |s| && OpensAt(s, i) < 0 && Whole(Parts(s, i + 1)) == s[i + 1..]
    ensures Whole(Parts(s, i)) == s[i..]
  {
    var first, rest, all := [s[i]], Parts(s, i + 1), Parts(s, i);
    assert all == [Kept(first)] + rest;
    WholeOfKept(first, rest);
    CharInFront(s, i);
  }

  lemma CharInFront(s: string, i: nat)
    requires i < |s|
    ensures [s[i]] + s[i + 1..] == s[i..]
  {
  }

  /** Splitting loses nothing: the reply is the sequence of its kept texts and its fences. */
  lemma {:induction false} PartsMakeUpTheContent(s: string, i: nat)
    requires i <= |s|
    ensures Whole(Parts(s, i)) == s[i..]
    decreases |s| - i
  {
    if i == |s| {
    } else if OpensAt(s, i) >= 0 {
      PartsMakeUpTheContent(s, FenceEnd(s, OpensAt(s, i)));
      WholeFromFence(s, i);
    } else {
      PartsMakeUpTheContent(s, i + 1);
      WholeFromKept(s, i);
    }
  }

  lemma {:induction false} KeptAndCutInFront(part: Part, parts: seq<Part>)
    ensures KeptText([part] + parts) == (if part.Kept? then part.text else "") + KeptText(parts)
    ensures CutCards([part] + parts) == (if part.Cut? then [part.card] else []) + CutCards(parts)
  {
    assert ([part] + parts)[1..] == parts;
  }

  ghost predicate KeepsAndCuts(s: string, i: nat)
    requires i <= |s|
  {
    KeptText(Parts(s, i)) == WithoutFences(s, i) && CutCards(Parts(s, i)) == Cards(s, i)
  }

  lemma {:induction false} KeepsAndCutsStep(s: string, i: nat)
    requires i < |s|
    requires KeepsAndCuts(s, if OpensAt(s, i) >= 0 then FenceEnd(s, OpensAt(s, i)) else i + 1)
    ensures KeepsAndCuts(s, i)
  {
    if OpensAt(s, i) >= 0 {
      KeptAndCutInFront(FenceAt(s, i), Parts(s, FenceEnd(s, OpensAt(s, i))));
    } else {
      KeptAndCutInFront(Kept([s[i]]), Parts(s, i + 1));
    }
  }

  /** What is saved as text is the kept part of the reply, and the cards are the insides of its fences, in order. */
  lemma {:induction false} KeptAndCut(s: string, i: nat)
    requires i <= |s|
    ensures KeptText(Parts(s, i)) == WithoutFences(s, i) && CutCards(Parts(s, i)) == Cards(s, i)
    decreases |s| - i
  {
    if i == |s| {
    } else {
      KeptAndCut(s, if OpensAt(s, i) >= 0 then FenceEnd(s, OpensAt(s, i)) else i + 1);
      KeepsAndCutsStep(s, i);
    }
  }

  lemma {:induction false} CutPartsAreFences(s: string, i: nat)
    requires i <= |s|
    ensures forall part | part in Parts(s, i) :: IsFencePart(part)
    decreases |s| - i
  {
    if i == |s| {
    } else if OpensAt(s, i) >= 0 {
      FenceAtIsFence(s, i);
      CutPartsAreFences(s, FenceEnd(s, OpensAt(s, i)));
    } else {
      CutPartsAreFences(s, i + 1);
    }
  }

  /** The first part reaches to where the others begin. */
  lemma {:induction false} FirstPartLength(s: string, i: nat)
    requires i < |s|
    ensures i + |Whole([Parts(s, i)[0]])| == if OpensAt(s, i) >= 0 then FenceEnd(s, OpensAt(s, i)) else i + 1
  {
    var part := Parts(s, i)[0];
    assert [part][1..] == [];
    if OpensAt(s, i) >= 0 {
      var b := OpensAt(s, i);
      WholeOfFence(s, i, b, CardEnd(s, b), FenceEnd(s, b));
    }
  }

  /** Where part k of the parts from `i` on begins. */
  function PartStart(s: string, i: nat, k: nat): nat
    requires i <= |s| && k <= |Parts(s, i)|
  {
    i + |Whole(Parts(s, i)[..k])|
  }

  /** The part is the character at p, if no fence opens there, or else has the shortest card that ends. */
  predicate IsPartAt(s: string, p: nat, part: Part)
    requires p < |s|
  {
    var b := OpensAt(s, p);
    if b < 0 then part == Kept([s[p]]) else part.Cut? && part.opener == s[p..b] && part.card == s[b..CardEnd(s, b)]
  }

  /** Part k from `i` on is part k - 1 from where the first part ends. */
  lemma {:induction false} LaterPart(s: string, i: nat, next: nat, k: nat)
    requires i < |s| && 0 < k < |Parts(s, i)|
    requires next == if OpensAt(s, i) >= 0 then FenceEnd(s, OpensAt(s, i)) else i + 1
    ensures |Parts(s, i)| == 1 + |Parts(s, next)| && Parts(s, i)[k] == Parts(s, next)[k - 1]
    ensures PartStart(s, i, k) == PartStart(s, next, k - 1)
  {
    var first, rest := Parts(s, i)[0], Parts(s, next);
    assert Parts(s, i) == [first] + rest;
    FirstPartLength(s, i);
    assert Parts(s, i)[..k] == [first] + rest[..k - 1];
    WholeInFront(first, rest[..k - 1]);
  }

  lemma {:induction false} FirstPartSays(s: string, i: nat)
    requires i < |s|
    ensures PartStart(s, i, 0) == i && IsPartAt(s, i, Parts(s, i)[0])
  {
    assert Parts(s, i)[..0] == [];
  }

  /**
   Nothing that opens a fence is kept, and everything else is: each part is the character at its place if no fence
   opens there, or else that fence.
   */
  lemma {:induction false} PartsSay(s: string, i: nat, k: nat)
    requires i <= |s| && k < |Parts(s, i)|
    ensures PartStart(s, i, k) < |s| && IsPartAt(s, PartStart(s, i, k), Parts(s, i)[k])
    decreases |s| - i
  {
    if k == 0 {
      FirstPartSays(s, i);
    } else {
      var next := if OpensAt(s, i) >= 0 then FenceEnd(s, OpensAt(s, i)) else i + 1;
      LaterPart(s, i, next, k);
      var p, part := PartStart(s, next, k - 1), Parts(s, next)[k - 1];
      PartsSay(s, next, k - 1);
      assert p == PartStart(s, i, k) && part == Parts(s, i)[k];
      assert p < |s| && IsPartAt(s, p, part);
    }
  }

  function SavedText(content: string): string {
    Strip(WithoutFences(content, 0))
  }

  lemma {:induction false} TextBeforeFencesStays(s: string, i: nat, p: nat)
    requires i <= p <= |s| && forall j: nat | i <= j < p :: !At(s, j, FENCE)
    ensures WithoutFences(s, i) == s[i..p] + WithoutFences(s, p)
    decreases p - i
  {
    if i >= p {
    } else {
      TextBeforeFencesStays(s, i + 1, p);
    }
  }

  /**
   However a reply was cut into pieces, what the student saw is the beginning of what is saved, and
   it is all of it exactly when nothing but whitespace and well-opened fences follows the first
   fence marker.
   */
  lemma StreamedTextStartsSavedText(content: string, out: string)
    requires IsStreamOf(content, out)
    ensures Strip(out) <= SavedText(content)
    ensures Strip(out) == SavedText(content)
            <==> !HasFence(content) || Blank(WithoutFences(content, Find(content, FENCE, 0)))
  {
    var p := if HasFence(content) then Find(content, FENCE, 0) else |content|;
    TextBeforeFencesStays(content, 0, p);
    assert content[0..p] == content[..p];
    if HasFence(content) {
      assert content[..p][|out|..] == content[|out|..p];
      StripIgnoresTail(content[..p], out);
    } else {
      assert content[..p] == content && WithoutFences(content, |content|) == "";
    }
    StripOfConcat(content[..p], WithoutFences(content, p));
  }

  /** A stream cut at the first marker shows, but for blanks at its ends, what precedes it in the stripped reply. */
  lemma CutOfStripped(lead: string, cut: string, out: string)
    requires Blank(lead) && out <= lead + cut && Blank((lead + cut)[|out|..])
    ensures Strip(cut) == Strip(out)
  {
    StripIgnoresTail(lead + cut, out);
    BlankInFront(lead, cut);
  }

  lemma CutInside(reply: string, a: nat, full: string, q: nat, out: string)
    requires a + |full| <= |reply| && reply[a..a + |full|] == full && q <= |full| && Blank(reply[..a])
    requires out <= reply[..a + q] && Blank(reply[|out|..a + q])
    ensures Strip(full[..q]) == Strip(out)
  {
    assert reply[..a + q] == reply[..a] + full[..q];
    assert reply[..a + q][|out|..] == reply[|out|..a + q];
    CutOfStripped(reply[..a], full[..q], out);
  }

  lemma StreamOfInside(reply: string, a: nat, full: string, out: string) returns (cut: string)
    requires a + |full| <= |reply| && reply[a..a + |full|] == full && Blank(reply[..a]) && HasFence(full)
    requires Find(reply, FENCE, 0) == a + Find(full, FENCE, 0) && IsCutAtFence(reply, out)
    ensures IsCutAtFence(full, cut) && Strip(cut) == Strip(out)
  {
    var q := Find(full, FENCE, 0);
    cut := full[..q];
    assert full[|cut|..q] == "";
    CutInside(reply, a, full, q, out);
  }

  /** Stripping a reply changes its stream only in whitespace at the ends. */
  lemma StreamOfStripped(reply: string, out: string) returns (cut: string)
    requires IsStreamOf(reply, out)
    ensures IsStreamOf(Strip(reply), cut) && Strip(cut) == Strip(out)
  {
    var a := StripParts(reply);
    FindInStripped(reply, a, FENCE);
    if HasFence(Strip(reply)) {
      cut := StreamOfInside(reply, a, Strip(reply), out);
    } else {
      cut := Strip(reply);
      StripAgain(reply);
    }
  }

  /**
   The whole way of a reply: its pieces are streamed as they come, and the stripped whole is what is split and
   saved. However it was cut into pieces, what the student saw is the beginning of what is saved, and it is all
   of it exactly when nothing but whitespace and well-opened fences follows the first marker of the stripped
   reply.
   */
  lemma ReplyStartsSavedText(reply: string, out: string)
    requires IsStreamOf(reply, out)
    ensures var full := Strip(reply);
            && Strip(out) <= SavedText(full)
            && (Strip(out) == SavedText(full)
                <==> !HasFence(full) || Blank(WithoutFences(full, Find(full, FENCE, 0))))
  {
    var cut := StreamOfStripped(reply, out);
    StreamedTextStartsSavedText(Strip(reply), cut);
  }

  lemma MarkerIsVisible(s: string, i: nat)
    requires At(s, i, FENCE)
    ensures s[i] == '`' && !IsSpace(s[i])
  {
    assert s[i] == s[i..i + |FENCE|][0];
    assert !IsSpace('`');
  }

  lemma {:induction false} NoFenceInBlank(s: string, i: nat)
    requires i <= |s| && Blank(s[i..])
    ensures WithoutFences(s, i) == s[i..]
    decreases |s| - i
  {
    if i >= |s| {
    } else {
      assert s[i] == s[i..][0] && IsSpace(s[i]);
      if At(s, i, FENCE) {
        MarkerIsVisible(s, i);
      }
      assert s[i + 1..] == s[i..][1..];
      NoFenceInBlank(s, i + 1);
    }
  }

  lemma OnlyFenceIsBlank(s: string, p: nat, b: nat)
    requires p < |s| && OpensAt(s, p) == b && b <= |s|
    requires Blank(s[FenceEnd(s, b)..])
    ensures Blank(WithoutFences(s, p))
  {
    NoFenceInBlank(s, FenceEnd(s, b));
  }

  lemma CardOpens(s: string, p: nat, pad: string)
    requires At(s, p, FENCE + pad + "\n")
    requires forall i | 0 <= i < |pad| :: pad[i] == ' ' || pad[i] == '\t'
    ensures OpensAt(s, p) == p + |FENCE| + |pad| + 1
  {
    var opener := FENCE + pad + "\n";
    assert s[p..p + |FENCE|] == opener[..|FENCE|] == FENCE;
    forall i | 0 <= i < |opener| ensures s[p + i] == opener[i] {
      assert s[p..p + |opener|][i] == s[p + i];
    }
    var e := p + |FENCE| + |pad|;
    assert s[e] == opener[|FENCE| + |pad|] == '\n';
    forall j | p + |FENCE| <= j < e ensures s[j] == ' ' || s[j] == '\t' {
      assert s[j] == opener[j - p] == pad[j - p - |FENCE|];
    }
  }

  lemma CardCloses(s: string, b: nat, card: string)
    requires At(s, b, card + CLOSE)
    requires forall j | 0 <= j < |card| :: !At(card + CLOSE, j, CLOSE)
    ensures FenceEnd(s, b) == b + |card| + |CLOSE|
  {
    var body, e := card + CLOSE, b + |card|;
    Subslice(s, b, |body|, |card|, |body|);
    assert ClosesAt(s, e);
    forall j: nat | b <= j < e ensures !ClosesAt(s, j) {
      Subslice(s, b, |body|, j - b, j - b + |CLOSE|);
      assert !At(body, j - b, CLOSE);
    }
    var c := CardEnd(s, b);
    assert ClosesAt(s, c);
  }

  lemma Subslice(s: string, b: nat, n: nat, from: nat, to: nat)
    requires from <= to <= n && b + n <= |s|
    ensures s[b..b + n][from..to] == s[b + from..b + to]
  {
    var whole := s[b..b + n];
    forall k | 0 <= k < to - from ensures whole[from..to][k] == s[b + from..b + to][k] {
      assert whole[from..to][k] == whole[from + k] == s[b + from + k];
    }
  }

  lemma {:induction false} CardIsBlank(content: string, p: nat, pad: string, card: string)
    requires At(content, p, FENCE + pad + "\n")
    requires forall i | 0 <= i < |pad| :: pad[i] == ' ' || pad[i] == '\t'
    requires At(content, p + |FENCE| + |pad| + 1, card + CLOSE)
    requires forall j | 0 <= j < |card| :: !At(card + CLOSE, j, CLOSE)
    requires Blank(content[p + |FENCE| + |pad| + 1 + |card| + |CLOSE|..])
    ensures Blank(WithoutFences(content, p))
  {
    CardOpens(content, p, pad);
    CardCloses(content, p + |FENCE| + |pad| + 1, card);
    OnlyFenceIsBlank(content, p, p + |FENCE| + |pad| + 1);
  }

  /** A reply that ends with one well-formed card streams exactly the text that is saved. */
  lemma {:induction false} OneCardAtTheEnd(
    reply: string, content: string, p: nat, pad: string, card: string, out: string)
    requires content == Strip(reply) && p == Find(content, FENCE, 0)
    requires At(content, p, FENCE + pad + "\n")
    requires forall i | 0 <= i < |pad| :: pad[i] == ' ' || pad[i] == '\t'
    requires At(content, p + |FENCE| + |pad| + 1, card + CLOSE)
    requires forall j | 0 <= j < |card| :: !At(card + CLOSE, j, CLOSE)
    requires Blank(content[p + |FENCE| + |pad| + 1 + |card| + |CLOSE|..])
    requires IsStreamOf(reply, out)
    ensures Strip(out) == SavedText(content)
  {
    CardIsBlank(content, p, pad, card);
    ReplyStartsSavedText(reply, out);
  }

  lemma OpenCardIsBlank(s: string, p: nat, b: nat)
    requires p < |s| && OpensAt(s, p) == b && b <= |s|
    requires forall j: nat | b <= j :: !At(s, j, CLOSE)
    ensures Blank(WithoutFences(s, p))
  {
    OnlyFenceIsBlank(s, p, b);
  }

  /** A card left open at the end of the reply is dropped from both. */
  lemma OpenCardAtTheEnd(reply: string, content: string, p: nat, b: nat, out: string)
    requires content == Strip(reply) && p == Find(content, FENCE, 0) && p < |content|
    requires OpensAt(content, p) == b && b <= |content|
    requires forall j: nat | b <= j :: !At(content, j, CLOSE)
    requires IsStreamOf(reply, out)
    ensures Strip(out) == SavedText(content)
  {
    OpenCardIsBlank(content, p, b);
    ReplyStartsSavedText(reply, out);
  }

  lemma BadMarkerIsNotBlank(s: string, p: nat)
    requires At(s, p, FENCE) && OpensAt(s, p) < 0
    ensures !Blank(WithoutFences(s, p))
  {
    MarkerIsVisible(s, p);
    assert WithoutFences(s, p)[0] == s[p];
  }

  /**
   A marker that does not open a fence (anything but blanks before the end of its line) stops the
   stream for good, yet stays in the saved text: the student saw strictly less than was saved.
   */
  lemma BadMarkerStopsTheStream(reply: string, content: string, p: nat, out: string)
    requires content == Strip(reply) && p == Find(content, FENCE, 0) && OpensAt(content, p) < 0
    requires IsStreamOf(reply, out)
    ensures Strip(out) < SavedText(content)
  {
    BadMarkerIsNotBlank(content, p);
    ReplyStartsSavedText(reply, out);
  }

  lemma MarkerPosition(s: string, p: nat)
    requires At(s, p, FENCE) && forall j | 0 <= j < p :: s[j] != '`'
    ensures Find(s, FENCE, 0) == p
  {
    var q := Find(s, FENCE, 0);
    assert q >= 0 && s[q] == s[q..q + |FENCE|][0] == '`';
  }

  /** A marker followed by text: the student saw "Hi", and the marker and the text after it are saved too. */
  lemma MarkerWithTextOnItsLine()
    ensures var reply := "Hi ```ui x";
            && IsStreamOf(reply, "Hi") && Strip("Hi") < SavedText(Strip(reply))
  {
    var reply := "Hi ```ui x";
    StripOfVisible(reply, "");
    assert reply + "" == reply;
    assert reply[3..8] == FENCE;
    MarkerPosition(reply, 3);
    assert reply[..3] == "Hi ";
    assert reply[2..3] == " " && IsSpace(' ');
    BadMarkerStopsTheStream(reply, reply, 3, "Hi");
  }

  /**
   A reply that was stopped right after an opener: in the streamed text the opener is well formed, but the
   stripped reply has lost the newline that makes it one, so the marker is saved as text.
   */
  lemma {:induction false} OpenerAtTheVeryEnd()
    ensures var reply := "Hi\n```ui\n";
            && IsStreamOf(reply, "Hi")
            && Blank(WithoutFences(reply, 3))
            && Strip("Hi") < SavedText(Strip(reply))
  {
    var full := "Hi\n```ui";
    var reply := full + "\n";
    assert reply == "Hi\n```ui\n";
    StripOfVisible(full, "\n");
    OpenerStreams(reply);
    OpenerWithoutNewline(full);
    BadMarkerStopsTheStream(reply, full, 3, "Hi");
  }

  lemma {:induction false} OpenerWithoutNewline(full: string)
    requires full == "Hi\n```ui"
    ensures Find(full, FENCE, 0) == 3 && OpensAt(full, 3) < 0
  {
    assert |full| == 8 && full[3..8] == FENCE;
    MarkerPosition(full, 3);
    assert SkipBlanks(full, 8) == 8;
  }

  lemma {:induction false} OpenerStreams(reply: string)
    requires reply == "Hi\n```ui\n"
    ensures IsStreamOf(reply, "Hi") && Blank(WithoutFences(reply, 3))
  {
    assert reply[3..8] == FENCE;
    MarkerPosition(reply, 3);
    assert reply[..3] == "Hi\n";
    assert reply[2..3] == "\n" && IsSpace('\n');
    assert OpensAt(reply, 3) == 9;
  }
}

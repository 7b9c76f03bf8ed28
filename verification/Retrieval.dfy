/**
 The retrieval part of an answer: find documents, grade them, rewrite the question while none is kept, and
 rank what was kept. Search results, grades and verdicts are whatever the outside gives at each step.
 Documents are told apart by number.
 */
module Retrieval {
  import opened Wrappers
  import opened StableSort

  datatype Scored<T> = Scored(item: T, score: real)

  // ----- Ranking by score -----

  /** Items with their scores; those without one are dropped, and so is what the shorter list does not reach. */
  function Paired<T>(items: seq<T>, scores: seq<Option<real>>): seq<Scored<T>> {
    if items == [] || scores == [] then []
    else (if scores[0].Some? then [Scored(items[0], scores[0].value)] else []) + Paired(items[1..], scores[1..])
  }

  function Descending<T>(x: Scored<T>): real {
    -x.score
  }

  function Clip(k: int, n: nat): (c: nat)
    ensures c <= n && (c == n || c as int == k || (k < 0 && c == 0))
  {
    if k <= 0 then 0 else if k <= n then k else n
  }

  /** `order_by_noul_scores`, before items and scores are taken apart again. */
  function Ranked<T>(items: seq<T>, scores: seq<Option<real>>, topK: int): seq<Scored<T>> {
    var all := Sort(Paired(items, scores), Descending<T>);
    all[..Clip(topK, |all|)]
  }

  function ItemsOf<T>(s: seq<Scored<T>>): (r: seq<T>)
    ensures |r| == |s| && forall i | 0 <= i < |s| :: r[i] == s[i].item
  {
    seq(|s|, i requires 0 <= i < |s| => s[i].item)
  }

  function ScoresOf<T>(s: seq<Scored<T>>): (r: seq<real>)
    ensures |r| == |s| && forall i | 0 <= i < |s| :: r[i] == s[i].score
  {
    seq(|s|, i requires 0 <= i < |s| => s[i].score)
  }

  /** Increasing positions. */
  ghost predicate Rising(at: seq<nat>) {
    forall i, j | 0 <= i < j < |at| :: at[i] < at[j]
  }

  /**
   The positions are, in order, exactly those from `first` on that both lists reach and that have a score, and the
   pairs are those found there.
   */
  ghost predicate PairedAt<T>(at: seq<nat>, first: nat, items: seq<T>, scores: seq<Option<real>>, pairs: seq<Scored<T>>)
  {
    && Rising(at) && |pairs| == |at|
    && (forall i | 0 <= i < |at| :: first <= at[i] < |items| && at[i] < |scores|)
    && (forall i | 0 <= i < |at| :: items[at[i]] == pairs[i].item && scores[at[i]] == Some(pairs[i].score))
    && (forall p {:trigger p in at} | first <= p < |items| && p < |scores| && scores[p].Some? :: p in at)
  }

  lemma PairedBefore<T>(at: seq<nat>, first: nat, items: seq<T>, scores: seq<Option<real>>, pairs: seq<Scored<T>>)
    requires first < |items| && first < |scores| && PairedAt(at, first + 1, items, scores, pairs)
    ensures if scores[first].None? then PairedAt(at, first, items, scores, pairs)
            else PairedAt([first] + at, first, items, scores, [Scored(items[first], scores[first].value)] + pairs)
  {
    assert forall p | p in at :: p in [first] + at;
    assert ([first] + at)[0] == first;
  }

  lemma {:induction false} PairedFrom<T>(items: seq<T>, scores: seq<Option<real>>, first: nat) returns (at: seq<nat>)
    requires first <= |items| && first <= |scores|
    ensures PairedAt(at, first, items, scores, Paired(items[first..], scores[first..]))
    decreases |items| - first
  {
    if first == |items| || first == |scores| {
      at := [];
    } else {
      at := PairedFrom(items, scores, first + 1);
      var pairs := Paired(items[first + 1..], scores[first + 1..]);
      PairedBefore(at, first, items, scores, pairs);
      assert items[first..][1..] == items[first + 1..] && scores[first..][1..] == scores[first + 1..];
      if scores[first].Some? {
        at, pairs := [first] + at, [Scored(items[first], scores[first].value)] + pairs;
      }
      assert pairs == Paired(items[first..], scores[first..]);
    }
  }

  /** The ranking starts from exactly the items that have a score, in their order, each with its own. */
  lemma {:induction false} PairedInOrder<T>(items: seq<T>, scores: seq<Option<real>>) returns (at: seq<nat>)
    ensures PairedAt(at, 0, items, scores, Paired(items, scores))
  {
    at := PairedFrom(items, scores, 0);
    assert items[0..] == items && scores[0..] == scores;
  }

  lemma {:induction false} PairedComesFrom<T>(items: seq<T>, scores: seq<Option<real>>, x: Scored<T>)
    ensures x in Paired(items, scores)
      <==> exists i :: 0 <= i < |items| && i < |scores| && items[i] == x.item && scores[i] == Some(x.score)
  {
    if items == [] || scores == [] {
    } else {
      PairedComesFrom(items[1..], scores[1..], x);
      if i :| 0 <= i < |items| && i < |scores| && items[i] == x.item && scores[i] == Some(x.score) {
        if i > 0 {
          assert items[1..][i - 1] == x.item && scores[1..][i - 1] == Some(x.score);
        }
      }
      if x in Paired(items[1..], scores[1..]) {
        var i :| 0 <= i < |items| - 1 && i < |scores| - 1
          && items[1..][i] == x.item && scores[1..][i] == Some(x.score);
        assert items[i + 1] == x.item && scores[i + 1] == Some(x.score);
      }
    }
  }

  /**
   The ranking keeps the min(k, n) best of the n scored items, none for a negative k: what is kept and what is
   dropped together are the scored items; the kept are in descending order; nothing dropped scores above
   anything kept; and among equal scores the earlier items are kept first, in their order.
   */
  lemma RankingKeepsTheBest<T>(items: seq<T>, scores: seq<Option<real>>, topK: int) returns (dropped: seq<Scored<T>>)
    ensures var all, top := Paired(items, scores), Ranked(items, scores, topK);
      && multiset(top) + multiset(dropped) == multiset(all)
      && |top| == (if topK < 0 then 0 else if topK <= |all| then topK else |all|)
      && (forall i, j | 0 <= i < j < |top| :: top[i].score >= top[j].score)
      && (forall i, j | 0 <= i < |top| && 0 <= j < |dropped| :: top[i].score >= dropped[j].score)
      && (forall v :: Having(top, Descending<T>, v) + Having(dropped, Descending<T>, v)
                      == Having(all, Descending<T>, v))
  {
    var all := Paired(items, scores);
    var c := Clip(topK, |all|);
    CutSorted(all, c, Descending<T>);
    dropped := Sort(all, Descending<T>)[c..];
    var top := Ranked(items, scores, topK);
    forall i, j | 0 <= i < |top| && 0 <= j < |dropped|
      ensures top[i].score >= dropped[j].score
    {
      assert Descending(top[i]) <= Descending(dropped[j]);
    }
    forall i, j | 0 <= i < j < |top|
      ensures top[i].score >= top[j].score
    {
      assert Descending(top[i]) <= Descending(top[j]);
    }
  }

  // ----- The nodes -----

  type Document = int

  datatype Settings = Settings(retrieveK: nat, rerankK: int, maxLoops: int, threshold: real, jevReady: bool)

  datatype Node = Retrieve | Grade | Rewrite | Rerank | Generate

  datatype State = State(node: Node, docs: seq<Document>, scores: seq<real>, skip: bool, rewrites: int)

  /**
   What the outside answers during one step: search results with their distances, which documents belong to the
   question at hand, grades and verdicts, whether a rewrite may help, and a fallback ranking.
   */
  datatype Inputs = Inputs(
    found: seq<Scored<Document>>,
    matches: Option<Document -> bool>,
    grades: seq<Option<real>>,
    relevant: Document -> bool,
    mayHelp: Option<bool>,
    ranks: seq<Option<real>>,
    fallback: seq<Document>)

  function Distance(x: Scored<Document>): real {
    x.score
  }

  function MatchKey(matches: Document -> bool): Document -> real {
    d => if matches(d) then 0.0 else 1.0
  }

  function Retrieved(found: seq<Scored<Document>>, matches: Option<Document -> bool>): seq<Document> {
    var docs := ItemsOf(Sort(found, Distance));
    if matches.Some? then Sort(docs, MatchKey(matches.value)) else docs
  }

  /** The first n pairs of documents and grades that reach the threshold. */
  function KeptByScore(docs: seq<Document>, grades: seq<Option<real>>, threshold: real, n: nat): seq<Scored<Document>>
    requires n <= |docs| && n <= |grades|
  {
    if n == 0 then []
    else
      var rest := KeptByScore(docs, grades, threshold, n - 1);
      if grades[n - 1].Some? && grades[n - 1].value >= threshold then
        rest + [Scored(docs[n - 1], grades[n - 1].value)]
      else rest
  }

  function KeptByVerdict(docs: seq<Document>, relevant: Document -> bool): seq<Document> {
    if docs == [] then []
    else
      var rest := KeptByVerdict(docs[..|docs| - 1], relevant);
      if relevant(docs[|docs| - 1]) then rest + [docs[|docs| - 1]] else rest
  }

  predicate AnyGrade(grades: seq<Option<real>>) {
    exists i :: 0 <= i < |grades| && grades[i].Some?
  }

  function Min(a: nat, b: nat): nat {
    if a <= b then a else b
  }

  function GradeStep(c: Settings, s: State, x: Inputs): State {
    var docs := s.docs[..Min(c.retrieveK, |s.docs|)];
    var scored := c.jevReady && docs != [] && AnyGrade(x.grades);
    var pairs := KeptByScore(docs, x.grades, c.threshold, Min(|docs|, |x.grades|));
    var kept := if scored then ItemsOf(pairs) else KeptByVerdict(docs, x.relevant);
    var skip := kept == [] && s.rewrites < c.maxLoops && c.jevReady && x.mayHelp == Some(false);
    State(RouteAfterGrade(c, kept, skip, s.rewrites), kept, if scored then ScoresOf(pairs) else [], skip, s.rewrites)
  }

  function RouteAfterGrade(c: Settings, docs: seq<Document>, skip: bool, rewrites: int): Node {
    if docs != [] || skip || rewrites >= c.maxLoops then Rerank else Rewrite
  }

  /**
   The positions are, in order, exactly those below n whose grade reaches the threshold; kept are their documents,
   each with its own grade.
   */
  ghost predicate KeptAt(at: seq<nat>, docs: seq<Document>, grades: seq<Option<real>>, threshold: real, n: nat,
                         kept: seq<Document>, scores: seq<real>)
    requires n <= |docs| && n <= |grades|
  {
    && Rising(at) && |kept| == |scores| == |at|
    && (forall i | 0 <= i < |at| :: at[i] < n && grades[at[i]].Some? && grades[at[i]].value >= threshold)
    && (forall p {:trigger p in at} | 0 <= p < n && grades[p].Some? && grades[p].value >= threshold :: p in at)
    && (forall i | 0 <= i < |at| :: kept[i] == docs[at[i]] && scores[i] == grades[at[i]].value)
  }

  /** The positions are, in order, exactly those of relevant documents, and these are kept. */
  ghost predicate RelevantAt(at: seq<nat>, docs: seq<Document>, relevant: Document -> bool, kept: seq<Document>) {
    && Rising(at) && |kept| == |at|
    && (forall i | 0 <= i < |at| :: at[i] < |docs| && relevant(docs[at[i]]))
    && (forall p {:trigger p in at} | 0 <= p < |docs| && relevant(docs[p]) :: p in at)
    && (forall i | 0 <= i < |at| :: kept[i] == docs[at[i]])
  }

  lemma KeptAtNext(at: seq<nat>, docs: seq<Document>, grades: seq<Option<real>>, threshold: real, n: nat,
                   kept: seq<Document>, scores: seq<real>)
    requires n < |docs| && n < |grades| && KeptAt(at, docs, grades, threshold, n, kept, scores)
    ensures if grades[n].Some? && grades[n].value >= threshold
            then KeptAt(at + [n], docs, grades, threshold, n + 1, kept + [docs[n]], scores + [grades[n].value])
            else KeptAt(at, docs, grades, threshold, n + 1, kept, scores)
  {
    assert (at + [n])[|at|] == n;
    assert forall p | p in at :: p in at + [n];
  }

  lemma KeptPairsNext(at: seq<nat>, docs: seq<Document>, grades: seq<Option<real>>, threshold: real, n: nat,
                      pairs: seq<Scored<Document>>)
    requires n < |docs| && n < |grades|
    requires KeptAt(at, docs, grades, threshold, n, ItemsOf(pairs), ScoresOf(pairs))
    ensures if grades[n].Some? && grades[n].value >= threshold then
              var next := pairs + [Scored(docs[n], grades[n].value)];
              KeptAt(at + [n], docs, grades, threshold, n + 1, ItemsOf(next), ScoresOf(next))
            else KeptAt(at, docs, grades, threshold, n + 1, ItemsOf(pairs), ScoresOf(pairs))
  {
    var kept, scores := ItemsOf(pairs), ScoresOf(pairs);
    KeptAtNext(at, docs, grades, threshold, n, kept, scores);
    if grades[n].Some? {
      var next := pairs + [Scored(docs[n], grades[n].value)];
      assert ItemsOf(next) == kept + [docs[n]] && ScoresOf(next) == scores + [grades[n].value];
    }
  }

  lemma {:induction false} GradingKeepsWhatPasses(docs: seq<Document>, grades: seq<Option<real>>, threshold: real,
                                                  n: nat)
    returns (at: seq<nat>)
    requires n <= |docs| && n <= |grades|
    ensures var pairs := KeptByScore(docs, grades, threshold, n);
      KeptAt(at, docs, grades, threshold, n, ItemsOf(pairs), ScoresOf(pairs))
  {
    if n == 0 {
      at := [];
    } else {
      at := GradingKeepsWhatPasses(docs, grades, threshold, n - 1);
      KeptPairsNext(at, docs, grades, threshold, n - 1, KeptByScore(docs, grades, threshold, n - 1));
      if grades[n - 1].Some? && grades[n - 1].value >= threshold {
        at := at + [n - 1];
      }
    }
  }

  lemma RelevantAtNext(at: seq<nat>, docs: seq<Document>, d: Document, relevant: Document -> bool,
                       kept: seq<Document>)
    requires RelevantAt(at, docs, relevant, kept)
    ensures if relevant(d) then RelevantAt(at + [|docs|], docs + [d], relevant, kept + [d])
            else RelevantAt(at, docs + [d], relevant, kept)
  {
    var all, positions := docs + [d], at + [|docs|];
    assert all[|docs|] == d && forall p | 0 <= p < |docs| :: all[p] == docs[p];
    assert positions[|at|] == |docs| && forall p | p in at :: p in positions;
  }

  lemma {:induction false} FallbackKeepsWhatIsRelevant(docs: seq<Document>, relevant: Document -> bool)
    returns (at: seq<nat>)
    ensures RelevantAt(at, docs, relevant, KeptByVerdict(docs, relevant))
  {
    if docs == [] {
      at := [];
    } else {
      var before, d := docs[..|docs| - 1], docs[|docs| - 1];
      at := FallbackKeepsWhatIsRelevant(before, relevant);
      var kept := KeptByVerdict(before, relevant);
      RelevantAtNext(at, before, d, relevant, kept);
      assert docs == before + [d];
      if relevant(d) {
        at, kept := at + [|before|], kept + [d];
      }
      assert kept == KeptByVerdict(docs, relevant);
    }
  }

  /**
   `grade_documents_node`. Grades decide if there are any, the fallback's verdicts otherwise; a rewrite is skipped
   only when nothing is kept and one that is still allowed would not help.
   */
  method GradeDocuments(c: Settings, s: State, x: Inputs)
    returns (kept: seq<Document>, keptScores: seq<real>, skip: bool)
    ensures var t := GradeStep(c, s, x);
      kept == t.docs && keptScores == t.scores && skip == t.skip
    ensures var docs := if c.retrieveK <= |s.docs| then s.docs[..c.retrieveK] else s.docs;
      if c.jevReady && docs != [] && exists i :: 0 <= i < |x.grades| && x.grades[i] != None then
        var n := if |docs| <= |x.grades| then |docs| else |x.grades|;
        exists at :: KeptAt(at, docs, x.grades, c.threshold, n, kept, keptScores)
      else keptScores == [] && exists at :: RelevantAt(at, docs, x.relevant, kept)
    ensures skip <==> kept == [] && s.rewrites < c.maxLoops && c.jevReady && x.mayHelp == Some(false)
  {
    kept, keptScores, skip := [], [], false;
    var docs := s.docs[..Min(c.retrieveK, |s.docs|)];
    assert docs == if c.retrieveK <= |s.docs| then s.docs[..c.retrieveK] else s.docs;
    if c.jevReady && docs != [] && AnyGrade(x.grades) {
      var n := Min(|docs|, |x.grades|);
      for i := 0 to n
        invariant kept == ItemsOf(KeptByScore(docs, x.grades, c.threshold, i))
        invariant keptScores == ScoresOf(KeptByScore(docs, x.grades, c.threshold, i))
      {
        if x.grades[i].Some? && x.grades[i].value >= c.threshold {
          kept := kept + [docs[i]];
          keptScores := keptScores + [x.grades[i].value];
        }
      }
      ghost var at := GradingKeepsWhatPasses(docs, x.grades, c.threshold, n);
    } else {
      for i := 0 to |docs|
        invariant kept == KeptByVerdict(docs[..i], x.relevant)
      {
        assert docs[..i + 1][..i] == docs[..i];
        if x.relevant(docs[i]) {
          kept := kept + [docs[i]];
        }
      }
      assert docs[..|docs|] == docs;
      ghost var at := FallbackKeepsWhatIsRelevant(docs, x.relevant);
    }
    if kept == [] && s.rewrites < c.maxLoops && c.jevReady {
      if x.mayHelp == Some(false) {
        skip := true;
      }
    }
  }

  function Range(n: nat): (r: seq<int>)
    ensures |r| == n && forall i | 0 <= i < n :: r[i] == i
  {
    seq(n, i requires 0 <= i < n => i)
  }

  function Known(scores: seq<real>): seq<Option<real>> {
    seq(|scores|, i requires 0 <= i < |scores| => Some(scores[i]))
  }

  /** The documents at the ranked positions. */
  function At(docs: seq<Document>, ranked: seq<Scored<int>>): (r: seq<Document>)
    requires forall x | x in ranked :: 0 <= x.item < |docs|
    ensures |r| == |ranked| && forall i | 0 <= i < |r| :: r[i] == docs[ranked[i].item]
  {
    seq(|ranked|, i requires 0 <= i < |ranked| => docs[ranked[i].item])
  }

  lemma RankedComesFrom<T>(items: seq<T>, scores: seq<Option<real>>, topK: int, x: Scored<T>)
    requires x in Ranked(items, scores, topK)
    ensures exists i :: 0 <= i < |items| && i < |scores| && items[i] == x.item && scores[i] == Some(x.score)
  {
    var all := Paired(items, scores);
    SortIsStable(all, Descending<T>);
    assert x in multiset(Sort(all, Descending<T>));
    PairedComesFrom(items, scores, x);
  }

  lemma RanksPointIntoDocs(n: nat, ranks: seq<Option<real>>, topK: int)
    ensures forall x | x in Ranked(Range(n), ranks, topK) :: 0 <= x.item < n
  {
    forall x | x in Ranked(Range(n), ranks, topK)
      ensures 0 <= x.item < n
    {
      RankedComesFrom(Range(n), ranks, topK, x);
    }
  }

  /** `decide_rerank`: the positions of the documents ranked by fresh scores. */
  function RankedPositions(docs: seq<Document>, ranks: seq<Option<real>>, topK: int): (r: seq<Scored<int>>)
    ensures forall x | x in r :: 0 <= x.item < |docs|
  {
    RanksPointIntoDocs(|docs|, ranks, topK);
    Ranked(Range(|docs|), ranks, topK)
  }

  /** The document a position stands for. */
  function Look(docs: seq<Document>): int -> Document {
    (i: int) => if 0 <= i < |docs| then docs[i] else 0
  }

  function LookScored(docs: seq<Document>): Scored<int> -> Scored<Document> {
    (x: Scored<int>) => Scored(Look(docs)(x.item), x.score)
  }

  lemma {:induction false} PairedMapped(docs: seq<Document>, positions: seq<int>, ranks: seq<Option<real>>)
    ensures Paired(Mapped(positions, Look(docs)), ranks)
            == Mapped(Paired(positions, ranks), LookScored(docs))
  {
    if positions == [] || ranks == [] {
    } else {
      PairedMapped(docs, positions[1..], ranks[1..]);
      assert Mapped(positions, Look(docs))[1..] == Mapped(positions[1..], Look(docs));
    }
  }

  /** Ranking positions and looking them up is ranking the documents themselves. */
  lemma RankedPositionsRankTheDocuments(docs: seq<Document>, ranks: seq<Option<real>>, topK: int)
    ensures var ranked, positions := Ranked(docs, ranks, topK), RankedPositions(docs, ranks, topK);
            At(docs, positions) == ItemsOf(ranked) && ScoresOf(positions) == ScoresOf(ranked)
  {
    var pairs := Paired(Range(|docs|), ranks);
    assert Mapped(Range(|docs|), Look(docs)) == docs;
    PairedMapped(docs, Range(|docs|), ranks);
    SortMapped(pairs, LookScored(docs), Descending<int>, Descending<Document>);
    var positions := RankedPositions(docs, ranks, topK);
    assert Ranked(docs, ranks, topK) == Mapped(positions, LookScored(docs));
  }

  function RerankStep(c: Settings, s: State, x: Inputs): State {
    if s.docs != [] && s.scores != [] && |s.scores| == |s.docs| then
      var top := Ranked(s.docs, Known(s.scores), c.rerankK);
      s.(node := Generate, docs := ItemsOf(top), scores := ScoresOf(top))
    else
      var ranked := if s.docs != [] && c.jevReady then RankedPositions(s.docs, x.ranks, c.rerankK) else [];
      if ranked != [] then s.(node := Generate, docs := At(s.docs, ranked), scores := ScoresOf(ranked))
      else s.(node := Generate, docs := x.fallback, scores := [])
  }

  /**
   Which ranking is used: the grades if every document has one, else fresh scores if there are any to keep, else
   the fallback, which has no scores.
   */
  lemma RerankSays(c: Settings, s: State, x: Inputs)
    ensures var t, graded := RerankStep(c, s, x), s.docs != [] && |s.scores| == |s.docs|;
      var ranked := c.jevReady && c.rerankK > 0
        && exists i :: 0 <= i < |s.docs| && i < |x.ranks| && x.ranks[i] != None;
      && t.node == Generate && t.rewrites == s.rewrites
      && (graded ==> t.docs == ItemsOf(Ranked(s.docs, Known(s.scores), c.rerankK))
                     && t.scores == ScoresOf(Ranked(s.docs, Known(s.scores), c.rerankK)))
      && (!graded && ranked ==> t.docs == ItemsOf(Ranked(s.docs, x.ranks, c.rerankK))
                                && t.scores == ScoresOf(Ranked(s.docs, x.ranks, c.rerankK)))
      && (!graded && !ranked ==> t.docs == x.fallback && t.scores == [])
  {
    RankedPositionsRankTheDocuments(s.docs, x.ranks, c.rerankK);
    var at := PairedInOrder(s.docs, x.ranks);
    if i :| 0 <= i < |s.docs| && i < |x.ranks| && x.ranks[i] != None {
      assert i in at;
    }
  }

  function Step(c: Settings, s: State, x: Inputs): State {
    match s.node
    case Retrieve => State(Grade, Retrieved(x.found, x.matches), [], false, s.rewrites)
    case Grade => GradeStep(c, s, x)
    case Rewrite => s.(node := Retrieve, rewrites := s.rewrites + 1, skip := false)
    case Rerank => RerankStep(c, s, x)
    case Generate => s
  }

  /** The state after k steps of a run that starts by retrieving. */
  function RunTo(c: Settings, rewrites: int, xs: seq<Inputs>, k: nat): State
    requires k <= |xs|
  {
    if k == 0 then State(Retrieve, [], [], false, rewrites)
    else Step(c, RunTo(c, rewrites, xs, k - 1), xs[k - 1])
  }

  function Retrievals(c: Settings, rewrites: int, xs: seq<Inputs>, k: nat): nat
    requires k <= |xs|
  {
    if k == 0 then 0
    else Retrievals(c, rewrites, xs, k - 1) + if RunTo(c, rewrites, xs, k - 1).node == Retrieve then 1 else 0
  }

  // ----- The order of what is retrieved -----

  lemma {:induction false} HavingKeyIsFiltering(docs: seq<Document>, matches: Document -> bool)
    ensures Having(docs, MatchKey(matches), 0.0) == KeptByVerdict(docs, matches)
    ensures Having(docs, MatchKey(matches), 1.0) == KeptByVerdict(docs, d => !matches(d))
  {
    if docs == [] {
    } else {
      HavingKeyIsFiltering(docs[..|docs| - 1], matches);
    }
  }

  /** Documents come nearest first, equally near ones in the order they were found in. */
  lemma NearestComeFirst(found: seq<Scored<Document>>) returns (near: seq<Scored<Document>>)
    ensures Retrieved(found, None) == ItemsOf(near) && multiset(near) == multiset(found)
    ensures forall i, j | 0 <= i < j < |near| :: near[i].score <= near[j].score
    ensures SameTies(near, found, Distance)
  {
    near := Sort(found, Distance);
    SortIsStable(found, Distance);
    forall i, j | 0 <= i < j < |near|
      ensures near[i].score <= near[j].score
    {
      assert Distance(near[i]) <= Distance(near[j]);
    }
  }

  /** Documents of the question at hand come before all others; within each group they stay in their order. */
  lemma MatchingDocumentsComeFirst(found: seq<Scored<Document>>, matches: Document -> bool)
    ensures var docs, r := Retrieved(found, None), Retrieved(found, Some(matches));
      var first, rest := KeptByVerdict(docs, matches), KeptByVerdict(docs, d => !matches(d));
      && r == first + rest
      && (forall i | 0 <= i < |r| :: matches(r[i]) <==> i < |first|)
  {
    var docs := Retrieved(found, None);
    SortIntoTwo(docs, MatchKey(matches), 0.0, 1.0);
    HavingKeyIsFiltering(docs, matches);
    var _ := FallbackKeepsWhatIsRelevant(docs, matches);
    var _ := FallbackKeepsWhatIsRelevant(docs, d => !matches(d));
  }

  /** So a retrieval hands on all that was found, matching documents first if there is a question to match. */
  lemma RetrievalOrdersWhatWasFound(c: Settings, s: State, x: Inputs) returns (near: seq<Scored<Document>>)
    requires s.node == Retrieve
    ensures multiset(near) == multiset(x.found) && forall i, j | 0 <= i < j < |near| :: near[i].score <= near[j].score
    ensures var t, docs := Step(c, s, x), ItemsOf(near);
      && t.node == Grade && t.scores == [] && !t.skip && t.rewrites == s.rewrites
      && (x.matches.None? ==> t.docs == docs)
      && (x.matches.Some? ==>
            var matches := x.matches.value;
            t.docs == KeptByVerdict(docs, matches) + KeptByVerdict(docs, d => !matches(d)))
  {
    near := NearestComeFirst(x.found);
    if x.matches.Some? {
      MatchingDocumentsComeFirst(x.found, x.matches.value);
    }
  }

  // ----- Runs -----

  /** How many rewrites are left. */
  function Left(c: Settings, rewrites: int): nat {
    if rewrites < c.maxLoops then c.maxLoops - rewrites else 0
  }

  /** How many retrievals can still come. */
  function RetrievalsAhead(c: Settings, s: State): nat {
    match s.node
    case Retrieve => Left(c, s.rewrites) + 1
    case Grade => Left(c, s.rewrites)
    case Rewrite => Left(c, s.rewrites)
    case Rerank => 0
    case Generate => 0
  }

  /** How many steps can still come. */
  function StepsAhead(c: Settings, s: State): nat {
    match s.node
    case Retrieve => 3 * Left(c, s.rewrites) + 3
    case Grade => 3 * Left(c, s.rewrites) + 2
    case Rewrite => 3 * Left(c, s.rewrites) + 1
    case Rerank => 1
    case Generate => 0
  }

  /**
   Scores, where there are any, belong to the documents one to one. A rewrite is made only when nothing was kept,
   none was declined and one is left; ranking starts only when one of these fails.
   */
  ghost predicate Inv(c: Settings, s: State) {
    && (s.scores == [] || |s.scores| == |s.docs|)
    && (s.node.Rewrite? ==> s.rewrites < c.maxLoops && s.docs == [] && !s.skip)
    && (s.node.Rerank? ==> s.docs != [] || s.skip || s.rewrites >= c.maxLoops)
    && (s.node.Rerank? && s.skip ==> s.docs == [] && c.jevReady && s.rewrites < c.maxLoops)
  }

  lemma StepKeepsInv(c: Settings, s: State, x: Inputs)
    requires Inv(c, s)
    ensures Inv(c, Step(c, s, x))
    ensures !s.node.Generate? ==> StepsAhead(c, Step(c, s, x)) < StepsAhead(c, s)
    ensures RetrievalsAhead(c, Step(c, s, x)) + (if s.node.Retrieve? then 1 else 0) <= RetrievalsAhead(c, s)
  {
  }

  /**
   For all outcomes of searching and grading: the run is over after 3 * (rewrites left) + 3 steps, retrieves at
   most once more than there are rewrites left, and at every point has no scores or one for each document.
   */
  lemma {:induction false} RetrievalEnds(c: Settings, rewrites: int, xs: seq<Inputs>, k: nat)
    requires k <= |xs|
    ensures var s := RunTo(c, rewrites, xs, k);
      && Inv(c, s)
      && Retrievals(c, rewrites, xs, k) + RetrievalsAhead(c, s) <= Left(c, rewrites) + 1
      && (s.node.Generate? || k + StepsAhead(c, s) <= 3 * Left(c, rewrites) + 3)
    ensures k >= 3 * Left(c, rewrites) + 3 ==> RunTo(c, rewrites, xs, k).node.Generate?
  {
    if k == 0 {
    } else {
      RetrievalEnds(c, rewrites, xs, k - 1);
      StepKeepsInv(c, RunTo(c, rewrites, xs, k - 1), xs[k - 1]);
    }
  }

  ghost predicate RankedScores(scores: seq<real>, topK: int) {
    && |scores| <= (if topK < 0 then 0 else topK)
    && forall i, j | 0 <= i < j < |scores| :: scores[i] >= scores[j]
  }

  lemma RankingGivesRankedScores<T>(items: seq<T>, scores: seq<Option<real>>, topK: int)
    ensures RankedScores(ScoresOf(Ranked(items, scores, topK)), topK)
  {
    var _ := RankingKeepsTheBest(items, scores, topK);
  }

  lemma RerankGivesRankedScores(c: Settings, s: State, x: Inputs)
    ensures RankedScores(RerankStep(c, s, x).scores, c.rerankK)
  {
    RankingGivesRankedScores(s.docs, Known(s.scores), c.rerankK);
    RankingGivesRankedScores(Range(|s.docs|), x.ranks, c.rerankK);
  }

  lemma {:induction false} FinishingGivesRankedScores(c: Settings, s: State, x: Inputs)
    requires s.node.Generate? ==> RankedScores(s.scores, c.rerankK)
    ensures Step(c, s, x).node.Generate? ==> RankedScores(Step(c, s, x).scores, c.rerankK)
  {
    if s.node.Rerank? {
      RerankGivesRankedScores(c, s, x);
    }
  }

  /** The scores of the final documents are in descending order and no more than asked for. */
  lemma {:induction false} FinalScoresAreRanked(c: Settings, rewrites: int, xs: seq<Inputs>, k: nat)
    requires k <= |xs|
    ensures var s := RunTo(c, rewrites, xs, k);
      s.node.Generate? ==> RankedScores(s.scores, c.rerankK)
  {
    if k == 0 {
    } else {
      FinalScoresAreRanked(c, rewrites, xs, k - 1);
      FinishingGivesRankedScores(c, RunTo(c, rewrites, xs, k - 1), xs[k - 1]);
    }
  }

  ghost predicate Fruitless(x: Inputs) {
    x.found == [] && x.matches.None? && x.mayHelp.None?
  }

  lemma {:induction false} FruitlessRound(c: Settings, rewrites: int, xs: seq<Inputs>, k: nat)
    requires k + 3 <= |xs| && RunTo(c, rewrites, xs, k).node == Retrieve
    requires forall i | k <= i < k + 3 :: Fruitless(xs[i])
    ensures var s := RunTo(c, rewrites, xs, k);
      s.rewrites < c.maxLoops ==> RunTo(c, rewrites, xs, k + 3) == State(Retrieve, [], [], false, s.rewrites + 1)
    ensures Retrievals(c, rewrites, xs, k + 3) == Retrievals(c, rewrites, xs, k) + 1
  {
    var s := RunTo(c, rewrites, xs, k);
    var graded := RunTo(c, rewrites, xs, k + 1);
    assert graded == State(Grade, [], [], false, s.rewrites);
    var routed := RunTo(c, rewrites, xs, k + 2);
    assert routed == GradeStep(c, graded, xs[k + 1]);
    assert routed.docs == [] && routed.scores == [] && !routed.skip;
    assert RunTo(c, rewrites, xs, k + 3) == Step(c, routed, xs[k + 2]);
    assert Retrievals(c, rewrites, xs, k + 1) == Retrievals(c, rewrites, xs, k) + 1;
    assert Retrievals(c, rewrites, xs, k + 2) == Retrievals(c, rewrites, xs, k + 1);
  }

  lemma {:induction false} FruitlessRounds(c: Settings, rewrites: int, xs: seq<Inputs>, n: nat, k: nat)
    requires k == 3 * n && k <= |xs| && n <= Left(c, rewrites)
    requires forall i | 0 <= i < |xs| :: Fruitless(xs[i])
    ensures RunTo(c, rewrites, xs, k) == State(Retrieve, [], [], false, rewrites + n)
    ensures Retrievals(c, rewrites, xs, k) == n
  {
    if n == 0 {
    } else {
      FruitlessRounds(c, rewrites, xs, n - 1, k - 3);
      FruitlessRound(c, rewrites, xs, k - 3);
    }
  }

  /** The bound is met: when nothing is ever found, every rewrite is used and each is followed by a retrieval. */
  lemma {:induction false} FruitlessRunUsesEveryRewrite(c: Settings, rewrites: int, xs: seq<Inputs>)
    requires |xs| == 3 * Left(c, rewrites) + 3 && forall i | 0 <= i < |xs| :: Fruitless(xs[i])
    ensures Retrievals(c, rewrites, xs, |xs|) == Left(c, rewrites) + 1
  {
    var k := |xs| - 3;
    FruitlessRounds(c, rewrites, xs, Left(c, rewrites), k);
    FruitlessRound(c, rewrites, xs, k);
  }
}

/**
 Seeding the topics of one subject from its curriculum. Level and topic rows are found by their natural
 keys; what is missing is added, what differs is assigned. A run is a fold over the flattened curriculum,
 in which every term block contributes one level and then its titles, numbered through the whole subject.
 */
module SeedCatalogue {
  import opened Wrappers

  datatype Column = LevelId | Title | OrderIndex | Minutes | WaecWeight | JambWeight | Other(name: string)

  datatype Value = Id(id: nat) | Text(text: string) | Number(number: int) | Weight(weight: real) | Null

  type Values = map<Column, Value>

  type Key = (string, string)

  datatype Meta = Meta(minutes: int, waec: real, jamb: real)

  /** One class level and term, with its titles in order. */
  datatype Block = Block(key: Key, titles: seq<string>)

  datatype Item =
    | Level(key: Key)
    | Topic(key: Key, slug: string, title: string, order: nat, meta: Option<Meta>)

  datatype Row = Row(id: nat, fields: Values)

  datatype Tables = Tables(levels: map<Key, nat>, topics: map<string, Row>, nextId: nat)

  datatype Progress = Progress(tables: Tables, level: nat, created: nat, updated: nat)

  ghost function SeededColumns(): set<Column> {
    {LevelId, Title, OrderIndex, Minutes, WaecWeight, JambWeight}
  }

  function TopicValues(level: nat, title: string, order: nat, meta: Option<Meta>): (v: Values)
    ensures v.Keys == SeededColumns()
    ensures v[OrderIndex] == Number(order)
  {
    var m := if meta.Some? then meta.value else Meta(45, 0.0, 0.0);
    map[LevelId := Id(level), Title := Text(title), OrderIndex := Number(order),
        Minutes := Number(m.minutes), WaecWeight := Weight(m.waec), JambWeight := Weight(m.jamb)]
  }

  // ----- One run -----

  function WithLevel(p: Progress, key: Key): Progress {
    var t := p.tables;
    if key in t.levels then p.(level := t.levels[key])
    else p.(tables := t.(levels := t.levels[key := t.nextId], nextId := t.nextId + 1), level := t.nextId)
  }

  function WithTopic(p: Progress, slug: string, values: Values): Progress {
    var t := p.tables;
    if slug !in t.topics then
      p.(tables := t.(topics := t.topics[slug := Row(t.nextId, values)], nextId := t.nextId + 1),
         created := p.created + 1)
    else
      var row := t.topics[slug];
      if row.fields + values == row.fields then p
      else p.(tables := t.(topics := t.topics[slug := Row(row.id, row.fields + values)]), updated := p.updated + 1)
  }

  function Step(p: Progress, x: Item): Progress {
    match x
    case Level(key) => WithLevel(p, key)
    case Topic(_, slug, title, order, meta) => WithTopic(p, slug, TopicValues(p.level, title, order, meta))
  }

  /** The first k items, from some point of a run. */
  function Continue(p: Progress, items: seq<Item>, k: nat): Progress
    requires k <= |items|
  {
    if k == 0 then p else Step(Continue(p, items, k - 1), items[k - 1])
  }

  /** The run over the first k items. */
  function RunTo(t: Tables, items: seq<Item>, k: nat): Progress
    requires k <= |items|
  {
    Continue(Progress(t, 0, 0, 0), items, k)
  }

  lemma {:induction false} RunsCompose(p: Progress, a: seq<Item>, b: seq<Item>, k: nat)
    requires k <= |b|
    ensures Continue(p, a + b, |a| + k) == Continue(Continue(p, a, |a|), b, k)
  {
    if k == 0 {
      SamePrefix(p, a, a + b, |a|);
    } else {
      RunsCompose(p, a, b, k - 1);
    }
  }

  lemma {:induction false} SamePrefix(p: Progress, a: seq<Item>, b: seq<Item>, k: nat)
    requires k <= |a| && a <= b
    ensures Continue(p, a, k) == Continue(p, b, k)
  {
    if k == 0 {
    } else {
      SamePrefix(p, a, b, k - 1);
    }
  }

  // ----- The flattened curriculum -----

  function Orders(blocks: seq<Block>): nat {
    if blocks == [] then 0 else Orders(blocks[..|blocks| - 1]) + |blocks[|blocks| - 1].titles|
  }

  function TopicItem(b: Block, j: nat, start: nat, slugify: string -> string, meta: map<string, Meta>): Item
    requires j < |b.titles|
  {
    var slug := slugify(b.titles[j]);
    Topic(b.key, slug, b.titles[j], start + j, if slug in meta then Some(meta[slug]) else None)
  }

  /** The level of a block and then its topics, numbered from `start`. */
  function BlockItems(b: Block, start: nat, slugify: string -> string, meta: map<string, Meta>): (items: seq<Item>)
    ensures |items| == 1 + |b.titles| && items[0] == Level(b.key)
    ensures forall j | 0 <= j < |b.titles| :: items[1 + j] == TopicItem(b, j, start, slugify, meta)
  {
    [Level(b.key)] + seq(|b.titles|, j requires 0 <= j < |b.titles| => TopicItem(b, j, start, slugify, meta))
  }

  function Items(blocks: seq<Block>, slugify: string -> string, meta: map<string, Meta>): seq<Item> {
    if blocks == [] then []
    else
      var before := blocks[..|blocks| - 1];
      Items(before, slugify, meta) + BlockItems(blocks[|blocks| - 1], Orders(before), slugify, meta)
  }

  /** Every topic follows its level, and no two topics have the same order. */
  ghost predicate WellFormed(items: seq<Item>) {
    && (forall i | 0 <= i < |items| && items[i].Topic? :: 0 < i && items[i].key == items[i - 1].key)
    && (forall i, j | 0 <= i < j < |items| && items[i].Topic? && items[j].Topic? :: items[i].order < items[j].order)
  }

  /** A level and its topics, appended to what came before, keep the flattened form. */
  lemma BlockKeepsForm(items: seq<Item>, start: nat, block: seq<Item>)
    requires WellFormed(items) && forall x | x in items && x.Topic? :: x.order < start
    requires block != [] && block[0].Level?
    requires forall j | 0 < j < |block| :: block[j].Topic? && block[j].key == block[0].key
    requires forall j | 0 < j < |block| :: block[j].order == start + j - 1
    ensures WellFormed(items + block)
    ensures forall x | x in items + block && x.Topic? :: x.order < start + |block| - 1
  {
    var all := items + block;
    forall i, j | 0 <= i < j < |all| && all[i].Topic? && all[j].Topic?
      ensures all[i].order < all[j].order
    {
      if i < |items| {
        assert all[i] == items[i] && items[i] in items;
      }
    }
  }

  lemma {:induction false} ItemsAreWellFormed(blocks: seq<Block>, slugify: string -> string, meta: map<string, Meta>)
    ensures WellFormed(Items(blocks, slugify, meta))
    ensures forall x | x in Items(blocks, slugify, meta) && x.Topic? :: x.order < Orders(blocks)
  {
    if blocks == [] {
    } else {
      var before, b := blocks[..|blocks| - 1], blocks[|blocks| - 1];
      ItemsAreWellFormed(before, slugify, meta);
      var block := BlockItems(b, Orders(before), slugify, meta);
      forall j | 0 < j < |block|
        ensures block[j] == TopicItem(b, j - 1, Orders(before), slugify, meta)
      {
        assert block[1 + (j - 1)] == TopicItem(b, j - 1, Orders(before), slugify, meta);
      }
      BlockKeepsForm(Items(before, slugify, meta), Orders(before), block);
    }
  }

  /** The run over the whole curriculum. */
  function Seeded(p: Progress, blocks: seq<Block>, slugify: string -> string, meta: map<string, Meta>): Progress {
    var items := Items(blocks, slugify, meta);
    Continue(p, items, |items|)
  }

  lemma SeededLastBlock(p: Progress, blocks: seq<Block>, slugify: string -> string, meta: map<string, Meta>)
    requires blocks != []
    ensures var before := blocks[..|blocks| - 1];
      var block := BlockItems(blocks[|blocks| - 1], Orders(before), slugify, meta);
      Seeded(p, blocks, slugify, meta) == Continue(Seeded(p, before, slugify, meta), block, |block|)
  {
    var before := blocks[..|blocks| - 1];
    var head, block := Items(before, slugify, meta), BlockItems(blocks[|blocks| - 1], Orders(before), slugify, meta);
    var items := Items(blocks, slugify, meta);
    assert items == head + block && |items| == |head| + |block|;
    RunsCompose(p, head, block, |block|);
  }

  lemma SeededBlockByBlock(p: Progress, blocks: seq<Block>, i: nat, slugify: string -> string,
                           meta: map<string, Meta>)
    requires i < |blocks|
    ensures Orders(blocks[..i + 1]) == Orders(blocks[..i]) + |blocks[i].titles|
    ensures Seeded(p, blocks[..i + 1], slugify, meta)
      == var block := BlockItems(blocks[i], Orders(blocks[..i]), slugify, meta);
         Continue(Seeded(p, blocks[..i], slugify, meta), block, |block|)
  {
    assert blocks[..i + 1][..i] == blocks[..i];
    SeededLastBlock(p, blocks[..i + 1], slugify, meta);
  }

  // ----- What a run leaves behind -----

  ghost predicate Has(items: seq<Item>, i: int, slug: string) {
    0 <= i < |items| && items[i].Topic? && items[i].slug == slug
  }

  /** The position of the last of the first k items that has the slug, or -1. */
  ghost function LastAt(items: seq<Item>, k: nat, slug: string): (i: int)
    requires k <= |items|
    ensures -1 <= i < k
    ensures i >= 0 ==> Has(items, i, slug)
    ensures forall j | i < j < k :: !Has(items, j, slug)
  {
    if k == 0 then -1
    else if Has(items, k - 1, slug) then k - 1
    else LastAt(items, k - 1, slug)
  }

  /** What an entry says about its topic, given the level rows. */
  ghost function ValuesOf(levels: map<Key, nat>, x: Item): Values
    requires x.Topic? && x.key in levels
  {
    TopicValues(levels[x.key], x.title, x.order, x.meta)
  }

  ghost function FieldsIn(t: Tables, slug: string): Values {
    if slug in t.topics then t.topics[slug].fields else map[]
  }

  lemma {:induction false} LevelsStay(t: Tables, items: seq<Item>, k: nat)
    requires k <= |items| && WellFormed(items)
    ensures var p := RunTo(t, items, k);
      && t.nextId <= p.tables.nextId
      && (forall key | key in t.levels :: key in p.tables.levels && p.tables.levels[key] == t.levels[key])
      && (forall i | 0 <= i < k :: items[i].key in p.tables.levels)
      && (k > 0 ==> items[k - 1].key in p.tables.levels && p.level == p.tables.levels[items[k - 1].key])
  {
    if k == 0 {
    } else {
      LevelsStay(t, items, k - 1);
    }
  }

  lemma OverwrittenValues(f: Values, v: Values, w: Values)
    requires v.Keys == w.Keys
    ensures (f + v) + w == f + w
  {
  }

  /** One step, seen from one slug: either the entry is for it and its values win, or nothing happens to it. */
  lemma StepOnSlug(p: Progress, x: Item, slug: string)
    requires x.Topic?
    ensures var q := Step(p, x);
      var values := TopicValues(p.level, x.title, x.order, x.meta);
      if x.slug == slug then
        && slug in q.tables.topics
        && q.tables.topics[slug].fields == FieldsIn(p.tables, slug) + values
        && q.tables.topics[slug].id == (if slug in p.tables.topics then p.tables.topics[slug].id else p.tables.nextId)
      else
        && (slug in q.tables.topics <==> slug in p.tables.topics)
        && (slug in p.tables.topics ==> q.tables.topics[slug] == p.tables.topics[slug])
  {
    var values := TopicValues(p.level, x.title, x.order, x.meta);
    assert map[] + values == values;
  }

  /** The row of a slug, when `last` is the last entry so far that has it. */
  ghost predicate RowIs(t: Tables, now: Tables, items: seq<Item>, last: int, slug: string)
    requires last < |items|
  {
    if last < 0 then
      (slug in now.topics <==> slug in t.topics) && (slug in t.topics ==> now.topics[slug] == t.topics[slug])
    else
      && items[last].Topic? && slug in now.topics && items[last].key in now.levels
      && now.topics[slug].fields == FieldsIn(t, slug) + ValuesOf(now.levels, items[last])
      && (slug in t.topics ==> now.topics[slug].id == t.topics[slug].id)
      && (slug !in t.topics ==> now.topics[slug].id >= t.nextId)
  }

  lemma RowAfterOtherStep(t: Tables, p: Progress, items: seq<Item>, last: int, slug: string, x: Item)
    requires last < |items| && RowIs(t, p.tables, items, last, slug)
    requires x.Topic? ==> x.slug != slug
    ensures RowIs(t, Step(p, x).tables, items, last, slug)
  {
  }

  lemma RowAfterOwnStep(t: Tables, p: Progress, items: seq<Item>, last: int, slug: string, k: nat)
    requires last < k < |items| && RowIs(t, p.tables, items, last, slug)
    requires Has(items, k, slug) && items[k].key in p.tables.levels && p.level == p.tables.levels[items[k].key]
    requires t.nextId <= p.tables.nextId
    ensures RowIs(t, Step(p, items[k]).tables, items, k, slug)
  {
    StepOnSlug(p, items[k], slug);
    if last >= 0 {
      OverwrittenValues(FieldsIn(t, slug), ValuesOf(p.tables.levels, items[last]),
                        ValuesOf(p.tables.levels, items[k]));
    }
  }

  /**
   At any point of a run, the row of a slug keeps its id if it had one, and holds the values of the last entry
   so far that has the slug, over what it held before the run.
   */
  lemma {:induction false} EachTopicTakesItsLastEntry(t: Tables, items: seq<Item>, k: nat, slug: string)
    requires k <= |items| && WellFormed(items)
    ensures RowIs(t, RunTo(t, items, k).tables, items, LastAt(items, k, slug), slug)
  {
    if k == 0 {
    } else {
      EachTopicTakesItsLastEntry(t, items, k - 1, slug);
      var p, last := RunTo(t, items, k - 1), LastAt(items, k - 1, slug);
      if Has(items, k - 1, slug) {
        LevelsStay(t, items, k - 1);
        RowAfterOwnStep(t, p, items, last, slug, k - 1);
      } else {
        RowAfterOtherStep(t, p, items, last, slug, items[k - 1]);
      }
    }
  }

  /** A run reports as created exactly the rows it adds, and every row it adds takes one new id. */
  lemma {:induction false} CreatedCountsNewTopics(t: Tables, items: seq<Item>, k: nat)
    requires k <= |items|
    ensures var p := RunTo(t, items, k);
      && |p.tables.topics| == |t.topics| + p.created
      && p.tables.nextId == t.nextId + p.created + (|p.tables.levels| - |t.levels|)
  {
    if k == 0 {
    } else {
      CreatedCountsNewTopics(t, items, k - 1);
    }
  }

  // ----- The second run -----

  /** Nothing is missing for these items. */
  ghost predicate Covers(t: Tables, items: seq<Item>) {
    forall x | x in items :: x.key in t.levels && (x.Topic? ==> x.slug in t.topics)
  }

  lemma {:induction false} RunCovers(t: Tables, items: seq<Item>)
    requires WellFormed(items)
    ensures Covers(RunTo(t, items, |items|).tables, items)
  {
    LevelsStay(t, items, |items|);
    forall i | 0 <= i < |items| && items[i].Topic?
      ensures items[i].slug in RunTo(t, items, |items|).tables.topics
    {
      EachTopicTakesItsLastEntry(t, items, |items|, items[i].slug);
      assert Has(items, i, items[i].slug);
    }
  }

  lemma {:induction false} CoveredRunAddsNothing(t: Tables, items: seq<Item>, k: nat)
    requires k <= |items| && Covers(t, items)
    ensures var p := RunTo(t, items, k);
      p.tables.levels == t.levels && p.tables.nextId == t.nextId && p.created == 0
      && p.tables.topics.Keys == t.topics.Keys
  {
    if k == 0 {
    } else {
      CoveredRunAddsNothing(t, items, k - 1);
      assert items[k - 1] in items;
    }
  }

  /** A second run over the same curriculum leaves every row, id and the id supply as the first one left them. */
  lemma SeedingIsIdempotent(t: Tables, items: seq<Item>)
    requires WellFormed(items)
    ensures var once := RunTo(t, items, |items|).tables;
      var again := RunTo(once, items, |items|);
      again.tables == once && again.created == 0
  {
    var n := |items|;
    var once := RunTo(t, items, n).tables;
    var twice := RunTo(once, items, n).tables;
    RunCovers(t, items);
    CoveredRunAddsNothing(once, items, n);
    forall slug | slug in once.topics
      ensures twice.topics[slug] == once.topics[slug]
    {
      EachTopicTakesItsLastEntry(t, items, n, slug);
      EachTopicTakesItsLastEntry(once, items, n, slug);
    }
  }

  /** Whether the entry shares its slug with another entry. */
  ghost predicate Repeated(items: seq<Item>, i: nat) {
    i < |items| && items[i].Topic? && exists j :: j != i && Has(items, j, items[i].slug)
  }

  ghost function CountRepeated(items: seq<Item>, k: nat): nat
    requires k <= |items|
  {
    if k == 0 then 0 else CountRepeated(items, k - 1) + (if Repeated(items, k - 1) then 1 else 0)
  }

  /** In the second run the row of a slug holds, before entry i, the order of the entry that came last for it. */
  lemma OrderBeforeEntry(t: Tables, items: seq<Item>, i: nat)
    requires i < |items| && items[i].Topic? && WellFormed(items)
    ensures var slug := items[i].slug;
      var once := RunTo(t, items, |items|).tables;
      var row := RunTo(once, items, i).tables.topics;
      var before := LastAt(items, i, slug);
      var last := LastAt(items, |items|, slug);
      && last >= i && slug in row && OrderIndex in row[slug].fields
      && row[slug].fields[OrderIndex] == Number(items[if before >= 0 then before else last].order)
  {
    var slug := items[i].slug;
    var once := RunTo(t, items, |items|).tables;
    assert Has(items, i, slug);
    EachTopicTakesItsLastEntry(t, items, |items|, slug);
    EachTopicTakesItsLastEntry(once, items, i, slug);
  }

  /** An entry whose slug is its own finds, in the second run, exactly its own values. */
  lemma LoneEntryChangesNothing(t: Tables, items: seq<Item>, i: nat)
    requires i < |items| && items[i].Topic? && WellFormed(items) && !Repeated(items, i)
    ensures var once := RunTo(t, items, |items|).tables;
      RunTo(once, items, i + 1).updated == RunTo(once, items, i).updated
  {
    var slug, n := items[i].slug, |items|;
    var once := RunTo(t, items, n).tables;
    assert Has(items, i, slug);
    assert LastAt(items, n, slug) == i && LastAt(items, i, slug) == -1;
    EachTopicTakesItsLastEntry(t, items, n, slug);
    EachTopicTakesItsLastEntry(once, items, i, slug);
    RunCovers(t, items);
    LevelsStay(once, items, i);
    CoveredRunAddsNothing(once, items, i);
    OverwrittenValues(FieldsIn(t, slug), ValuesOf(once.levels, items[i]), ValuesOf(once.levels, items[i]));
  }

  lemma RepeatedEntryIsRewritten(t: Tables, items: seq<Item>, i: nat)
    requires i < |items| && items[i].Topic? && WellFormed(items) && Repeated(items, i)
    ensures var once := RunTo(t, items, |items|).tables;
      RunTo(once, items, i + 1).updated == RunTo(once, items, i).updated + 1
  {
    var slug, n := items[i].slug, |items|;
    var once := RunTo(t, items, n).tables;
    var j :| j != i && Has(items, j, slug);
    OrderBeforeEntry(t, items, i);
    var before, last := LastAt(items, i, slug), LastAt(items, n, slug);
    assert before < 0 ==> j > i && last >= j;
    var p, x := RunTo(once, items, i), items[i];
    var values := TopicValues(p.level, x.title, x.order, x.meta);
    assert (p.tables.topics[slug].fields + values)[OrderIndex] == Number(x.order);
  }

  /**
   The second run reports one update for every entry whose slug is not its own, since all entries of a slug
   write to one row and differ in their order; so it reports none exactly when no two titles share a slug.
   */
  lemma {:induction false} SecondRunRewritesRepeatedSlugs(t: Tables, items: seq<Item>, k: nat)
    requires k <= |items| && WellFormed(items)
    ensures RunTo(RunTo(t, items, |items|).tables, items, k).updated == CountRepeated(items, k)
  {
    if k == 0 {
    } else {
      SecondRunRewritesRepeatedSlugs(t, items, k - 1);
      if items[k - 1].Topic? {
        if Repeated(items, k - 1) {
          RepeatedEntryIsRewritten(t, items, k - 1);
        } else {
          LoneEntryChangesNothing(t, items, k - 1);
        }
      }
    }
  }

  lemma {:induction false} NoRepeats(items: seq<Item>, k: nat)
    requires k <= |items|
    ensures CountRepeated(items, k) == 0 <==> forall i | 0 <= i < k :: !Repeated(items, i)
  {
    if k == 0 {
    } else {
      NoRepeats(items, k - 1);
    }
  }

  /** A second run reports no update if and only if the slugs of the curriculum are pairwise distinct. */
  lemma SecondRunIsSilentOnlyForDistinctSlugs(t: Tables, items: seq<Item>)
    requires WellFormed(items)
    ensures RunTo(RunTo(t, items, |items|).tables, items, |items|).updated == 0
      <==> forall i, j | 0 <= i < j < |items| && items[i].Topic? && items[j].Topic? :: items[i].slug != items[j].slug
  {
    SecondRunRewritesRepeatedSlugs(t, items, |items|);
    NoRepeats(items, |items|);
    if i, j :| 0 <= i < j < |items| && items[i].Topic? && items[j].Topic? && items[i].slug == items[j].slug {
      assert Has(items, j, items[i].slug);
      assert Repeated(items, i);
    }
  }

  // ----- The seeder -----

  class TopicRow {
    const id: nat
    var fields: Values

    constructor (id: nat, fields: Values)
      ensures this.id == id && this.fields == fields
    {
      this.id, this.fields := id, fields;
    }

    /** Assigns the columns that differ, in whatever order the values come. */
    method ApplyChanges(values: Values) returns (changed: bool)
      requires values.Keys <= fields.Keys
      modifies this
      ensures fields == old(fields) + values
      ensures changed <==> fields != old(fields)
    {
      changed := false;
      ghost var before := fields;
      var todo := values.Keys;
      while todo != {}
        invariant todo <= values.Keys && fields.Keys == before.Keys
        invariant forall c | c in fields :: fields[c] == if c in values && c !in todo then values[c] else before[c]
        invariant changed <==> fields != before
        decreases todo
      {
        var c :| c in todo;
        if fields[c] != values[c] {
          fields := fields[c := values[c]];
          assert fields[c] != before[c];
          changed := true;
        }
        todo := todo - {c};
      }
    }
  }

  /** Entry j + 1 of a block's run is what its title j makes of entry j. */
  ghost predicate Follows(run: seq<Progress>, b: Block, j: nat, order: nat, slugify: string -> string,
                          meta: map<string, Meta>)
    requires j < |b.titles| && j + 1 < |run|
  {
    run[j + 1] == Step(run[j], TopicItem(b, j, order, slugify, meta))
  }

  /** The run over a block, from its level on. */
  lemma BlockRun(p: Progress, b: Block, order: nat, slugify: string -> string, meta: map<string, Meta>)
    returns (run: seq<Progress>)
    ensures |run| == |b.titles| + 1 && run[0] == WithLevel(p, b.key)
    ensures forall j | 0 <= j < |b.titles| :: Follows(run, b, j, order, slugify, meta)
    ensures run[|b.titles|] == Continue(p, BlockItems(b, order, slugify, meta), 1 + |b.titles|)
  {
    var items := BlockItems(b, order, slugify, meta);
    run := seq(|b.titles| + 1, j requires 0 <= j <= |b.titles| => Continue(p, items, 1 + j));
    assert Continue(p, items, 0) == p;
    forall j | 0 <= j < |b.titles|
      ensures Follows(run, b, j, order, slugify, meta)
    {
      assert items[1 + j] == TopicItem(b, j, order, slugify, meta);
    }
  }

  class Seeder {
    var levels: map<Key, nat>
    var topics: map<string, TopicRow>
    var nextId: nat
    ghost var rows: set<TopicRow>
    ghost var stored: map<string, Row>

    /** Every slug has its own row, and every row has the columns the seed assigns. */
    ghost predicate Valid()
      reads this, rows
    {
      && stored.Keys == topics.Keys
      && (forall s | s in topics :: topics[s] in rows && stored[s] == Row(topics[s].id, topics[s].fields))
      && (forall s | s in topics :: SeededColumns() <= stored[s].fields.Keys)
      && (forall s, s' | s in topics && s' in topics && s != s' :: topics[s] != topics[s'])
    }

    ghost function View(): Tables
      reads this
    {
      Tables(levels, stored, nextId)
    }

    constructor ()
      ensures Valid() && View() == Tables(map[], map[], 0)
    {
      levels, topics, nextId, rows, stored := map[], map[], 0, {}, map[];
    }

    /** The level row of a class level and term, added if it is missing. */
    method EnsureLevel(key: Key, ghost p: Progress) returns (level: nat)
      requires Valid() && p.tables == View()
      modifies `levels, `nextId
      ensures Valid() && WithLevel(p, key) == p.(tables := View(), level := level)
    {
      if key in levels {
        level := levels[key];
      } else {
        level := nextId;
        levels, nextId := levels[key := nextId], nextId + 1;
      }
    }

    method AddTopic(slug: string, values: Values)
      requires Valid() && slug !in topics && SeededColumns() <= values.Keys
      modifies this
      ensures Valid() && fresh(rows - old(rows)) && levels == old(levels) && nextId == old(nextId) + 1
      ensures stored == old(stored)[slug := Row(old(nextId), values)]
    {
      var row := new TopicRow(nextId, values);
      topics, nextId, rows := topics[slug := row], nextId + 1, rows + {row};
      stored := stored[slug := Row(row.id, values)];
    }

    method ChangeTopic(slug: string, values: Values) returns (changed: bool)
      requires Valid() && slug in topics && values.Keys == SeededColumns()
      modifies `stored, rows
      ensures Valid()
      ensures stored == old(stored)[slug := Row(old(stored)[slug].id, old(stored)[slug].fields + values)]
      ensures changed <==> stored[slug].fields != old(stored)[slug].fields
    {
      changed := topics[slug].ApplyChanges(values);
      stored := stored[slug := Row(topics[slug].id, topics[slug].fields)];
    }

    /** Adds the topic, or assigns what differs in the row its slug already has. */
    method Upsert(slug: string, values: Values, ghost p: Progress) returns (created: bool, updated: bool)
      requires Valid() && values.Keys == SeededColumns() && p.tables == View()
      modifies this, rows
      ensures Valid() && fresh(rows - old(rows))
      ensures WithTopic(p, slug, values)
        == p.(tables := View(),
              created := p.created + if created then 1 else 0,
              updated := p.updated + if updated then 1 else 0)
    {
      created, updated := slug !in topics, false;
      if created {
        AddTopic(slug, values);
      } else {
        updated := ChangeTopic(slug, values);
        assert !updated ==> stored == p.tables.topics;
      }
    }

    /** Seeds one title of a term block. */
    method SeedTitle(b: Block, j: nat, level: nat, order: nat, slugify: string -> string, meta: map<string, Meta>,
                     ghost run: seq<Progress>)
      returns (created: bool, updated: bool)
      requires Valid() && j < |b.titles| && j + 1 < |run| && Follows(run, b, j, order, slugify, meta)
      requires run[j].tables == View() && run[j].level == level
      modifies this, rows
      ensures Valid() && fresh(rows - old(rows))
      ensures run[j + 1] == Progress(View(), level,
                run[j].created + if created then 1 else 0, run[j].updated + if updated then 1 else 0)
    {
      var slug := slugify(b.titles[j]);
      var values := TopicValues(level, b.titles[j], order + j, if slug in meta then Some(meta[slug]) else None);
      assert run[j + 1] == WithTopic(run[j], slug, values);
      created, updated := Upsert(slug, values, run[j]);
    }

    /** Seeds the titles of a term block. */
    method SeedTitles(b: Block, level: nat, order: nat, slugify: string -> string, meta: map<string, Meta>,
                      ghost run: seq<Progress>)
      returns (created: nat, updated: nat)
      requires Valid() && |run| == |b.titles| + 1
      requires forall j | 0 <= j < |b.titles| :: Follows(run, b, j, order, slugify, meta)
      requires run[0].tables == View() && run[0].level == level
      modifies this, rows
      ensures Valid() && fresh(rows - old(rows))
      ensures run[|b.titles|] == Progress(View(), level, run[0].created + created, run[0].updated + updated)
    {
      created, updated := 0, 0;
      for j := 0 to |b.titles|
        invariant Valid() && fresh(rows - old(rows))
        invariant run[j] == Progress(View(), level, run[0].created + created, run[0].updated + updated)
      {
        var isNew, changed := SeedTitle(b, j, level, order, slugify, meta, run);
        created := created + if isNew then 1 else 0;
        updated := updated + if changed then 1 else 0;
      }
    }

    /** Seeds one term block, whose topics are numbered from `order`. */
    method SeedBlock(b: Block, order: nat, slugify: string -> string, meta: map<string, Meta>, ghost p: Progress)
      returns (created: nat, updated: nat)
      requires Valid() && p.tables == View()
      modifies this, rows
      ensures Valid() && fresh(rows - old(rows))
      ensures var q := Continue(p, BlockItems(b, order, slugify, meta), 1 + |b.titles|);
        q.tables == View() && q.created == p.created + created && q.updated == p.updated + updated
    {
      ghost var run := BlockRun(p, b, order, slugify, meta);
      var level := EnsureLevel(b.key, p);
      created, updated := SeedTitles(b, level, order, slugify, meta, run);
    }

    /** Seeds the curriculum, counting the rows created and changed. */
    method SeedCurriculum(blocks: seq<Block>, slugify: string -> string, meta: map<string, Meta>)
      returns (created: nat, updated: nat)
      requires Valid()
      modifies this, rows
      ensures Valid() && fresh(rows - old(rows))
      ensures var p := Seeded(Progress(old(View()), 0, 0, 0), blocks, slugify, meta);
        View() == p.tables && created == p.created && updated == p.updated
    {
      created, updated := 0, 0;
      var order := 0;
      ghost var start := Progress(View(), 0, 0, 0);
      ghost var p := start;
      for i := 0 to |blocks|
        invariant Valid() && fresh(rows - old(rows))
        invariant order == Orders(blocks[..i]) && p == Seeded(start, blocks[..i], slugify, meta)
        invariant p.tables == View() && p.created == created && p.updated == updated
      {
        SeededBlockByBlock(start, blocks, i, slugify, meta);
        var more, changed := SeedBlock(blocks[i], order, slugify, meta, p);
        p := Seeded(start, blocks[..i + 1], slugify, meta);
        created, updated, order := created + more, updated + changed, order + |blocks[i].titles|;
      }
      assert blocks[..|blocks|] == blocks;
    }
  }

  // ----- Whole curricula -----

  /**
   For every curriculum and every earlier state of the tables: a second run creates nothing and leaves every
   row and id as the first run left them.
   */
  lemma SecondRunChangesNothing(t: Tables, blocks: seq<Block>, slugify: string -> string, meta: map<string, Meta>)
    ensures var once := Seeded(Progress(t, 0, 0, 0), blocks, slugify, meta).tables;
      var again := Seeded(Progress(once, 0, 0, 0), blocks, slugify, meta);
      again.tables == once && again.created == 0
  {
    ItemsAreWellFormed(blocks, slugify, meta);
    SeedingIsIdempotent(t, Items(blocks, slugify, meta));
  }

  function Titles(blocks: seq<Block>): seq<string> {
    if blocks == [] then [] else Titles(blocks[..|blocks| - 1]) + blocks[|blocks| - 1].titles
  }

  ghost predicate HasEntry(items: seq<Item>, order: nat) {
    exists i :: 0 <= i < |items| && items[i].Topic? && items[i].order == order
  }

  /** The slug of a topic is made from the title at its place in the subject. */
  ghost predicate Titled(x: Item, titles: seq<string>, slugify: string -> string) {
    x.Topic? ==> x.order < |titles| && x.slug == slugify(titles[x.order])
  }

  lemma BlockIsTitled(head: seq<Item>, b: Block, earlier: seq<string>, slugify: string -> string,
                      meta: map<string, Meta>)
    requires forall x | x in head :: Titled(x, earlier, slugify)
    ensures forall x | x in head + BlockItems(b, |earlier|, slugify, meta) :: Titled(x, earlier + b.titles, slugify)
  {
    var block, titles := BlockItems(b, |earlier|, slugify, meta), earlier + b.titles;
    forall i | 0 <= i < |block|
      ensures Titled(block[i], titles, slugify)
    {
      assert i > 0 ==> block[1 + (i - 1)] == TopicItem(b, i - 1, |earlier|, slugify, meta);
    }
    forall x | x in head
      ensures Titled(x, titles, slugify)
    {
      assert Titled(x, earlier, slugify);
    }
  }

  lemma {:induction false} TopicsHaveTheirTitles(blocks: seq<Block>, slugify: string -> string,
                                                 meta: map<string, Meta>)
    ensures |Titles(blocks)| == Orders(blocks)
    ensures forall x | x in Items(blocks, slugify, meta) :: Titled(x, Titles(blocks), slugify)
  {
    if blocks == [] {
    } else {
      var before, b := blocks[..|blocks| - 1], blocks[|blocks| - 1];
      TopicsHaveTheirTitles(before, slugify, meta);
      BlockIsTitled(Items(before, slugify, meta), b, Titles(before), slugify, meta);
    }
  }

  lemma {:induction false} EveryTitleHasItsTopic(blocks: seq<Block>, slugify: string -> string,
                                                 meta: map<string, Meta>, order: nat)
    requires order < Orders(blocks)
    ensures HasEntry(Items(blocks, slugify, meta), order)
  {
    var before, b := blocks[..|blocks| - 1], blocks[|blocks| - 1];
    var head, block := Items(before, slugify, meta), BlockItems(b, Orders(before), slugify, meta);
    var items := head + block;
    if order < Orders(before) {
      EveryTitleHasItsTopic(before, slugify, meta, order);
      var i :| 0 <= i < |head| && head[i].Topic? && head[i].order == order;
      assert items[i].order == order;
    } else {
      var j := order - Orders(before);
      assert items[|head| + 1 + j] == block[1 + j] == TopicItem(b, j, Orders(before), slugify, meta);
    }
  }

  /** It reports that it updated nothing exactly when no two titles of the subject have the same slug. */
  lemma SecondRunReportsUpdates(t: Tables, blocks: seq<Block>, slugify: string -> string, meta: map<string, Meta>)
    ensures var once := Seeded(Progress(t, 0, 0, 0), blocks, slugify, meta).tables;
      Seeded(Progress(once, 0, 0, 0), blocks, slugify, meta).updated == 0
      <==> forall i, j | 0 <= i < j < |Titles(blocks)| :: slugify(Titles(blocks)[i]) != slugify(Titles(blocks)[j])
  {
    var items, titles := Items(blocks, slugify, meta), Titles(blocks);
    ItemsAreWellFormed(blocks, slugify, meta);
    TopicsHaveTheirTitles(blocks, slugify, meta);
    SecondRunIsSilentOnlyForDistinctSlugs(t, items);
    if i, j :| 0 <= i < j < |titles| && slugify(titles[i]) == slugify(titles[j]) {
      EveryTitleHasItsTopic(blocks, slugify, meta, i);
      EveryTitleHasItsTopic(blocks, slugify, meta, j);
      var a :| 0 <= a < |items| && items[a].Topic? && items[a].order == i;
      var b :| 0 <= b < |items| && items[b].Topic? && items[b].order == j;
      assert items[a] in items && items[b] in items && a < b;
    } else {
      forall a, b | 0 <= a < b < |items| && items[a].Topic? && items[b].Topic?
        ensures items[a].slug != items[b].slug
      {
        assert items[a] in items && items[b] in items;
      }
    }
  }

  /** Two titles that differ only in what a slug leaves out: the second run changes nothing and reports two updates. */
  lemma SharedSlugIsReportedTwice(t: Tables, slugify: string -> string)
    requires slugify("Sets") == slugify("Sets!")
    ensures var blocks := [Block(("SS1", "FIRST"), ["Sets", "Sets!"])];
      var once := Seeded(Progress(t, 0, 0, 0), blocks, slugify, map[]).tables;
      var again := Seeded(Progress(once, 0, 0, 0), blocks, slugify, map[]);
      again.tables == once && again.updated == 2
  {
    var b := Block(("SS1", "FIRST"), ["Sets", "Sets!"]);
    var blocks := [b];
    var items := Items(blocks, slugify, map[]);
    assert blocks[..0] == [] && Items([], slugify, map[]) == [] && Orders([]) == 0;
    assert items == [] + BlockItems(b, 0, slugify, map[]) == BlockItems(b, 0, slugify, map[]);
    assert items[1] == items[1 + 0] == TopicItem(b, 0, 0, slugify, map[]);
    assert items[2] == items[1 + 1] == TopicItem(b, 1, 0, slugify, map[]);
    ItemsAreWellFormed(blocks, slugify, map[]);
    SecondRunChangesNothing(t, blocks, slugify, map[]);
    SecondRunRewritesRepeatedSlugs(t, items, 3);
    assert Has(items, 2, items[1].slug) && Has(items, 1, items[2].slug);
    assert Repeated(items, 1) && Repeated(items, 2) && !Repeated(items, 0);
    assert CountRepeated(items, 0) == 0;
    assert CountRepeated(items, 1) == 0;
    assert CountRepeated(items, 2) == 1;
    assert CountRepeated(items, 3) == 2;
  }

  // ----- What the curriculum says of a topic -----

  /** The place of title j of block b in the flattened curriculum. */
  lemma {:induction false} EntryOf(blocks: seq<Block>, b: nat, j: nat, slugify: string -> string,
                                   meta: map<string, Meta>)
    returns (i: nat)
    requires b < |blocks| && j < |blocks[b].titles|
    ensures var items := Items(blocks, slugify, meta);
      i < |items| && items[i] == TopicItem(blocks[b], j, Orders(blocks[..b]), slugify, meta)
  {
    var n := |blocks| - 1;
    var before := blocks[..n];
    var head, block := Items(before, slugify, meta), BlockItems(blocks[n], Orders(before), slugify, meta);
    var items := head + block;
    assert Items(blocks, slugify, meta) == items;
    if b == n {
      i := |head| + 1 + j;
      assert items[i] == block[1 + j] == TopicItem(blocks[b], j, Orders(before), slugify, meta);
    } else {
      i := EntryOf(before, b, j, slugify, meta);
      assert before[..b] == blocks[..b] && before[b] == blocks[b];
      assert items[i] == head[i];
    }
  }

  lemma {:induction false} LastEntryIs(items: seq<Item>, i: nat, slug: string)
    requires Has(items, i, slug) && forall k | i < k < |items| :: !Has(items, k, slug)
    ensures LastAt(items, |items|, slug) == i
  {
  }

  /** Of the titles with one slug, the topic has the last one's: no later entry is for the same topic. */
  lemma {:induction false} NoLaterEntry(blocks: seq<Block>, i: nat, slugify: string -> string, meta: map<string, Meta>)
    requires var items := Items(blocks, slugify, meta); i < |items| && items[i].Topic?
    requires forall o | Items(blocks, slugify, meta)[i].order < o < |Titles(blocks)| ::
               slugify(Titles(blocks)[o]) != Items(blocks, slugify, meta)[i].slug
    ensures var items := Items(blocks, slugify, meta);
      forall k | i < k < |items| :: !Has(items, k, items[i].slug)
  {
    var items := Items(blocks, slugify, meta);
    ItemsAreWellFormed(blocks, slugify, meta);
    TopicsHaveTheirTitles(blocks, slugify, meta);
    forall k | i < k < |items| && items[k].Topic?
      ensures items[k].slug != items[i].slug
    {
      assert items[k] in items && items[i].order < items[k].order;
    }
  }

  /**
   After a run, the topic of a title that no later title shares its slug with has that title, its place in the
   subject, the level of its class and term, and the minutes and weights known for it, or 45 and none.
   */
  lemma EachTopicIsAsItsLastTitleSays(t: Tables, blocks: seq<Block>, b: nat, j: nat, slugify: string -> string,
                                      meta: map<string, Meta>)
    requires b < |blocks| && j < |blocks[b].titles|
    requires forall o | Orders(blocks[..b]) + j < o < |Titles(blocks)| ::
               slugify(Titles(blocks)[o]) != slugify(blocks[b].titles[j])
    ensures var now := Seeded(Progress(t, 0, 0, 0), blocks, slugify, meta).tables;
      var title := blocks[b].titles[j];
      var slug := slugify(title);
      && slug in now.topics && blocks[b].key in now.levels
      && SeededColumns() <= now.topics[slug].fields.Keys
      && var row := now.topics[slug].fields;
      && row[Title] == Text(title) && row[OrderIndex] == Number(Orders(blocks[..b]) + j)
      && row[LevelId] == Id(now.levels[blocks[b].key])
      && row[Minutes] == Number(if slug in meta then meta[slug].minutes else 45)
      && row[WaecWeight] == Weight(if slug in meta then meta[slug].waec else 0.0)
      && row[JambWeight] == Weight(if slug in meta then meta[slug].jamb else 0.0)
  {
    var items, slug := Items(blocks, slugify, meta), slugify(blocks[b].titles[j]);
    var i := EntryOf(blocks, b, j, slugify, meta);
    NoLaterEntry(blocks, i, slugify, meta);
    LastEntryIs(items, i, slug);
    ItemsAreWellFormed(blocks, slugify, meta);
    EachTopicTakesItsLastEntry(t, items, |items|, slug);
  }
}

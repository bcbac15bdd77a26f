/** Small runs of the pass worked out in full. */
module Scenarios {
  import opened TextOrder
  import opened Articles
  import opened Selection
  import opened StableSort
  import opened Series
  import opened SeriesProperties

  /** Three articles of series "Foo" with `series_index` 1, 2 and 3, listed
      as 2, 1, 3, under the default settings. */
  const FooFirst := Article(1, Some("Foo"), Some("1"), 30, None)
  const FooSecond := Article(2, Some("Foo"), Some("2"), 10, None)
  const FooThird := Article(3, Some("Foo"), Some("3"), 20, None)
  const FooInput := [FooSecond, FooFirst, FooThird]

  lemma FooKeys()
    ensures SortKeyOf(DefaultConfig, FooFirst) == ByIndex("1")
    ensures SortKeyOf(DefaultConfig, FooSecond) == ByIndex("2")
    ensures SortKeyOf(DefaultConfig, FooThird) == ByIndex("3")
    ensures LexLe("1", "3") && LexLe("2", "3") && !LexLe("2", "1")
  {
    assert "1"[1..] == [] && "2"[1..] == [] && "3"[1..] == [];
  }

  lemma FooBuckets()
    ensures Select(DefaultConfig, FooInput, InBucket("Foo", Numbered)) == FooInput
    ensures Select(DefaultConfig, FooInput, InBucket("Foo", Unnumbered)) == []
  {
    SelectEverything(DefaultConfig, FooInput, InBucket("Foo", Numbered));
    SelectNothing(DefaultConfig, FooInput, InBucket("Foo", Unnumbered));
  }

  lemma FooSortSteps()
    ensures SortBucket(DefaultConfig, FooInput) == [FooFirst, FooSecond, FooThird]
  {
    var cfg := DefaultConfig;
    FooKeys();
    assert FooInput[1..] == [FooFirst, FooThird] && [FooFirst, FooThird][1..] == [FooThird];
    assert SortBucket(cfg, [FooThird]) == [FooThird] by {
      assert [FooThird][1..] == [];
    }
    assert Insert(cfg, FooFirst, [FooThird]) == [FooFirst, FooThird];
    assert Insert(cfg, FooSecond, [FooThird]) == [FooSecond, FooThird];
    assert Insert(cfg, FooSecond, [FooFirst, FooThird]) == [FooFirst, FooSecond, FooThird];
  }

  lemma FooSorted()
    ensures Ordered(DefaultConfig, FooInput, "Foo") == [FooFirst, FooSecond, FooThird]
  {
    FooBuckets();
    FooSortSteps();
  }

  lemma FooNames()
    ensures SeriesNames(DefaultConfig, FooInput) == ["Foo"]
  {
    var s := FooInput;
    assert s[..2] == [FooSecond, FooFirst] && [FooSecond, FooFirst][..1] == [FooSecond];
    assert SeriesNames(DefaultConfig, [FooSecond]) == ["Foo"];
  }

  /** A run whose articles all join the one series `n` publishes that series alone. */
  lemma OneSeries(cfg: Config, s: seq<Article>, n: string)
    requires SeriesNames(cfg, s) == [n]
    ensures Apply(cfg, s).order == [n]
    ensures Apply(cfg, s).allSeries.Keys == {n}
    ensures Apply(cfg, s).allSeries[n] == Ordered(cfg, s, n)
  {
  }

  /** The series comes out ordered by index. */
  lemma FooPublished()
    ensures Apply(DefaultConfig, FooInput).allSeries.Keys == {"Foo"}
    ensures Apply(DefaultConfig, FooInput).allSeries["Foo"] == [FooFirst, FooSecond, FooThird]
  {
    FooSorted();
    FooNames();
    OneSeries(DefaultConfig, FooInput, "Foo");
  }

  lemma FooDistinct()
    ensures DistinctIds(FooInput)
  {
  }

  /** The middle article has index 2 and sits between the other two. */
  lemma FooMiddle()
    ensures 2 in Apply(DefaultConfig, FooInput).annotations
    ensures Apply(DefaultConfig, FooInput).annotations[2].index == 2
    ensures Apply(DefaultConfig, FooInput).annotations[2].previous == Some(FooFirst)
    ensures Apply(DefaultConfig, FooInput).annotations[2].next == Some(FooThird)
  {
    FooSorted();
    FooDistinct();
    AnnotatedAt(DefaultConfig, FooInput, "Foo", 1);
  }

  /** Two unnumbered articles of series "Bar", the later one listed first,
      with date sorting switched on. */
  const DateSort := Config(true, true, {})
  const BarEarly := Article(4, Some("Bar"), None, 100, Some(500))
  const BarLate := Article(5, Some("Bar"), None, 200, None)
  const BarInput := [BarLate, BarEarly]

  lemma BarSorted()
    ensures Ordered(DateSort, BarInput, "Bar") == [BarEarly, BarLate]
  {
    var cfg := DateSort;
    SelectNothing(cfg, BarInput, InBucket("Bar", Numbered));
    SelectEverything(cfg, BarInput, InBucket("Bar", Unnumbered));
    assert BarInput[1..] == [BarEarly] && [BarEarly][1..] == [];
    assert SortBucket(cfg, [BarEarly]) == [BarEarly];
    assert Insert(cfg, BarLate, [BarEarly]) == [BarEarly, BarLate];
  }

  lemma BarNames()
    ensures SeriesNames(DateSort, BarInput) == ["Bar"]
  {
    assert BarInput[..1] == [BarLate];
    assert SeriesNames(DateSort, [BarLate]) == ["Bar"];
  }

  /** With date sorting the publication dates decide, and the earlier
      article comes first although its modification date is later. */
  lemma BarScenario()
    ensures Apply(DateSort, BarInput).allSeries.Keys == {"Bar"}
    ensures Apply(DateSort, BarInput).allSeries["Bar"] == [BarEarly, BarLate]
  {
    BarSorted();
    BarNames();
    OneSeries(DateSort, BarInput, "Bar");
  }

  /** An unnumbered article of series "Baz" modified before it was published. */
  const Baz := Article(6, Some("Baz"), None, 300, Some(250))

  /** Without date sorting the modification date is the sort key. */
  lemma BazScenario()
    ensures Classify(DefaultConfig, Baz) == Join("Baz", Unnumbered)
    ensures SortKeyOf(DefaultConfig, Baz) == ByDate(250)
    ensures Apply(DefaultConfig, [Baz]).allSeries["Baz"] == [Baz]
  {
    var cfg := DefaultConfig;
    assert [Baz][..0] == [] && SeriesNames(cfg, [Baz]) == ["Baz"];
    SelectNothing(cfg, [Baz], InBucket("Baz", Numbered));
    SelectEverything(cfg, [Baz], InBucket("Baz", Unnumbered));
    assert SortBucket(cfg, [Baz]) == [Baz] by {
      assert [Baz][1..] == [];
    }
    OneSeries(cfg, [Baz], "Baz");
  }

  /** An article whose series is in the ignore list, next to a member of the
      series "Foo". */
  const Ignoring := Config(false, true, {"Drafts"})
  const Draft := Article(7, Some("Drafts"), Some("1"), 400, None)

  /** The ignored article joins no series, is in no published series and
      gets no `series` attribute. */
  lemma IgnoredScenario()
    ensures Classify(Ignoring, Draft) == Skip
    ensures "Drafts" !in Apply(Ignoring, [Draft, FooFirst]).allSeries
    ensures forall n :: n in Apply(Ignoring, [Draft, FooFirst]).allSeries ==>
      Draft !in Apply(Ignoring, [Draft, FooFirst]).allSeries[n]
    ensures 7 !in Apply(Ignoring, [Draft, FooFirst]).annotations
  {
    var s := [Draft, FooFirst];
    assert IdsNameArticles(s);
    ExcludedArticleUntouched(Ignoring, s, Draft);
    forall n {
      ExcludedFromSeries(Ignoring, s, Draft, n);
    }
    assert forall a :: a in s ==> a == Draft || a == FooFirst;
    SeriesMembership(Ignoring, s, "Drafts", Draft);
    ApplyNames(Ignoring, s);
  }
}

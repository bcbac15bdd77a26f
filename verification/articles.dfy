/** The article records the series pass reads, its three settings, and the
    per-article decisions of its first loop: whether the article joins a
    series, which of the two buckets it joins, and the key it is sorted by. */
module Articles {
  import opened TextOrder

  datatype Option<+T> = None | Some(value: T)

  /** Stands for the identity of a Pelican article object. */
  type ArticleId = int

  /** The fields of a Pelican article the pass reads. `series` and
      `seriesIndex` are the metadata entries of the same names (absent when
      the metadata has no such key); `modified` is `None` both when the
      article has no modification date and when it is empty. */
  datatype Article = Article(
    id: ArticleId,
    series: Option<string>,
    seriesIndex: Option<string>,
    date: int,
    modified: Option<int>)

  /** The `SERIES__*` settings. */
  datatype Config = Config(
    isDateSort: bool,
    isSeriesIndexEnabled: bool,
    ignoreSeriesTitles: set<string>)

  /** The values used when a setting is absent. */
  const DefaultConfig := Config(false, true, {})

  datatype Tier = Numbered | Unnumbered

  /** Where the first loop puts an article: nowhere, or one of the two
      buckets of the named series. */
  datatype Route = Skip | Join(name: string, tier: Tier)

  /** The article carries a `series_index` that is neither absent nor empty. */
  predicate HasIndex(a: Article)
  {
    a.seriesIndex.Some? && a.seriesIndex.value != ""
  }

  /** An included article goes to the numbered bucket exactly when index
      ordering is enabled and it carries a non-empty `series_index`. */
  predicate IsNumbered(cfg: Config, a: Article)
  {
    cfg.isSeriesIndexEnabled && HasIndex(a)
  }

  function Classify(cfg: Config, a: Article): Route
  {
    match a.series
    case None => Skip
    case Some(name) =>
      if name == "" || name in cfg.ignoreSeriesTitles then Skip
      else if IsNumbered(cfg, a) then Join(name, Numbered)
      else Join(name, Unnumbered)
  }

  /** The date an unnumbered article is sorted by (`_series_sort_date`). */
  function SortDate(cfg: Config, a: Article): int
  {
    if cfg.isDateSort then a.date
    else match a.modified
      case Some(m) => m
      case None => a.date
  }

  /** The value an article is compared by inside its bucket. */
  datatype SortKey = ByIndex(index: string) | ByDate(date: int)

  function SortKeyOf(cfg: Config, a: Article): SortKey
  {
    if IsNumbered(cfg, a) then ByIndex(a.seriesIndex.value)
    else ByDate(SortDate(cfg, a))
  }

  /** Ascending key order. Inside one bucket all keys have the same kind; across
      kinds an index key sorts first, matching the numbered-then-unnumbered
      concatenation. */
  predicate KeyLe(x: SortKey, y: SortKey)
  {
    match (x, y)
    case (ByIndex(i), ByIndex(j)) => LexLe(i, j)
    case (ByDate(d), ByDate(e)) => d <= e
    case (ByIndex(_), ByDate(_)) => true
    case (ByDate(_), ByIndex(_)) => false
  }

  lemma KeyLeReflexive(x: SortKey)
    ensures KeyLe(x, x)
  {
    if x.ByIndex? {
      LexLeReflexive(x.index);
    }
  }

  lemma KeyLeTotal(x: SortKey, y: SortKey)
    ensures KeyLe(x, y) || KeyLe(y, x)
  {
    if x.ByIndex? && y.ByIndex? {
      LexLeTotal(x.index, y.index);
    }
  }

  lemma KeyLeTransitive(x: SortKey, y: SortKey, z: SortKey)
    requires KeyLe(x, y) && KeyLe(y, z)
    ensures KeyLe(x, z)
  {
    if x.ByIndex? && y.ByIndex? && z.ByIndex? {
      LexLeTransitive(x.index, y.index, z.index);
    }
  }

  lemma KeyLeAntisymmetric(x: SortKey, y: SortKey)
    requires KeyLe(x, y) && KeyLe(y, x)
    ensures x == y
  {
    if x.ByIndex? && y.ByIndex? {
      LexLeAntisymmetric(x.index, y.index);
    }
  }

  /** An article's key kind tells its bucket: index keys belong to the
      numbered bucket and date keys to the unnumbered one, where the date
      follows the `is_date_sort` setting. */
  lemma {:induction false} KeyMatchesRoute(cfg: Config, a: Article)
    requires Classify(cfg, a).Join?
    ensures Classify(cfg, a).tier == Numbered <==> SortKeyOf(cfg, a).ByIndex?
    ensures Classify(cfg, a).tier == Numbered ==> SortKeyOf(cfg, a) == ByIndex(a.seriesIndex.value)
    ensures Classify(cfg, a).tier == Unnumbered ==>
      SortKeyOf(cfg, a) == ByDate(if cfg.isDateSort || a.modified.None? then a.date else a.modified.value)
  {
  }
}

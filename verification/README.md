# pelican-series3: the `apply_series` pass

A Dafny model of the series plugin for the Pelican static-site generator.
The plugin collects the articles that carry a `series` metadata label,
orders each series, gives every member a `series` attribute with its position
and neighbours, and publishes the `all_series` map.

The model is a pure function `Series.Apply(cfg, s)` from the settings and the
article list to an `Outcome`. The outcome has three parts:

- the series names in the order the first loop meets them, which is the
  insertion order of `all_series`;
- the `all_series` map;
- the `series` attribute of each annotated article, keyed by the article's
  identity.

Files, in dependency order:

- `text_order.dfy` (`TextOrder`): Python's `str` ordering, which compares
  code point by code point and puts a proper prefix first. It is a total order.
- `articles.dfy` (`Articles`): the article record and the three `SERIES__*`
  settings. It also holds the first loop's decisions:
  - `Classify` decides whether an article is skipped or joins the numbered
    or the unnumbered bucket of its series;
  - `SortDate` is `_series_sort_date`;
  - `SortKeyOf` is the key an article is sorted by.
- `selection.dfy` (`Selection`): the buckets as order-preserving selections
  of the input. Appending articles in input order, as the first loop does,
  yields exactly such a selection.
- `stable_sort.dfy` (`StableSort`): `list.sort(key=...)` as an insertion
  sort. The module proves the sort is sorted, permutes its input and is
  stable. It also proves that any sorted list with the same per-key order
  is that sort.
- `series.dfy` (`Series`): the concatenation of the two sorted buckets, the
  `series` attribute of each position, the second loop, and `Apply`.
- `series_properties.dfy` (`SeriesProperties`): what a run guarantees about
  `all_series` and the attributes.
- `scenarios.dfy` (`Scenarios`): small runs worked out in full.

Modelling choices:

- An article object's identity is its `id`. The attributes form a map from
  id to context, built series by series in `all_series` order; a later
  `setattr` on the same object replaces an earlier one. Since an id stands
  for an object, two different records never share one: lemmas that need
  this assume `IdsNameArticles`. The lemmas that pin down the attribute of
  one position also assume each object appears once in the input
  (`DistinctIds`), as it does in Pelican's article list.
- `series_index` is metadata text, so it is a string compared as a Python
  `str`: `"10"` sorts before `"2"` (`TextOrder.TextNotNumeric`).
- Dates are integers, for example timestamps. `modified` is `None` both when
  the article has no modification date and when it is empty; the code treats
  the two alike.
- The code has no fallback for a missing publication date. Pelican always
  sets `article.date`, so the model's date is always present, and no
  sentinel value orders an article without one.

## Model

| member | source | states |
|---|---|---|
| TextOrder.LexLeTotal | pelican_series3/pelican_series3.py:73-74 | any two `series_index` strings are comparable, so sorting the numbered bucket never fails on strings |
| TextOrder.LexLeTransitive | pelican_series3/pelican_series3.py:73-74 | string order on `series_index` is transitive |
| TextOrder.LexLeAntisymmetric | pelican_series3/pelican_series3.py:73-74 | two `series_index` strings that sort both ways are equal, so equal-key articles are exactly the ties the stable sort keeps in input order |
| TextOrder.TextNotNumeric | pelican_series3/pelican_series3.py:73-74 | indexes compare as text: "10" sorts before "2" |
| Articles.KeyLeTransitive | pelican_series3/pelican_series3.py:73-79 | the combined key order (index keys before date keys) is transitive |
| Articles.KeyMatchesRoute | pelican_series3/pelican_series3.py:50-67 | a numbered article is keyed by its `series_index`; an unnumbered one by its publication date when date sorting is on or it has no modification date, and by its modification date otherwise |
| Selection.SelectMembers | pelican_series3/pelican_series3.py:44-67 | a bucket holds exactly the input articles routed to it, each exactly as often as the input lists it |
| Selection.SeriesSplitsIntoBuckets | pelican_series3/pelican_series3.py:50-67 | every member of a series lands in exactly one of its two buckets |
| StableSort.SortBucketIsSorted | pelican_series3/pelican_series3.py:73-77 | a sorted bucket ascends by its key |
| StableSort.SortBucketPermutes | pelican_series3/pelican_series3.py:73-77 | sorting a bucket keeps each of its articles, as often as it occurs |
| StableSort.SortIsStable | pelican_series3/pelican_series3.py:73-77 | sorting keeps the input order of articles with equal keys |
| StableSort.SortIsTheStableSort | pelican_series3/pelican_series3.py:73-77 | any ascending list with the input's per-key order equals the sorted bucket, so the result is the one Python's stable sort gives |
| Series.ContextAtShape | pelican_series3/pelican_series3.py:81-89 | the attribute of position i has index i+1, the whole series, i articles before it, all_previous + [article] + all_next == all, and previous/next are absent exactly when all_previous/all_next are empty, otherwise the adjacent article |
| Series.SeriesNamesListed | pelican_series3/pelican_series3.py:42-53 | the series names have no repeats and contain exactly the labels of the articles that join a series |
| Series.SeriesNamesFirstMet | pelican_series3/pelican_series3.py:42-53 | the names come in first-met order: whenever an article joins a later name, an earlier article has joined each name before it |
| Series.ApplyFirstMet | pelican_series3/pelican_series3.py:42-71 | the published names, the iteration order of `all_series`, are in the order the first loop meets them |
| Series.AnnotateFromDescribes | pelican_series3/pelican_series3.py:81-91 | walking one series attaches to each of its articles a context describing that article's position, and leaves other attributes as they were |
| Series.AnnotateAllDescribes | pelican_series3/pelican_series3.py:71-91 | after walking every series, each article of each series has an attribute, and each attribute describes a position in one of the series |
| Series.OrderedIsPermutation | pelican_series3/pelican_series3.py:44-79 | a published series is a permutation of the input's members of that series, each as often as the input lists it |
| Series.OrderedMembers | pelican_series3/pelican_series3.py:44-79 | a published series has as many entries as the input has members of that series, and holds exactly those articles |
| Series.ApplyNames | pelican_series3/pelican_series3.py:42-94 | the published names have no repeats; `all_series` has an entry exactly for each label some joining article carries; each entry is the numbered bucket then the unnumbered bucket |
| Series.ApplyAnnotations | pelican_series3/pelican_series3.py:81-94 | each attribute names a published series, its `all` is that series' `all_series` entry, and it describes its article's position there |
| Series.MembersAreAnnotated | pelican_series3/pelican_series3.py:44-91 | every article that joins a series receives a `series` attribute |
| Series.AnnotatedIds | pelican_series3/pelican_series3.py:44-91 | an article object receives an attribute exactly when some input article with that identity joins a series |
| SeriesProperties.OrderedMembership | pelican_series3/pelican_series3.py:46-79 | an article is in series n exactly when the input lists it with label n and n is neither empty nor ignored |
| SeriesProperties.SeriesMembership | pelican_series3/pelican_series3.py:46-94 | `all_series[n]` exists and holds the article exactly when the input lists it with label n and n is neither empty nor ignored |
| SeriesProperties.ExcludedFromSeries | pelican_series3/pelican_series3.py:46 | an article with no label, an empty label or an ignored label is in no published series |
| SeriesProperties.ExcludedArticleUntouched | pelican_series3/pelican_series3.py:46 | an input article with no label, an empty label or an ignored label receives no attribute |
| SeriesProperties.NumberedBeforeUnnumbered | pelican_series3/pelican_series3.py:50-79 | the first k entries of a series, k being the numbered bucket's size, are exactly those with index ordering on and a non-empty `series_index`, whatever their keys |
| SeriesProperties.SeriesIsSorted | pelican_series3/pelican_series3.py:73-79 | a series ascends by key: the numbered part by `series_index` in string order, the unnumbered part by sort date |
| SeriesProperties.SeriesIsStable | pelican_series3/pelican_series3.py:73-79 | articles of one series with equal keys appear in the order the input lists them |
| SeriesProperties.SeriesIsOneStableSort | pelican_series3/pelican_series3.py:73-79 | the two-tier concatenation equals one stable sort of the whole series by key |
| SeriesProperties.AnnotatedAt | pelican_series3/pelican_series3.py:81-91 | the article at position i of a published series carries the context of exactly that position |
| SeriesProperties.AnnotationOfMember | pelican_series3/pelican_series3.py:81-91 | the attribute of position i: name n, index i+1, all == the series, all_previous == all[..i], all_next == all[i+1..], previous absent iff i == 0 and otherwise all[i-1], next absent iff i is last and otherwise all[i+1] |
| Scenarios.FooPublished | pelican_series3/pelican_series3.py:50-79 | articles of "Foo" listed with indexes 2, 1, 3 are published as the only series, in the order 1, 2, 3 |
| Scenarios.FooMiddle | pelican_series3/pelican_series3.py:81-91 | in that run the article with index "2" gets index 2, previous the first article and next the third |
| Scenarios.BarScenario | pelican_series3/pelican_series3.py:63-77 | with date sorting on, two unnumbered articles are ordered by publication date even when modification dates disagree |
| Scenarios.BazScenario | pelican_series3/pelican_series3.py:57-61 | with date sorting off, an unnumbered article with a modification date is keyed by that date |
| Scenarios.IgnoredScenario | pelican_series3/pelican_series3.py:46 | an article whose label is in the ignore list gets no series and no attribute |

## Left out

- `register` (lines 103-104) connects the pass to Pelican's signal. Signals are framework wiring.
- Reading the settings (lines 38-40) is replaced by the `Config` parameter. `DefaultConfig` holds the defaults False, True and an empty list.
- `_update_context` (line 99) and the `setattr` on the generator (line 97) hand the result to the template context. The model returns the `Outcome` instead.
- The `_series_sort_date` metadata write (lines 59-65) is not modelled as a write. Its value is `Articles.SortDate`, which is only used as the sort key.
- Mixed-type keys are not modelled, for example a non-string `series_index`, dates that cannot be compared, or a `TypeError` inside `list.sort`. Every key here has one type per bucket.
- `is_date_sort is False` tests identity, so a non-boolean setting takes the date-only branch. The setting is modelled as a `bool`.
- An empty-string `modified` is folded into `None`, since the code handles the two the same way.
- Idempotence of repeated runs is not stated as a separate lemma. `Apply` is a pure function of the list and the settings, and the previous run's attributes are not among its inputs, so a second run yields the same outcome.
- SeriesProperties.ExcludedArticleUntouched: requires that an id names one article (`IdsNameArticles`). This only rules out two different records with one id, which cannot stand for one Python object; a list that repeats an object is covered.
- SeriesProperties.AnnotatedAt: requires `DistinctIds`, since with a repeated object a later `setattr` overwrites an earlier one. Position i is taken in `Series.Ordered`, which `Series.ApplyNames` shows is the `all_series` entry.
- SeriesProperties.AnnotationOfMember: requires `DistinctIds`, for the same reason, and states position i of `Series.Ordered` as `Series.ApplyNames` links it to `all_series`.

/** One run of `apply_series`: classify every article, order each series as
    its numbered bucket followed by its unnumbered bucket, attach a `series`
    context to every member, and collect the `all_series` map. */
module Series {
  import opened Articles
  import opened Selection
  import opened StableSort

  /** The `series` attribute an article receives: the series name, the
      article's 1-based position, the whole ordered series, the parts before
      and after the article, and its direct neighbours. */
  datatype Context = Context(
    name: string,
    index: nat,
    all: seq<Article>,
    allPrevious: seq<Article>,
    allNext: seq<Article>,
    previous: Option<Article>,
    next: Option<Article>)

  /** What the pass publishes: the series names in the order they were first
      met (the insertion order of `all_series`), the `all_series` map, and the
      `series` attribute of each annotated article, keyed by article. */
  datatype Outcome = Outcome(
    order: seq<string>,
    allSeries: map<string, seq<Article>>,
    annotations: map<ArticleId, Context>)

  /** The context of the article at 0-based position `i` of the ordered series. */
  function ContextAt(name: string, all: seq<Article>, i: nat): Context
    requires i < |all|
  {
    Context(name, i + 1, all, all[..i], all[i + 1..],
      if i > 0 then Some(all[i - 1]) else None,
      if i + 1 < |all| then Some(all[i + 1]) else None)
  }

  /** The context of position `i`: index `i + 1`, the whole series split
      around the article into the parts before and after it, and neighbours
      that are absent exactly at the two ends. */
  lemma ContextAtShape(name: string, all: seq<Article>, i: nat)
    requires i < |all|
    ensures var c := ContextAt(name, all, i);
      && c.name == name && c.all == all
      && c.index == i + 1 && |c.allPrevious| == i
      && c.allPrevious + [all[i]] + c.allNext == all
      && (c.previous.None? <==> c.allPrevious == [])
      && (c.previous.Some? ==> c.previous.value == c.allPrevious[|c.allPrevious| - 1])
      && (c.next.None? <==> c.allNext == [])
      && (c.next.Some? ==> c.next.value == c.allNext[0])
  {
    assert all == all[..i] + [all[i]] + all[i + 1..];
  }

  /** `c` is the context of the article `id` at position `c.index` of `c.all`. */
  predicate Describes(c: Context, id: ArticleId)
  {
    && 1 <= c.index <= |c.all|
    && c.all[c.index - 1].id == id
    && c == ContextAt(c.name, c.all, c.index - 1)
  }

  /** The ordered series `name`: the numbered bucket sorted by `series_index`,
      then the unnumbered bucket sorted by date. Each bucket is collected in
      input order before it is sorted. */
  function Ordered(cfg: Config, s: seq<Article>, name: string): seq<Article>
  {
    SortBucket(cfg, Select(cfg, s, InBucket(name, Numbered)))
      + SortBucket(cfg, Select(cfg, s, InBucket(name, Unnumbered)))
  }

  /** The names of the series the articles join, in the order in which the
      first loop meets them. */
  function SeriesNames(cfg: Config, s: seq<Article>): seq<string>
    decreases |s|
  {
    if |s| == 0 then []
    else
      var names := SeriesNames(cfg, s[..|s| - 1]);
      match Classify(cfg, s[|s| - 1])
      case Join(n, _) => if n in names then names else names + [n]
      case Skip => names
  }

  /** Each name is listed once, and the names listed are exactly the labels
      of the articles that join a series. */
  lemma {:induction false} SeriesNamesListed(cfg: Config, s: seq<Article>)
    ensures forall i, j :: 0 <= i < j < |SeriesNames(cfg, s)| ==> SeriesNames(cfg, s)[i] != SeriesNames(cfg, s)[j]
    ensures forall n :: n in SeriesNames(cfg, s) <==> exists a :: a in s && Selects(cfg, InSeries(n), a)
    decreases |s|
  {
    if |s| > 0 {
      var init, last := s[..|s| - 1], s[|s| - 1];
      assert s == init + [last];
      SeriesNamesListed(cfg, init);
      assert forall a :: a in s <==> a in init || a == last;
      if Classify(cfg, last).Join? {
        assert last in s && Selects(cfg, InSeries(Classify(cfg, last).name), last);
      }
    }
  }

  /** The names come in the order the first loop meets them: wherever an
      article joins a later name, some earlier article has joined every name
      listed before it. */
  lemma {:induction false} SeriesNamesFirstMet(cfg: Config, s: seq<Article>)
    ensures forall i, j, q ::
              0 <= i < j < |SeriesNames(cfg, s)| && 0 <= q < |s| && Selects(cfg, InSeries(SeriesNames(cfg, s)[j]), s[q])
              ==> exists p :: 0 <= p < q && Selects(cfg, InSeries(SeriesNames(cfg, s)[i]), s[p])
    decreases |s|
  {
    if |s| > 0 {
      var init := s[..|s| - 1];
      var names, older := SeriesNames(cfg, s), SeriesNames(cfg, init);
      SeriesNamesFirstMet(cfg, init);
      SeriesNamesListed(cfg, init);
      assert |names| <= |older| + 1 && names[..|older|] == older;
      forall i, j, q | 0 <= i < j < |names| && 0 <= q < |s| && Selects(cfg, InSeries(names[j]), s[q])
        ensures exists p :: 0 <= p < q && Selects(cfg, InSeries(names[i]), s[p])
      {
        assert names[i] == older[i];
        if q < |init| {
          assert s[q] == init[q] && s[q] in init;
          assert j < |older|;
          var p :| 0 <= p < q && Selects(cfg, InSeries(older[i]), init[p]);
          assert s[p] == init[p];
        } else {
          assert older[i] in older;
          var b :| b in init && Selects(cfg, InSeries(older[i]), b);
          var p :| 0 <= p < |init| && init[p] == b;
          assert s[p] == b;
        }
      }
    }
  }

  function IdsOf(all: seq<Article>): set<ArticleId>
  {
    set a | a in all :: a.id
  }

  /** The second loop's inner walk: attach the context of positions `i..` of
      the ordered series to their articles, over the attachments made so
      far; a later attachment replaces an earlier one. */
  function AnnotateFrom(name: string, all: seq<Article>, i: nat, acc: map<ArticleId, Context>): map<ArticleId, Context>
    requires i <= |all|
    decreases |all| - i
  {
    if i == |all| then acc
    else AnnotateFrom(name, all, i + 1, acc[all[i].id := ContextAt(name, all, i)])
  }

  /** The walk attaches a context to every article of positions `i..`, each
      describing its article's place in the series, and keeps the other
      attachments. */
  lemma {:induction false} AnnotateFromDescribes(name: string, all: seq<Article>, i: nat, acc: map<ArticleId, Context>)
    requires i <= |all|
    ensures AnnotateFrom(name, all, i, acc).Keys == acc.Keys + IdsOf(all[i..])
    ensures forall id :: id in AnnotateFrom(name, all, i, acc) ==>
      (id in acc && id !in IdsOf(all[i..]) && AnnotateFrom(name, all, i, acc)[id] == acc[id]) ||
      (AnnotateFrom(name, all, i, acc)[id].name == name && AnnotateFrom(name, all, i, acc)[id].all == all
        && Describes(AnnotateFrom(name, all, i, acc)[id], id))
    decreases |all| - i
  {
    if i < |all| {
      assert IdsOf(all[i..]) == {all[i].id} + IdsOf(all[i + 1..]) by {
        assert all[i..] == [all[i]] + all[i + 1..];
      }
      var c := ContextAt(name, all, i);
      assert Describes(c, all[i].id);
      AnnotateFromDescribes(name, all, i + 1, acc[all[i].id := c]);
    }
  }

  /** The ids of the articles of the given series. */
  function IdsIn(groups: seq<(string, seq<Article>)>): set<ArticleId>
    decreases |groups|
  {
    if |groups| == 0 then {} else IdsOf(groups[0].1) + IdsIn(groups[1..])
  }

  /** The second loop: annotate the ordered series `groups`, in turn. */
  function AnnotateAll(groups: seq<(string, seq<Article>)>, acc: map<ArticleId, Context>): map<ArticleId, Context>
    decreases |groups|
  {
    if |groups| == 0 then acc
    else AnnotateAll(groups[1..], AnnotateFrom(groups[0].0, groups[0].1, 0, acc))
  }

  /** After the second loop every article of every series has a context that
      describes it within one of the series, and the other attachments are
      kept. */
  lemma {:induction false} AnnotateAllDescribes(groups: seq<(string, seq<Article>)>, acc: map<ArticleId, Context>)
    ensures AnnotateAll(groups, acc).Keys == acc.Keys + IdsIn(groups)
    ensures forall id :: id in AnnotateAll(groups, acc) ==>
      (id in acc && AnnotateAll(groups, acc)[id] == acc[id]) ||
      ((AnnotateAll(groups, acc)[id].name, AnnotateAll(groups, acc)[id].all) in groups
        && Describes(AnnotateAll(groups, acc)[id], id))
    decreases |groups|
  {
    if |groups| > 0 {
      var (n, all) := groups[0];
      assert groups == [groups[0]] + groups[1..];
      assert all[0..] == all;
      AnnotateFromDescribes(n, all, 0, acc);
      AnnotateAllDescribes(groups[1..], AnnotateFrom(n, all, 0, acc));
    }
  }

  /** Each series name paired with its ordered series. */
  function Groups(cfg: Config, s: seq<Article>, names: seq<string>): seq<(string, seq<Article>)>
  {
    seq(|names|, i requires 0 <= i < |names| => (names[i], Ordered(cfg, s, names[i])))
  }

  lemma GroupsMembers(cfg: Config, s: seq<Article>, names: seq<string>)
    ensures forall n, all :: (n, all) in Groups(cfg, s, names) ==> n in names && all == Ordered(cfg, s, n)
  {
    var groups := Groups(cfg, s, names);
    forall n, all | (n, all) in groups
      ensures n in names && all == Ordered(cfg, s, n)
    {
      var i :| 0 <= i < |groups| && groups[i] == (n, all);
    }
  }

  lemma {:induction false} IdsInCovers(groups: seq<(string, seq<Article>)>, i: nat)
    requires i < |groups|
    ensures IdsOf(groups[i].1) <= IdsIn(groups)
    decreases i
  {
    if i > 0 {
      IdsInCovers(groups[1..], i - 1);
    }
  }

  /** A published series is a permutation of the articles labelled with its
      name: each occurs as often as the input lists it. */
  lemma OrderedIsPermutation(cfg: Config, s: seq<Article>, n: string)
    ensures multiset(Ordered(cfg, s, n)) == multiset(Select(cfg, s, InSeries(n)))
  {
    SeriesSplitsIntoBuckets(cfg, s, n);
    SortBucketPermutes(cfg, Select(cfg, s, InBucket(n, Numbered)));
    SortBucketPermutes(cfg, Select(cfg, s, InBucket(n, Unnumbered)));
  }

  /** A published series has one entry per labelled article, and holds
      exactly the input articles labelled with its name. */
  lemma OrderedMembers(cfg: Config, s: seq<Article>, n: string)
    ensures |Ordered(cfg, s, n)| == |Select(cfg, s, InSeries(n))|
    ensures forall a :: a in Ordered(cfg, s, n) <==> a in s && Selects(cfg, InSeries(n), a)
  {
    OrderedIsPermutation(cfg, s, n);
    SelectMembers(cfg, s, InSeries(n));
    assert |multiset(Ordered(cfg, s, n))| == |Ordered(cfg, s, n)|;
    forall a
      ensures a in Ordered(cfg, s, n) <==> a in s && Selects(cfg, InSeries(n), a)
    {
      assert a in Ordered(cfg, s, n) <==> a in multiset(Ordered(cfg, s, n));
    }
  }

  lemma MembersHaveIds(cfg: Config, s: seq<Article>)
    ensures forall a :: a in s && Classify(cfg, a).Join? ==> a.id in IdsIn(Groups(cfg, s, SeriesNames(cfg, s)))
  {
    var names := SeriesNames(cfg, s);
    var groups := Groups(cfg, s, names);
    SeriesNamesListed(cfg, s);
    forall a | a in s && Classify(cfg, a).Join?
      ensures a.id in IdsIn(groups)
    {
      var n := Classify(cfg, a).name;
      assert Selects(cfg, InSeries(n), a);
      var i :| 0 <= i < |names| && names[i] == n;
      OrderedMembers(cfg, s, n);
      assert a in groups[i].1;
      IdsInCovers(groups, i);
    }
  }

  /** `apply_series` over the article list `s` with settings `cfg`. */
  function Apply(cfg: Config, s: seq<Article>): Outcome
  {
    var names := SeriesNames(cfg, s);
    Outcome(names, map n | n in names :: Ordered(cfg, s, n), AnnotateAll(Groups(cfg, s, names), map[]))
  }

  /** The names a run publishes: each joined series name once, in the order
      first met, and `all_series` has an entry for exactly those names,
      holding the series in its two-tier order. */
  lemma ApplyNames(cfg: Config, s: seq<Article>)
    ensures forall i, j :: 0 <= i < j < |Apply(cfg, s).order| ==> Apply(cfg, s).order[i] != Apply(cfg, s).order[j]
    ensures forall n :: n in Apply(cfg, s).order <==> n in Apply(cfg, s).allSeries
    ensures forall n :: n in Apply(cfg, s).allSeries <==> exists a :: a in s && Selects(cfg, InSeries(n), a)
    ensures forall n :: n in Apply(cfg, s).allSeries ==> Apply(cfg, s).allSeries[n] == Ordered(cfg, s, n)
  {
    var out := Apply(cfg, s);
    SeriesNamesListed(cfg, s);
    assert out.order == SeriesNames(cfg, s);
  }

  /** `all_series` lists its names in the order the first loop meets them. */
  lemma ApplyFirstMet(cfg: Config, s: seq<Article>)
    ensures forall i, j, q ::
              0 <= i < j < |Apply(cfg, s).order| && 0 <= q < |s| && Selects(cfg, InSeries(Apply(cfg, s).order[j]), s[q])
              ==> exists p :: 0 <= p < q && Selects(cfg, InSeries(Apply(cfg, s).order[i]), s[p])
  {
    SeriesNamesFirstMet(cfg, s);
    assert Apply(cfg, s).order == SeriesNames(cfg, s);
  }

  /** Every `series` attribute describes its article's place in the
      published series it names. */
  lemma ApplyAnnotations(cfg: Config, s: seq<Article>)
    ensures forall id :: id in Apply(cfg, s).annotations ==>
      Apply(cfg, s).annotations[id].name in Apply(cfg, s).allSeries
      && Apply(cfg, s).annotations[id].all == Apply(cfg, s).allSeries[Apply(cfg, s).annotations[id].name]
      && Describes(Apply(cfg, s).annotations[id], id)
  {
    var names := SeriesNames(cfg, s);
    GroupsMembers(cfg, s, names);
    AnnotateAllDescribes(Groups(cfg, s, names), map[]);
  }

  /** Every article that joins a series receives a `series` attribute. */
  lemma MembersAreAnnotated(cfg: Config, s: seq<Article>, a: Article)
    requires a in s && Classify(cfg, a).Join?
    ensures a.id in Apply(cfg, s).annotations
  {
    MembersHaveIds(cfg, s);
    AnnotateAllDescribes(Groups(cfg, s, SeriesNames(cfg, s)), map[]);
  }

  /** A context that describes `id` within an ordered series points at an
      input article of that series carrying `id`. */
  lemma DescribedMember(cfg: Config, s: seq<Article>, c: Context, id: ArticleId) returns (b: Article)
    requires c.all == Ordered(cfg, s, c.name) && Describes(c, id)
    ensures b in s && Classify(cfg, b).Join? && b.id == id
  {
    b := c.all[c.index - 1];
    OrderedMembers(cfg, s, c.name);
    assert b in c.all;
  }

  /** The articles that receive a `series` attribute are exactly the input
      articles that join a series. */
  lemma AnnotatedIds(cfg: Config, s: seq<Article>, id: ArticleId)
    ensures id in Apply(cfg, s).annotations <==> exists a :: a in s && Classify(cfg, a).Join? && a.id == id
  {
    if id in Apply(cfg, s).annotations {
      ApplyAnnotations(cfg, s);
      var c := Apply(cfg, s).annotations[id];
      assert c.all == Ordered(cfg, s, c.name) && Describes(c, id);
      var b := DescribedMember(cfg, s, c, id);
      assert b in s && Classify(cfg, b).Join? && b.id == id;
    }
    if a :| a in s && Classify(cfg, a).Join? && a.id == id {
      MembersAreAnnotated(cfg, s, a);
    }
  }
}

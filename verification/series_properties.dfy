/** What a run of `apply_series` guarantees about the `all_series` map and the
    `series` attributes it publishes. */
module SeriesProperties {
  import opened TextOrder
  import opened Articles
  import opened Selection
  import opened StableSort
  import opened Series

  /** Each article object is listed once, so an id names one article. */
  predicate DistinctIds(s: seq<Article>)
  {
    forall i, j :: 0 <= i < j < |s| ==> s[i].id != s[j].id
  }

  /** An id names one article, though the list may repeat that article. */
  predicate IdsNameArticles(s: seq<Article>)
  {
    forall i, j :: 0 <= i < |s| && 0 <= j < |s| && s[i].id == s[j].id ==> s[i] == s[j]
  }

  /** A list that names each article once lets an id name one article. */
  lemma SameIdSameArticle(s: seq<Article>)
    requires DistinctIds(s)
    ensures IdsNameArticles(s)
  {
  }

  lemma {:induction false} DistinctIdsOnce(s: seq<Article>, x: Article)
    requires DistinctIds(s)
    ensures multiset(s)[x] <= 1
    decreases |s|
  {
    if |s| > 0 {
      assert s == [s[0]] + s[1..];
      assert DistinctIds(s[1..]) by {
        forall i, j | 0 <= i < j < |s[1..]|
          ensures s[1..][i].id != s[1..][j].id
        {
          assert s[1..][i] == s[i + 1] && s[1..][j] == s[j + 1];
        }
      }
      DistinctIdsOnce(s[1..], x);
    }
  }

  lemma TwiceListed(t: seq<Article>, p: nat, q: nat)
    requires p < q < |t| && t[p] == t[q]
    ensures multiset(t)[t[p]] >= 2
  {
    assert t == t[..q] + [t[q]] + t[q + 1..];
    assert t[p] in t[..q];
    assert multiset(t) == multiset(t[..q]) + multiset{t[q]} + multiset(t[q + 1..]);
  }

  /** Part of a list that names each article once names each article once. */
  lemma DistinctIdsKept(s: seq<Article>, t: seq<Article>)
    requires DistinctIds(s) && multiset(t) <= multiset(s)
    ensures DistinctIds(t)
  {
    forall p, q | 0 <= p < q < |t|
      ensures t[p].id != t[q].id
    {
      if t[p].id == t[q].id {
        assert t[p] in multiset(s) && t[q] in multiset(s);
        SameIdSameArticle(s);
        TwiceListed(t, p, q);
        DistinctIdsOnce(s, t[p]);
      }
    }
  }

  lemma OrderedMembership(cfg: Config, s: seq<Article>, n: string, a: Article)
    ensures a in Ordered(cfg, s, n) <==> a in s && a.series == Some(n) && n != "" && n !in cfg.ignoreSeriesTitles
  {
    OrderedMembers(cfg, s, n);
  }

  /** An article is in the published series `n` exactly when the input lists
      it with series label `n`, and `n` is neither empty nor ignored. */
  lemma SeriesMembership(cfg: Config, s: seq<Article>, n: string, a: Article)
    ensures (n in Apply(cfg, s).allSeries && a in Apply(cfg, s).allSeries[n])
        <==> (a in s && a.series == Some(n) && n != "" && n !in cfg.ignoreSeriesTitles)
  {
    var out := Apply(cfg, s);
    ApplyNames(cfg, s);
    OrderedMembership(cfg, s, n, a);
    if a in s && a.series == Some(n) && n != "" && n !in cfg.ignoreSeriesTitles {
      assert Selects(cfg, InSeries(n), a);
      assert n in out.allSeries;
    }
    if n in out.allSeries {
      assert out.allSeries[n] == Ordered(cfg, s, n);
    }
  }

  /** An article without a series label, with an empty one, or with an
      ignored one is in no published series. */
  lemma ExcludedFromSeries(cfg: Config, s: seq<Article>, a: Article, n: string)
    requires Classify(cfg, a) == Skip
    ensures n in Apply(cfg, s).allSeries ==> a !in Apply(cfg, s).allSeries[n]
  {
    SeriesMembership(cfg, s, n, a);
  }

  /** Such an article gets no `series` attribute either. */
  lemma ExcludedArticleUntouched(cfg: Config, s: seq<Article>, a: Article)
    requires a in s && Classify(cfg, a) == Skip
    requires IdsNameArticles(s)
    ensures a.id !in Apply(cfg, s).annotations
  {
    AnnotatedIds(cfg, s, a.id);
    assert forall b :: b in s && Classify(cfg, b).Join? ==> b.id != a.id;
  }


  lemma SortKeepsMembers(cfg: Config, b: seq<Article>)
    ensures forall a :: a in SortBucket(cfg, b) <==> a in b
    ensures |SortBucket(cfg, b)| == |b|
  {
    var r := SortBucket(cfg, b);
    SortBucketPermutes(cfg, b);
    assert |multiset(r)| == |multiset(b)|;
    forall a
      ensures a in r <==> a in b
    {
      assert a in r <==> a in multiset(r);
      assert a in b <==> a in multiset(b);
    }
  }

  /** The sorted bucket `t` of series `n` holds the articles routed there. */
  lemma BucketMembers(cfg: Config, s: seq<Article>, n: string, t: Tier)
    ensures forall a :: a in SortBucket(cfg, Select(cfg, s, InBucket(n, t))) <==> a in s && Classify(cfg, a) == Join(n, t)
  {
    SelectMembers(cfg, s, InBucket(n, t));
    SortKeepsMembers(cfg, Select(cfg, s, InBucket(n, t)));
  }

  /** Splitting a concatenation of a numbered and an unnumbered part by tier. */
  lemma TierSplit(cfg: Config, n: string, sn: seq<Article>, su: seq<Article>, all: seq<Article>)
    requires all == sn + su
    requires forall a :: a in sn ==> Classify(cfg, a) == Join(n, Numbered)
    requires forall a :: a in su ==> Classify(cfg, a) == Join(n, Unnumbered)
    ensures forall i :: 0 <= i < |all| ==> (i < |sn| <==> IsNumbered(cfg, all[i]))
  {
    forall i | 0 <= i < |all|
      ensures i < |sn| <==> IsNumbered(cfg, all[i])
    {
      if i < |sn| {
        assert all[i] == sn[i] && sn[i] in sn;
      } else {
        assert all[i] == su[i - |sn|] && su[i - |sn|] in su;
      }
    }
  }

  /** The numbered articles come first, then the unnumbered ones: the first
      `k` entries are exactly those with index ordering enabled and a
      non-empty `series_index`, whatever their dates or index values. */
  lemma NumberedBeforeUnnumbered(cfg: Config, s: seq<Article>, n: string)
    ensures |Select(cfg, s, InBucket(n, Numbered))| <= |Ordered(cfg, s, n)|
    ensures forall i :: 0 <= i < |Ordered(cfg, s, n)| ==>
      (i < |Select(cfg, s, InBucket(n, Numbered))| <==> IsNumbered(cfg, Ordered(cfg, s, n)[i]))
  {
    var nb, ub := Select(cfg, s, InBucket(n, Numbered)), Select(cfg, s, InBucket(n, Unnumbered));
    BucketMembers(cfg, s, n, Numbered);
    BucketMembers(cfg, s, n, Unnumbered);
    SortKeepsMembers(cfg, nb);
    TierSplit(cfg, n, SortBucket(cfg, nb), SortBucket(cfg, ub), Ordered(cfg, s, n));
  }

  /** Gluing a sorted run of index keys to a sorted run of date keys. */
  lemma ConcatSorted(cfg: Config, sn: seq<Article>, su: seq<Article>, all: seq<Article>)
    requires all == sn + su
    requires Sorted(cfg, sn) && Sorted(cfg, su)
    requires forall a :: a in sn ==> SortKeyOf(cfg, a).ByIndex?
    requires forall a :: a in su ==> SortKeyOf(cfg, a).ByDate?
    ensures Sorted(cfg, all)
  {
    forall i, j | 0 <= i < j < |all|
      ensures KeyLe(SortKeyOf(cfg, all[i]), SortKeyOf(cfg, all[j]))
    {
      if j < |sn| {
        assert all[i] == sn[i] && all[j] == sn[j];
      } else if |sn| <= i {
        assert all[i] == su[i - |sn|] && all[j] == su[j - |sn|];
      } else {
        assert all[i] == sn[i] && sn[i] in sn;
        assert all[j] == su[j - |sn|] && su[j - |sn|] in su;
      }
    }
  }

  /** What ascending key order means on each side of the tier boundary `k`. */
  lemma SortedTiers(cfg: Config, all: seq<Article>, k: nat)
    requires Sorted(cfg, all) && k <= |all|
    requires forall i :: 0 <= i < |all| ==> (i < k <==> IsNumbered(cfg, all[i]))
    ensures forall i, j :: 0 <= i < j < k ==>
      HasIndex(all[i]) && HasIndex(all[j]) && LexLe(all[i].seriesIndex.value, all[j].seriesIndex.value)
    ensures forall i, j :: k <= i < j < |all| ==> SortDate(cfg, all[i]) <= SortDate(cfg, all[j])
  {
    forall i, j | 0 <= i < j < k
      ensures HasIndex(all[i]) && HasIndex(all[j]) && LexLe(all[i].seriesIndex.value, all[j].seriesIndex.value)
    {
      assert IsNumbered(cfg, all[i]) && IsNumbered(cfg, all[j]);
      assert KeyLe(SortKeyOf(cfg, all[i]), SortKeyOf(cfg, all[j]));
    }
    forall i, j | k <= i < j < |all|
      ensures SortDate(cfg, all[i]) <= SortDate(cfg, all[j])
    {
      assert !IsNumbered(cfg, all[i]) && !IsNumbered(cfg, all[j]);
      assert KeyLe(SortKeyOf(cfg, all[i]), SortKeyOf(cfg, all[j]));
    }
  }

  /** A published series ascends by sort key: the numbered part by
      `series_index` in string order, the unnumbered part by sort date. */
  lemma SeriesIsSorted(cfg: Config, s: seq<Article>, n: string)
    ensures Sorted(cfg, Ordered(cfg, s, n))
    ensures |Select(cfg, s, InBucket(n, Numbered))| <= |Ordered(cfg, s, n)|
    ensures forall i, j :: 0 <= i < j < |Select(cfg, s, InBucket(n, Numbered))| ==>
      HasIndex(Ordered(cfg, s, n)[i]) && HasIndex(Ordered(cfg, s, n)[j])
      && LexLe(Ordered(cfg, s, n)[i].seriesIndex.value, Ordered(cfg, s, n)[j].seriesIndex.value)
    ensures forall i, j :: |Select(cfg, s, InBucket(n, Numbered))| <= i < j < |Ordered(cfg, s, n)| ==>
      SortDate(cfg, Ordered(cfg, s, n)[i]) <= SortDate(cfg, Ordered(cfg, s, n)[j])
  {
    var nb, ub := Select(cfg, s, InBucket(n, Numbered)), Select(cfg, s, InBucket(n, Unnumbered));
    BucketMembers(cfg, s, n, Numbered);
    BucketMembers(cfg, s, n, Unnumbered);
    SortBucketIsSorted(cfg, nb);
    SortBucketIsSorted(cfg, ub);
    ConcatSorted(cfg, SortBucket(cfg, nb), SortBucket(cfg, ub), Ordered(cfg, s, n));
    NumberedBeforeUnnumbered(cfg, s, n);
    SortedTiers(cfg, Ordered(cfg, s, n), |nb|);
  }

  /** Within series `n`, the articles with key `k` all sit in the bucket of
      the key's kind: the other bucket has none of them. */
  lemma KeyPicksBucket(cfg: Config, s: seq<Article>, n: string, k: SortKey)
    ensures var t, other := if k.ByIndex? then Numbered else Unnumbered, if k.ByIndex? then Unnumbered else Numbered;
      && Select(cfg, Select(cfg, s, InBucket(n, t)), HasKey(k)) == Select(cfg, Select(cfg, s, InSeries(n)), HasKey(k))
      && Select(cfg, Select(cfg, s, InBucket(n, other)), HasKey(k)) == []
  {
    var t, other := if k.ByIndex? then Numbered else Unnumbered, if k.ByIndex? then Unnumbered else Numbered;
    forall x
      ensures Selects(cfg, InBucket(n, t), x) && Selects(cfg, HasKey(k), x)
          <==> Selects(cfg, InSeries(n), x) && Selects(cfg, HasKey(k), x)
    {
    }
    SelectTwice(cfg, s, InBucket(n, t), HasKey(k), InSeries(n), HasKey(k));
    SelectMembers(cfg, s, InBucket(n, other));
    SelectNothing(cfg, Select(cfg, s, InBucket(n, other)), HasKey(k));
  }

  /** Stability across the whole series: the articles of a series that share
      a sort key appear in the order the input lists them. */
  lemma SeriesIsStable(cfg: Config, s: seq<Article>, n: string, k: SortKey)
    ensures Select(cfg, Ordered(cfg, s, n), HasKey(k)) == Select(cfg, Select(cfg, s, InSeries(n)), HasKey(k))
  {
    var nb, ub := Select(cfg, s, InBucket(n, Numbered)), Select(cfg, s, InBucket(n, Unnumbered));
    SelectAppend(cfg, SortBucket(cfg, nb), SortBucket(cfg, ub), HasKey(k));
    SortIsStable(cfg, nb, k);
    SortIsStable(cfg, ub, k);
    KeyPicksBucket(cfg, s, n, k);
  }

  /** The two-tier order is itself one stable sort of the series by sort key,
      since every index key sorts before every date key. */
  lemma SeriesIsOneStableSort(cfg: Config, s: seq<Article>, n: string)
    ensures Ordered(cfg, s, n) == SortBucket(cfg, Select(cfg, s, InSeries(n)))
  {
    SeriesIsSorted(cfg, s, n);
    forall k
      ensures Select(cfg, Ordered(cfg, s, n), HasKey(k)) == Select(cfg, Select(cfg, s, InSeries(n)), HasKey(k))
    {
      SeriesIsStable(cfg, s, n, k);
    }
    SortIsTheStableSort(cfg, Select(cfg, s, InSeries(n)), Ordered(cfg, s, n));
  }

  /** Only one position of a list with distinct ids holds a given id. */
  lemma OnePosition(all: seq<Article>, p: nat, q: nat)
    requires DistinctIds(all) && p < |all| && q < |all| && all[p].id == all[q].id
    ensures p == q
  {
  }

  lemma OrderedDistinct(cfg: Config, s: seq<Article>, n: string)
    requires DistinctIds(s)
    ensures DistinctIds(Ordered(cfg, s, n))
  {
    OrderedIsPermutation(cfg, s, n);
    SelectMembers(cfg, s, InSeries(n));
    DistinctIdsKept(s, Ordered(cfg, s, n));
  }

  /** An id names one article, which belongs to one series only. */
  lemma SameSeries(cfg: Config, s: seq<Article>, n: string, m: string, a: Article, b: Article)
    requires IdsNameArticles(s)
    requires a in Ordered(cfg, s, n) && b in Ordered(cfg, s, m) && a.id == b.id
    ensures n == m
  {
    OrderedMembers(cfg, s, n);
    OrderedMembers(cfg, s, m);
  }

  /** A context that describes the article at position `i` of series `n`
      is the context of that position. */
  lemma DescribedAt(cfg: Config, s: seq<Article>, n: string, i: nat, c: Context)
    requires DistinctIds(s)
    requires i < |Ordered(cfg, s, n)|
    requires c.all == Ordered(cfg, s, c.name) && Describes(c, Ordered(cfg, s, n)[i].id)
    ensures c == ContextAt(n, Ordered(cfg, s, n), i)
  {
    var all := Ordered(cfg, s, n);
    SameIdSameArticle(s);
    SameSeries(cfg, s, n, c.name, all[i], c.all[c.index - 1]);
    OrderedDistinct(cfg, s, n);
    OnePosition(all, c.index - 1, i);
  }

  /** The article at position `i` of a published series carries the context
      of exactly that position. */
  lemma AnnotatedAt(cfg: Config, s: seq<Article>, n: string, i: nat)
    requires DistinctIds(s)
    requires i < |Ordered(cfg, s, n)|
    ensures Ordered(cfg, s, n)[i].id in Apply(cfg, s).annotations
    ensures Apply(cfg, s).annotations[Ordered(cfg, s, n)[i].id] == ContextAt(n, Ordered(cfg, s, n), i)
  {
    var out := Apply(cfg, s);
    var all := Ordered(cfg, s, n);
    ApplyAnnotations(cfg, s);
    ApplyNames(cfg, s);
    OrderedMembers(cfg, s, n);
    assert all[i] in all;
    MembersAreAnnotated(cfg, s, all[i]);
    DescribedAt(cfg, s, n, i, out.annotations[all[i].id]);
  }

  /** The `series` attribute of the article at 0-based position `i` of the
      published series `n`: its 1-based index, the whole series, the parts
      before and after it, and its neighbours, absent at the two ends. */
  lemma AnnotationOfMember(cfg: Config, s: seq<Article>, n: string, i: nat)
    requires DistinctIds(s)
    requires i < |Ordered(cfg, s, n)|
    ensures Ordered(cfg, s, n)[i].id in Apply(cfg, s).annotations
    ensures var all, c := Ordered(cfg, s, n), Apply(cfg, s).annotations[Ordered(cfg, s, n)[i].id];
      && c.name == n
      && c.index == i + 1
      && c.all == all
      && c.allPrevious == all[..i]
      && c.allNext == all[i + 1..]
      && (c.previous.None? <==> i == 0)
      && (i > 0 ==> c.previous == Some(all[i - 1]))
      && (c.next.None? <==> i == |all| - 1)
      && (i < |all| - 1 ==> c.next == Some(all[i + 1]))
  {
    AnnotatedAt(cfg, s, n, i);
  }
}

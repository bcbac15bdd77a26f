/** Order-preserving subsequences of an article list: the members of a series,
    the members of one bucket of a series, and the articles that share a sort
    key. Appending articles one by one in input order, as the first loop of
    the pass does, yields exactly such a subsequence. */
module Selection {
  import opened Articles

  datatype Selector =
    | InSeries(name: string)
    | InBucket(name: string, tier: Tier)
    | HasKey(key: SortKey)

  predicate Selects(cfg: Config, sel: Selector, a: Article)
  {
    match sel
    case InSeries(n) => Classify(cfg, a).Join? && Classify(cfg, a).name == n
    case InBucket(n, t) => Classify(cfg, a) == Join(n, t)
    case HasKey(k) => SortKeyOf(cfg, a) == k
  }

  /** The articles of `s` that `sel` picks, in the order they occur in `s`. */
  function Select(cfg: Config, s: seq<Article>, sel: Selector): seq<Article>
    decreases |s|
  {
    if |s| == 0 then []
    else (if Selects(cfg, sel, s[0]) then [s[0]] else []) + Select(cfg, s[1..], sel)
  }

  /** A selection holds exactly the picked articles of `s`, each as often as
      `s` lists it. */
  lemma {:induction false} SelectMembers(cfg: Config, s: seq<Article>, sel: Selector)
    ensures forall a :: a in Select(cfg, s, sel) <==> a in s && Selects(cfg, sel, a)
    ensures forall a :: multiset(Select(cfg, s, sel))[a] == if Selects(cfg, sel, a) then multiset(s)[a] else 0
    ensures multiset(Select(cfg, s, sel)) <= multiset(s)
    decreases |s|
  {
    if |s| > 0 {
      SelectMembers(cfg, s[1..], sel);
      assert s == [s[0]] + s[1..];
    }
  }

  lemma {:induction false} SelectAppend(cfg: Config, s: seq<Article>, t: seq<Article>, sel: Selector)
    ensures Select(cfg, s + t, sel) == Select(cfg, s, sel) + Select(cfg, t, sel)
    decreases |s|
  {
    if |s| > 0 {
      assert (s + t)[1..] == s[1..] + t;
      SelectAppend(cfg, s[1..], t, sel);
    } else {
      assert s + t == t;
    }
  }

  /** A list all of whose articles are picked is its own selection. */
  lemma {:induction false} SelectEverything(cfg: Config, s: seq<Article>, sel: Selector)
    requires forall a :: a in s ==> Selects(cfg, sel, a)
    ensures Select(cfg, s, sel) == s
    decreases |s|
  {
    if |s| > 0 {
      SelectEverything(cfg, s[1..], sel);
      assert s == [s[0]] + s[1..];
    }
  }

  /** A list none of whose articles is picked selects nothing. */
  lemma {:induction false} SelectNothing(cfg: Config, s: seq<Article>, sel: Selector)
    requires forall a :: a in s ==> !Selects(cfg, sel, a)
    ensures Select(cfg, s, sel) == []
    decreases |s|
  {
    if |s| > 0 {
      SelectNothing(cfg, s[1..], sel);
    }
  }

  /** Two successive selections depend only on which articles pass both. */
  lemma {:induction false} SelectTwice(cfg: Config, s: seq<Article>, a: Selector, b: Selector, c: Selector, d: Selector)
    requires forall x :: Selects(cfg, a, x) && Selects(cfg, b, x) <==> Selects(cfg, c, x) && Selects(cfg, d, x)
    ensures Select(cfg, Select(cfg, s, a), b) == Select(cfg, Select(cfg, s, c), d)
    decreases |s|
  {
    if |s| > 0 {
      SelectTwice(cfg, s[1..], a, b, c, d);
      var x := s[0];
      var ha := if Selects(cfg, a, x) then [x] else [];
      var hc := if Selects(cfg, c, x) then [x] else [];
      assert Select(cfg, s, a) == ha + Select(cfg, s[1..], a);
      assert Select(cfg, s, c) == hc + Select(cfg, s[1..], c);
      SelectAppend(cfg, ha, Select(cfg, s[1..], a), b);
      SelectAppend(cfg, hc, Select(cfg, s[1..], c), d);
      assert Select(cfg, ha, b) == Select(cfg, hc, d) by {
        SingleSelect(cfg, x, a, b);
        SingleSelect(cfg, x, c, d);
      }
    }
  }

  lemma SingleSelect(cfg: Config, x: Article, a: Selector, b: Selector)
    ensures Select(cfg, if Selects(cfg, a, x) then [x] else [], b)
         == if Selects(cfg, a, x) && Selects(cfg, b, x) then [x] else []
  {
    if Selects(cfg, a, x) {
      assert [x][1..] == [];
    }
  }

  /** A series is the union of its two buckets. */
  lemma {:induction false} SeriesSplitsIntoBuckets(cfg: Config, s: seq<Article>, name: string)
    ensures multiset(Select(cfg, s, InSeries(name)))
         == multiset(Select(cfg, s, InBucket(name, Numbered))) + multiset(Select(cfg, s, InBucket(name, Unnumbered)))
    decreases |s|
  {
    if |s| > 0 {
      SeriesSplitsIntoBuckets(cfg, s[1..], name);
      var x := s[0];
      var series, numbered, unnumbered := InSeries(name), InBucket(name, Numbered), InBucket(name, Unnumbered);
      assert Select(cfg, s, series) == (if Selects(cfg, series, x) then [x] else []) + Select(cfg, s[1..], series);
      assert Select(cfg, s, numbered) == (if Selects(cfg, numbered, x) then [x] else []) + Select(cfg, s[1..], numbered);
      assert Select(cfg, s, unnumbered) == (if Selects(cfg, unnumbered, x) then [x] else []) + Select(cfg, s[1..], unnumbered);
      assert Selects(cfg, series, x) <==> Selects(cfg, numbered, x) || Selects(cfg, unnumbered, x);
      assert !(Selects(cfg, numbered, x) && Selects(cfg, unnumbered, x));
    }
  }
}

/** The ordering of one bucket: `list.sort` with a key, ascending. Python's
    sort is stable, so the result is the key-ordered permutation of the
    bucket in which articles with equal keys keep their input order. The sort
    here is an insertion sort; `SortIsTheStableSort` shows that any ordering
    with those two properties is the one it computes. */
module StableSort {
  import opened Articles
  import opened Selection

  /** Ascending by sort key. */
  predicate Sorted(cfg: Config, r: seq<Article>)
  {
    forall i, j :: 0 <= i < j < |r| ==> KeyLe(SortKeyOf(cfg, r[i]), SortKeyOf(cfg, r[j]))
  }

  /** Puts `x` in front of the first article whose key is not below its own,
      that is, before every article that has the same key. */
  function Insert(cfg: Config, x: Article, r: seq<Article>): seq<Article>
    decreases |r|
  {
    if |r| == 0 then [x]
    else if KeyLe(SortKeyOf(cfg, x), SortKeyOf(cfg, r[0])) then [x] + r
    else [r[0]] + Insert(cfg, x, r[1..])
  }

  lemma {:induction false} InsertPermutes(cfg: Config, x: Article, r: seq<Article>)
    ensures multiset(Insert(cfg, x, r)) == multiset(r) + multiset{x}
    decreases |r|
  {
    if |r| > 0 && !KeyLe(SortKeyOf(cfg, x), SortKeyOf(cfg, r[0])) {
      InsertPermutes(cfg, x, r[1..]);
      assert r == [r[0]] + r[1..];
    }
  }

  lemma {:induction false} InsertKeepsSorted(cfg: Config, x: Article, r: seq<Article>)
    requires Sorted(cfg, r)
    ensures Sorted(cfg, Insert(cfg, x, r))
    decreases |r|
  {
    var kx := SortKeyOf(cfg, x);
    if |r| == 0 {
    } else if KeyLe(kx, SortKeyOf(cfg, r[0])) {
      forall z | z in r
        ensures KeyLe(kx, SortKeyOf(cfg, z))
      {
        var j :| 0 <= j < |r| && r[j] == z;
        if j > 0 {
          KeyLeTransitive(kx, SortKeyOf(cfg, r[0]), SortKeyOf(cfg, z));
        }
      }
      ConsSorted(cfg, x, r);
    } else {
      var k0 := SortKeyOf(cfg, r[0]);
      KeyLeTotal(kx, k0);
      InsertKeepsSorted(cfg, x, r[1..]);
      InsertAbove(cfg, k0, x, r[1..]);
      ConsSorted(cfg, r[0], Insert(cfg, x, r[1..]));
    }
  }

  /** A sorted list stays sorted behind an article whose key is below all of its keys. */
  lemma ConsSorted(cfg: Config, h: Article, t: seq<Article>)
    requires Sorted(cfg, t)
    requires forall z :: z in t ==> KeyLe(SortKeyOf(cfg, h), SortKeyOf(cfg, z))
    ensures Sorted(cfg, [h] + t)
  {
    var r := [h] + t;
    forall i, j | 0 <= i < j < |r|
      ensures KeyLe(SortKeyOf(cfg, r[i]), SortKeyOf(cfg, r[j]))
    {
      if i == 0 {
        assert r[j] == t[j - 1] && t[j - 1] in t;
      } else {
        assert r[i] == t[i - 1] && r[j] == t[j - 1];
      }
    }
  }

  /** A sorted list's tail, with `x` inserted, stays at or above a lower bound
      of both. */
  lemma InsertAbove(cfg: Config, k: SortKey, x: Article, r: seq<Article>)
    requires forall i :: 0 <= i < |r| ==> KeyLe(k, SortKeyOf(cfg, r[i]))
    requires KeyLe(k, SortKeyOf(cfg, x))
    ensures forall z :: z in Insert(cfg, x, r) ==> KeyLe(k, SortKeyOf(cfg, z))
  {
    InsertPermutes(cfg, x, r);
    forall z | z in Insert(cfg, x, r)
      ensures KeyLe(k, SortKeyOf(cfg, z))
    {
      assert z in multiset(Insert(cfg, x, r));
      if z != x {
        assert z in multiset(r);
        var j :| 0 <= j < |r| && r[j] == z;
      }
    }
  }

  /** `list.sort(key=...)` on one bucket: a sorted permutation of it. */
  function SortBucket(cfg: Config, s: seq<Article>): seq<Article>
    decreases |s|
  {
    if |s| == 0 then [] else Insert(cfg, s[0], SortBucket(cfg, s[1..]))
  }

  /** Sorting a bucket keeps each of its articles, as often as it occurs. */
  lemma {:induction false} SortBucketPermutes(cfg: Config, s: seq<Article>)
    ensures multiset(SortBucket(cfg, s)) == multiset(s)
    decreases |s|
  {
    if |s| > 0 {
      SortBucketPermutes(cfg, s[1..]);
      InsertPermutes(cfg, s[0], SortBucket(cfg, s[1..]));
      assert s == [s[0]] + s[1..];
    }
  }

  lemma {:induction false} SortBucketIsSorted(cfg: Config, s: seq<Article>)
    ensures Sorted(cfg, SortBucket(cfg, s))
    decreases |s|
  {
    if |s| > 0 {
      SortBucketIsSorted(cfg, s[1..]);
      InsertKeepsSorted(cfg, s[0], SortBucket(cfg, s[1..]));
    }
  }

  /** Inserting `x` adds it in front of the articles that share its key and
      leaves the articles of every other key as they were. */
  lemma {:induction false} InsertByKey(cfg: Config, x: Article, r: seq<Article>, k: SortKey)
    ensures Select(cfg, Insert(cfg, x, r), HasKey(k))
         == (if SortKeyOf(cfg, x) == k then [x] else []) + Select(cfg, r, HasKey(k))
    decreases |r|
  {
    var kx := SortKeyOf(cfg, x);
    var hx := if kx == k then [x] else [];
    if |r| == 0 {
      assert Select(cfg, [x], HasKey(k)) == hx + Select(cfg, [x][1..], HasKey(k));
    } else if KeyLe(kx, SortKeyOf(cfg, r[0])) {
      SelectAppend(cfg, [x], r, HasKey(k));
      assert Select(cfg, [x], HasKey(k)) == hx + Select(cfg, [x][1..], HasKey(k));
    } else {
      KeyLeReflexive(kx);
      assert SortKeyOf(cfg, r[0]) != kx;
      InsertByKey(cfg, x, r[1..], k);
      var tail := Insert(cfg, x, r[1..]);
      var h0 := if SortKeyOf(cfg, r[0]) == k then [r[0]] else [];
      assert ([r[0]] + tail)[1..] == tail;
      assert Select(cfg, [r[0]] + tail, HasKey(k)) == h0 + Select(cfg, tail, HasKey(k));
      assert Select(cfg, r, HasKey(k)) == h0 + Select(cfg, r[1..], HasKey(k));
      assert h0 == [] || hx == [];
    }
  }

  /** Stability: the articles that share a key come out in input order. */
  lemma {:induction false} SortIsStable(cfg: Config, s: seq<Article>, k: SortKey)
    ensures Select(cfg, SortBucket(cfg, s), HasKey(k)) == Select(cfg, s, HasKey(k))
    decreases |s|
  {
    if |s| > 0 {
      SortIsStable(cfg, s[1..], k);
      InsertByKey(cfg, s[0], SortBucket(cfg, s[1..]), k);
    }
  }

  /** A sorted list that has the same articles per key as a stable sort of the
      bucket is that sort: stability and order leave no other choice. */
  lemma {:induction false} SortIsTheStableSort(cfg: Config, s: seq<Article>, r: seq<Article>)
    requires Sorted(cfg, r)
    requires forall k :: Select(cfg, r, HasKey(k)) == Select(cfg, s, HasKey(k))
    ensures r == SortBucket(cfg, s)
  {
    var q := SortBucket(cfg, s);
    SortBucketIsSorted(cfg, s);
    forall k
      ensures Select(cfg, r, HasKey(k)) == Select(cfg, q, HasKey(k))
    {
      SortIsStable(cfg, s, k);
    }
    SortedUnique(cfg, r, q);
  }

  lemma {:induction false} SortedUnique(cfg: Config, r1: seq<Article>, r2: seq<Article>)
    requires Sorted(cfg, r1) && Sorted(cfg, r2)
    requires forall k :: Select(cfg, r1, HasKey(k)) == Select(cfg, r2, HasKey(k))
    ensures r1 == r2
    decreases |r1|
  {
    if |r1| == 0 {
      if |r2| > 0 {
        FirstIsSelected(cfg, r2);
      }
    } else if |r2| == 0 {
      FirstIsSelected(cfg, r1);
    } else {
      SameFirst(cfg, r1, r2);
      forall k
        ensures Select(cfg, r1[1..], HasKey(k)) == Select(cfg, r2[1..], HasKey(k))
      {
        SelectUncons(cfg, r1, HasKey(k));
        SelectUncons(cfg, r2, HasKey(k));
        var h := if Selects(cfg, HasKey(k), r1[0]) then [r1[0]] else [];
        var t1, t2 := Select(cfg, r1[1..], HasKey(k)), Select(cfg, r2[1..], HasKey(k));
        assert h + t1 == h + t2;
        assert t1 == (h + t1)[|h|..];
        assert t2 == (h + t2)[|h|..];
      }
      SortedUnique(cfg, r1[1..], r2[1..]);
      assert r1 == [r1[0]] + r1[1..];
      assert r2 == [r2[0]] + r2[1..];
    }
  }

  /** Two sorted lists with the same articles per key start alike. */
  lemma SameFirst(cfg: Config, r1: seq<Article>, r2: seq<Article>)
    requires |r1| > 0 && |r2| > 0
    requires Sorted(cfg, r1) && Sorted(cfg, r2)
    requires forall k :: Select(cfg, r1, HasKey(k)) == Select(cfg, r2, HasKey(k))
    ensures r1[0] == r2[0]
  {
    var a, b := r1[0], r2[0];
    var ka, kb := SortKeyOf(cfg, a), SortKeyOf(cfg, b);
    assert KeyLe(ka, kb) by {
      FirstIsSelected(cfg, r2);
      SelectMembers(cfg, r1, HasKey(kb));
      var j :| 0 <= j < |r1| && r1[j] == b;
      if j == 0 {
        KeyLeReflexive(ka);
      }
    }
    assert KeyLe(kb, ka) by {
      FirstIsSelected(cfg, r1);
      SelectMembers(cfg, r2, HasKey(ka));
      var j :| 0 <= j < |r2| && r2[j] == a;
      if j == 0 {
        KeyLeReflexive(kb);
      }
    }
    KeyLeAntisymmetric(ka, kb);
    SelectUncons(cfg, r1, HasKey(ka));
    SelectUncons(cfg, r2, HasKey(ka));
    assert Select(cfg, r1, HasKey(ka))[0] == a;
    assert Select(cfg, r2, HasKey(ka))[0] == b;
  }

  lemma SelectUncons(cfg: Config, r: seq<Article>, sel: Selector)
    requires |r| > 0
    ensures Select(cfg, r, sel) == (if Selects(cfg, sel, r[0]) then [r[0]] else []) + Select(cfg, r[1..], sel)
  {
  }

  lemma FirstIsSelected(cfg: Config, r: seq<Article>)
    requires |r| > 0
    ensures Select(cfg, r, HasKey(SortKeyOf(cfg, r[0]))) != []
  {
  }
}

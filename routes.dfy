/** The two list routes over `getAllPodcasts()`: app/api/popular-podcasts/route.ts ranks a
    copy by views and keeps ten, app/api/featured-podcasts/route.ts keeps the first six. */
module Routes {
  import opened Seqs
  import opened Text
  import opened Tables
  import opened PodcastSchema
  import opened Repository

  function Views(p: Podcast): nat {
    p.stats.views
  }

  /** Non-increasing view counts. */
  ghost predicate MostViewedFirst(s: seq<Podcast>) {
    forall i, j :: 0 <= i < j < |s| ==> Views(s[j]) <= Views(s[i])
  }

  function WithViews(v: nat): Podcast -> bool {
    (p: Podcast) => Views(p) == v
  }

  /** Places `x` before the first element that does not have more views than it, so that
      it stays ahead of the equal elements that came after it in the input. */
  function Insert(x: Podcast, s: seq<Podcast>): (r: seq<Podcast>)
    ensures |r| == |s| + 1
    ensures multiset(r) == multiset(s) + multiset{x}
    decreases |s|
  {
    if s == [] || Views(s[0]) <= Views(x) then [x] + s
    else
      MultisetCons(s);
      [s[0]] + Insert(x, s[1..])
  }

  /** The popular route's sort: a stable sort of a copy of the list by view count, most
      viewed first. */
  function ByViews(ps: seq<Podcast>): (r: seq<Podcast>)
    ensures |r| == |ps|
    ensures multiset(r) == multiset(ps)
    ensures MostViewedFirst(r)
    decreases |ps|
  {
    if ps == [] then []
    else
      var rest := ByViews(ps[1..]);
      InsertKeepsOrder(ps[0], rest);
      MultisetCons(ps);
      Insert(ps[0], rest)
  }

  lemma {:induction false} InsertKeepsOrder(x: Podcast, s: seq<Podcast>)
    requires MostViewedFirst(s)
    ensures MostViewedFirst(Insert(x, s))
    decreases |s|
  {
    if s != [] && Views(s[0]) > Views(x) {
      InsertKeepsOrder(x, s[1..]);
      var t := Insert(x, s[1..]);
      assert forall k :: 0 <= k < |t| ==> Views(t[k]) <= Views(s[0]) by {
        forall k | 0 <= k < |t| ensures Views(t[k]) <= Views(s[0]) {
          assert t[k] in multiset(s[1..]) + multiset{x};
          if t[k] != x {
            var m :| 0 <= m < |s[1..]| && s[1..][m] == t[k];
            assert s[m + 1] == t[k];
          }
        }
      }
    }
  }

  lemma FilterCons<T(!new)>(x: T, s: seq<T>, keep: T -> bool)
    ensures Filter([x] + s, keep) == (if keep(x) then [x] else []) + Filter(s, keep)
  {
    assert ([x] + s)[0] == x && ([x] + s)[1..] == s;
  }

  /** Among the podcasts with a given view count, `Insert` keeps `x` first. */
  lemma {:induction false} InsertStable(x: Podcast, s: seq<Podcast>, v: nat)
    ensures Filter(Insert(x, s), WithViews(v)) == Filter([x] + s, WithViews(v))
    decreases |s|
  {
    if s != [] && Views(s[0]) > Views(x) {
      InsertStable(x, s[1..], v);
      FilterCons(s[0], Insert(x, s[1..]), WithViews(v));
      FilterCons(x, s[1..], WithViews(v));
      FilterCons(x, s, WithViews(v));
      assert s == [s[0]] + s[1..];
      FilterCons(s[0], s[1..], WithViews(v));
    }
  }

  /** The sort is stable: the podcasts with any one view count keep their input order. */
  lemma {:induction false} ByViewsStable(ps: seq<Podcast>, v: nat)
    ensures Filter(ByViews(ps), WithViews(v)) == Filter(ps, WithViews(v))
    decreases |ps|
  {
    if ps != [] {
      ByViewsStable(ps[1..], v);
      InsertStable(ps[0], ByViews(ps[1..]), v);
      FilterCons(ps[0], ByViews(ps[1..]), WithViews(v));
      assert ps == [ps[0]] + ps[1..];
      FilterCons(ps[0], ps[1..], WithViews(v));
    }
  }

  function Min(a: nat, b: nat): nat {
    if a <= b then a else b
  }

  /** The first ten of the ranking, or all of it when shorter. */
  function Popular(all: seq<Podcast>): (r: seq<Podcast>)
    ensures |r| == Min(10, |all|)
    ensures MostViewedFirst(r)
    ensures r <= ByViews(all)
  {
    ByViews(all)[..Min(10, |all|)]
  }

  /** The ten are a selection of the input, and none of the podcasts left out has more
      views than any podcast kept. */
  lemma PopularIsTop(all: seq<Podcast>)
    ensures multiset(Popular(all)) <= multiset(all)
    ensures forall p, q :: p in Popular(all) && q in multiset(all) - multiset(Popular(all)) ==> Views(q) <= Views(p)
  {
    PrefixIsTop(ByViews(all), Min(10, |all|), Views);
  }

  /** The `GET` handler of app/api/popular-podcasts/route.ts. */
  function PopularPodcasts(db: Db): (r: seq<Podcast>)
    ensures !(AllTables <= db.tables) ==> r == []
    ensures AllTables <= db.tables ==> |r| == Min(10, |db.podcasts|)
  {
    Popular(GetAll(db))
  }

  /** The first six of the list, or all of it when shorter. */
  function Featured(all: seq<Podcast>): (r: seq<Podcast>)
    ensures |r| == Min(6, |all|)
    ensures r <= all
    ensures |all| <= 6 ==> r == all
  {
    all[..Min(6, |all|)]
  }

  /** The `GET` handler of app/api/featured-podcasts/route.ts: the six most recently
      published podcasts, newest first, or [] when the store fails. */
  function FeaturedPodcasts(db: Db): (r: seq<Podcast>)
    ensures !(AllTables <= db.tables) ==> r == []
    ensures AllTables <= db.tables ==> |r| == Min(6, |db.podcasts|)
    ensures forall i, j :: 0 <= i < |r| && |r| <= j < |GetAll(db)| ==>
              AtOrBefore(GetAll(db)[j].publishedAt, r[i].publishedAt)
  {
    Featured(GetAll(db))
  }
}

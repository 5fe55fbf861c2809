/** The read-only fixture API of app/lib/api.ts: lookups over the two podcast lists of the
    bundled feed file, with no database involved. */
module Api {
  import opened Wrappers
  import opened Seqs
  import opened Text
  import opened PodcastSchema

  /** The two podcast lists of the bundled feed file. */
  datatype Fixture = Fixture(trending: seq<Podcast>, popular: seq<Podcast>)

  /** `getTrendingPodcasts()`. */
  function TrendingPodcasts(f: Fixture): seq<Podcast> {
    f.trending
  }

  /** `getPopularPodcasts()`. */
  function PopularPodcasts(f: Fixture): seq<Podcast> {
    f.popular
  }

  /** The trending list followed by the popular list, as every lookup below sees them. */
  function AllPodcasts(f: Fixture): seq<Podcast> {
    f.trending + f.popular
  }

  /** The combined list is the trending list followed by the popular list, both unchanged. */
  lemma AllPodcastsSplit(f: Fixture)
    ensures |AllPodcasts(f)| == |TrendingPodcasts(f)| + |PopularPodcasts(f)|
    ensures AllPodcasts(f)[..|TrendingPodcasts(f)|] == TrendingPodcasts(f)
    ensures AllPodcasts(f)[|TrendingPodcasts(f)|..] == PopularPodcasts(f)
  {
  }

  /** The position `Array.prototype.find` stops at: the first podcast with the id, or `|ps|`. */
  function FirstWithId(ps: seq<Podcast>, id: string): (k: nat)
    ensures k <= |ps|
    ensures forall j :: 0 <= j < k ==> ps[j].id != id
    ensures k < |ps| ==> ps[k].id == id
    decreases |ps|
  {
    if ps == [] then 0
    else if ps[0].id == id then 0
    else 1 + FirstWithId(ps[1..], id)
  }

  /** `getPodcastById(id)`: the first podcast of trending ++ popular with that id, or null. */
  function PodcastById(f: Fixture, id: string): (r: Option<Podcast>)
    ensures r.None? <==> forall i :: 0 <= i < |AllPodcasts(f)| ==> AllPodcasts(f)[i].id != id
    ensures r.Some? ==> exists k :: 0 <= k < |AllPodcasts(f)| && AllPodcasts(f)[k] == r.value
                          && (forall j :: 0 <= j < k ==> AllPodcasts(f)[j].id != id)
    ensures r.Some? ==> r.value.id == id
  {
    var all := AllPodcasts(f);
    var k := FirstWithId(all, id);
    if k < |all| then Some(all[k]) else None
  }

  /** A trending podcast hides a popular one with the same id. */
  lemma PodcastByIdPrefersTrending(f: Fixture, id: string, t: nat)
    requires t < |f.trending| && f.trending[t].id == id
    ensures PodcastById(f, id).Some?
    ensures exists k :: 0 <= k <= t && PodcastById(f, id) == Some(f.trending[k])
  {
    var all := AllPodcasts(f);
    assert all[t] == f.trending[t];
    var k := FirstWithId(all, id);
    assert all[k] == f.trending[k];
  }

  /** Some tag of the podcast equals the slug once both are lowercased. */
  function InCategory(slug: string, lower: char -> char): Podcast -> bool {
    (p: Podcast) => exists i :: 0 <= i < |p.tags| && Lower(p.tags[i], lower) == Lower(slug, lower)
  }

  /** `getPodcastsByCategory(categorySlug)`. */
  function PodcastsByCategory(f: Fixture, slug: string, lower: char -> char): (r: seq<Podcast>)
    ensures forall p :: p in r <==>
              (p in AllPodcasts(f) && exists i :: 0 <= i < |p.tags| && Lower(p.tags[i], lower) == Lower(slug, lower))
    ensures forall p :: multiset(r)[p] ==
              if InCategory(slug, lower)(p) then multiset(AllPodcasts(f))[p] else 0
    ensures IsSubseq(r, AllPodcasts(f))
  {
    FilterIsSubseq(AllPodcasts(f), InCategory(slug, lower));
    FilterCounts(AllPodcasts(f), InCategory(slug, lower));
    Filter(AllPodcasts(f), InCategory(slug, lower))
  }

  /** The condition of `searchPodcasts`: the lowercased term occurs in the lowercased title,
      the lowercased description or some lowercased tag. */
  function Matches(term: string, lower: char -> char): Podcast -> bool {
    (p: Podcast) =>
      || Contains(Lower(p.title, lower), term)
      || Contains(Lower(p.description, lower), term)
      || exists i :: 0 <= i < |p.tags| && Contains(Lower(p.tags[i], lower), term)
  }

  /** `searchPodcasts(query)`. */
  function SearchPodcasts(f: Fixture, query: string, lower: char -> char): (r: seq<Podcast>)
    ensures forall p :: p in r <==> p in AllPodcasts(f) && Matches(Lower(query, lower), lower)(p)
    ensures forall p :: multiset(r)[p] ==
              if Matches(Lower(query, lower), lower)(p) then multiset(AllPodcasts(f))[p] else 0
    ensures IsSubseq(r, AllPodcasts(f))
  {
    FilterIsSubseq(AllPodcasts(f), Matches(Lower(query, lower), lower));
    FilterCounts(AllPodcasts(f), Matches(Lower(query, lower), lower));
    Filter(AllPodcasts(f), Matches(Lower(query, lower), lower))
  }

  /** An empty query matches every podcast, in order. */
  lemma SearchEmptyQuery(f: Fixture, lower: char -> char)
    ensures SearchPodcasts(f, "", lower) == AllPodcasts(f)
  {
    var all := AllPodcasts(f);
    forall i | 0 <= i < |all| ensures Matches(Lower("", lower), lower)(all[i]) {
      assert Lower("", lower) <= Lower(all[i].title, lower);
    }
    FilterKeepsAll(all, Matches(Lower("", lower), lower));
  }

  /** The podcasts of a category are found, in the same order, by searching for its slug. */
  lemma CategoryWithinSearch(f: Fixture, slug: string, lower: char -> char)
    ensures IsSubseq(PodcastsByCategory(f, slug, lower), SearchPodcasts(f, slug, lower))
  {
    var all := AllPodcasts(f);
    var term := Lower(slug, lower);
    forall i | 0 <= i < |all| && InCategory(slug, lower)(all[i])
      ensures Matches(term, lower)(all[i])
    {
      var k :| 0 <= k < |all[i].tags| && Lower(all[i].tags[k], lower) == term;
      assert term <= Lower(all[i].tags[k], lower);
    }
    FilterMonotone(all, InCategory(slug, lower), Matches(term, lower));
  }
}

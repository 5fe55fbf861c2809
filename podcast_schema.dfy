/** `PodcastSchema` of app/lib/db/podcasts.ts: the shape a podcast must have before it is
    written, the defaults zod fills in, the aggregate the repository reads back, and the
    merge `updatePodcast` performs before validating again. */
module PodcastSchema {
  import opened Wrappers
  import opened Text

  datatype MediaType = Audio | Video

  function KindName(m: MediaType): string {
    match m
    case Audio => "audio"
    case Video => "video"
  }

  /** The `type` enum: exactly "audio" or "video". */
  function ParseKind(s: Option<string>): (r: Option<MediaType>)
    ensures r.Some? <==> s == Some("audio") || s == Some("video")
    ensures r.Some? ==> s == Some(KindName(r.value))
  {
    if s == Some("audio") then Some(Audio)
    else if s == Some("video") then Some(Video)
    else None
  }

  datatype Author = Author(name: string, title: string, avatar: string)
  datatype Stats = Stats(views: nat, likes: nat, shares: nat)
  datatype Expert = Expert(name: string, avatar: string, comment: Option<string>)

  /** What `PodcastSchema.safeParse` returns on success: every default filled in. */
  datatype ValidPodcast = ValidPodcast(
    id: Option<string>, title: string, duration: string, mediaType: MediaType,
    publishedAt: string, cover: string, description: string, url: string,
    author: Author, tags: seq<string>, experts: seq<Expert>, stats: Stats)

  /** Data handed to `createPodcast` or, as a partial record, to `updatePodcast`: a key
      that is absent from the JavaScript object is `None`. */
  datatype AuthorInput = AuthorInput(name: Option<string>, title: Option<string>, avatar: Option<string>)
  datatype ExpertInput = ExpertInput(name: Option<string>, avatar: Option<string>, comment: Option<string>)
  datatype StatsInput = StatsInput(views: Option<int>, likes: Option<int>, shares: Option<int>)
  datatype PodcastInput = PodcastInput(
    id: Option<string>, title: Option<string>, duration: Option<string>, kind: Option<string>,
    publishedAt: Option<string>, cover: Option<string>, description: Option<string>, url: Option<string>,
    author: Option<AuthorInput>, tags: Option<seq<string>>, experts: Option<seq<ExpertInput>>,
    stats: Option<StatsInput>)

  const NoChanges: PodcastInput :=
    PodcastInput(None, None, None, None, None, None, None, None, None, None, None, None)

  /** A podcast as `getPodcastById` and `getAllPodcasts` reassemble it from the rows. */
  datatype ExpertComment = ExpertComment(name: string, avatar: string, comment: string)
  datatype Podcast = Podcast(
    id: string, title: string, duration: string, kind: string, publishedAt: string,
    cover: string, description: string, url: string,
    author: Author, tags: seq<string>, experts: seq<ExpertComment>, stats: Stats)

  /** The paths zod reports in its error. */
  datatype Field =
    | Title | Duration | Kind | PublishedAt | Cover | Description | Url
    | AuthorObject | AuthorName | AuthorTitle | AuthorAvatar
    | ExpertName(index: nat) | ExpertAvatar(index: nat)
    | Views | Likes | Shares

  /** A required string key that is present and not empty. */
  predicate Filled(s: Option<string>) {
    s.Some? && |s.value| >= 1
  }

  /** A stat is absent (it defaults to 0) or not negative. */
  predicate NonNegative(n: Option<int>) {
    n.None? || n.value >= 0
  }

  /** The rule the input breaks at path `f`. */
  predicate Violates(d: PodcastInput, f: Field) {
    match f
    case Title => !Filled(d.title)
    case Duration => !Filled(d.duration)
    case Kind => ParseKind(d.kind).None?
    case PublishedAt => d.publishedAt.None? || !IsDateTime(d.publishedAt.value)
    case Cover => !Filled(d.cover)
    case Description => !Filled(d.description)
    case Url => !Filled(d.url)
    case AuthorObject => d.author.None?
    case AuthorName => d.author.Some? && !Filled(d.author.value.name)
    case AuthorTitle => d.author.Some? && !Filled(d.author.value.title)
    case AuthorAvatar => d.author.Some? && !Filled(d.author.value.avatar)
    case ExpertName(i) => d.experts.Some? && i < |d.experts.value| && !Filled(d.experts.value[i].name)
    case ExpertAvatar(i) => d.experts.Some? && i < |d.experts.value| && !Filled(d.experts.value[i].avatar)
    case Views => d.stats.Some? && !NonNegative(d.stats.value.views)
    case Likes => d.stats.Some? && !NonNegative(d.stats.value.likes)
    case Shares => d.stats.Some? && !NonNegative(d.stats.value.shares)
  }

  /** The schema's rules, all at once. */
  ghost predicate Acceptable(d: PodcastInput) {
    && Filled(d.title) && Filled(d.duration)
    && (d.kind == Some("audio") || d.kind == Some("video"))
    && d.publishedAt.Some? && IsDateTime(d.publishedAt.value)
    && Filled(d.cover) && Filled(d.description) && Filled(d.url)
    && d.author.Some?
    && Filled(d.author.value.name) && Filled(d.author.value.title) && Filled(d.author.value.avatar)
    && (d.experts.Some? ==>
          forall i :: 0 <= i < |d.experts.value| ==> Filled(d.experts.value[i].name) && Filled(d.experts.value[i].avatar))
    && (d.stats.Some? ==>
          NonNegative(d.stats.value.views) && NonNegative(d.stats.value.likes) && NonNegative(d.stats.value.shares))
  }

  /** The paths zod can report for this input: the fixed keys and one pair per expert. */
  function Paths(d: PodcastInput): set<Field> {
    var n := if d.experts.Some? then |d.experts.value| else 0;
    {Title, Duration, Kind, PublishedAt, Cover, Description, Url,
     AuthorObject, AuthorName, AuthorTitle, AuthorAvatar, Views, Likes, Shares}
    + (set i: nat | i < n :: ExpertName(i)) + (set i: nat | i < n :: ExpertAvatar(i))
  }

  lemma ViolationsHavePaths(d: PodcastInput)
    ensures forall f :: Violates(d, f) ==> f in Paths(d)
  {
    forall f | Violates(d, f) ensures f in Paths(d) {
      match f
      case ExpertName(i) =>
      case ExpertAvatar(i) =>
      case _ =>
    }
  }

  /** Every path at which the input breaks a rule (zod collects all of them). */
  function Issues(d: PodcastInput): (r: set<Field>)
    ensures forall f :: f in r <==> Violates(d, f)
  {
    ViolationsHavePaths(d);
    set f | f in Paths(d) && Violates(d, f)
  }

  lemma NoIssuesIffAcceptable(d: PodcastInput)
    ensures Issues(d) == {} <==> Acceptable(d)
  {
    if Issues(d) == {} {
      assert forall f :: !Violates(d, f) by {
        forall f ensures !Violates(d, f) { assert f !in Issues(d); }
      }
      NoIssuesAcceptable(d);
    }
    if Acceptable(d) { AcceptableNoIssues(d); }
  }

  lemma NoIssuesAcceptable(d: PodcastInput)
    requires forall f :: !Violates(d, f)
    ensures Acceptable(d)
  {
    // the rule at each fixed key, instantiated once
    var fixedKeys := [
      !Violates(d, Title), !Violates(d, Duration), !Violates(d, Kind), !Violates(d, PublishedAt),
      !Violates(d, Cover), !Violates(d, Description), !Violates(d, Url), !Violates(d, AuthorObject),
      !Violates(d, AuthorName), !Violates(d, AuthorTitle), !Violates(d, AuthorAvatar),
      !Violates(d, Views), !Violates(d, Likes), !Violates(d, Shares)];
    if d.experts.Some? {
      var es := d.experts.value;
      forall i | 0 <= i < |es| ensures Filled(es[i].name) && Filled(es[i].avatar) {
        var perExpert := [!Violates(d, ExpertName(i)), !Violates(d, ExpertAvatar(i))];
      }
    }
  }

  lemma AcceptableNoIssues(d: PodcastInput)
    requires Acceptable(d)
    ensures Issues(d) == {}
  {
    forall f ensures !Violates(d, f) {
      match f
      case _ =>
    }
    assert forall f :: f !in Issues(d);
  }

  function ToExpert(e: ExpertInput): Expert
    requires e.name.Some? && e.avatar.Some?
  {
    Expert(e.name.value, e.avatar.value, e.comment)
  }

  function StatOr0(n: Option<int>): nat
    requires NonNegative(n)
  {
    if n.Some? then n.value else 0
  }

  /** `PodcastSchema.safeParse(d)`: the parsed record with defaults, or every failing path. */
  function Validate(d: PodcastInput): (r: Result<ValidPodcast, set<Field>>)
    ensures r.Ok? <==> Acceptable(d)
    ensures r.Err? ==> r.error != {} && forall f :: f in r.error <==> Violates(d, f)
    ensures r.Ok? ==>
      && r.value.id == d.id
      && r.value.title == d.title.value && r.value.duration == d.duration.value
      && Some(KindName(r.value.mediaType)) == d.kind
      && r.value.publishedAt == d.publishedAt.value
      && r.value.cover == d.cover.value && r.value.description == d.description.value
      && r.value.url == d.url.value
      && r.value.author == Author(d.author.value.name.value, d.author.value.title.value, d.author.value.avatar.value)
      && r.value.tags == (if d.tags.Some? then d.tags.value else [])
      && |r.value.experts| == (if d.experts.Some? then |d.experts.value| else 0)
      && (forall i :: 0 <= i < |r.value.experts| ==>
            var e := d.experts.value[i];
            r.value.experts[i] == Expert(e.name.value, e.avatar.value, e.comment))
      && (d.stats.None? ==> r.value.stats == Stats(0, 0, 0))
      && (d.stats.Some? ==>
            && (d.stats.value.views.None? ==> r.value.stats.views == 0)
            && (d.stats.value.views.Some? ==> r.value.stats.views == d.stats.value.views.value)
            && (d.stats.value.likes.None? ==> r.value.stats.likes == 0)
            && (d.stats.value.likes.Some? ==> r.value.stats.likes == d.stats.value.likes.value)
            && (d.stats.value.shares.None? ==> r.value.stats.shares == 0)
            && (d.stats.value.shares.Some? ==> r.value.stats.shares == d.stats.value.shares.value))
  {
    NoIssuesIffAcceptable(d);
    var issues := Issues(d);
    if issues != {} then Err(issues)
    else
      var a := d.author.value;
      var es := if d.experts.Some? then d.experts.value else [];
      assert forall i :: 0 <= i < |es| ==> es[i] in es;
      var s := if d.stats.Some? then d.stats.value else StatsInput(None, None, None);
      Ok(ValidPodcast(
        d.id, d.title.value, d.duration.value, ParseKind(d.kind).value, d.publishedAt.value,
        d.cover.value, d.description.value, d.url.value,
        Author(a.name.value, a.title.value, a.avatar.value),
        if d.tags.Some? then d.tags.value else [],
        seq(|es|, i requires 0 <= i < |es| => ToExpert(es[i])),
        Stats(StatOr0(s.views), StatOr0(s.likes), StatOr0(s.shares))))
  }

  /** The reassembled aggregate seen as schema input: every key present. */
  function AsInput(p: Podcast): PodcastInput {
    PodcastInput(
      Some(p.id), Some(p.title), Some(p.duration), Some(p.kind), Some(p.publishedAt),
      Some(p.cover), Some(p.description), Some(p.url),
      Some(AuthorInput(Some(p.author.name), Some(p.author.title), Some(p.author.avatar))),
      Some(p.tags),
      Some(seq(|p.experts|, i requires 0 <= i < |p.experts| =>
        ExpertInput(Some(p.experts[i].name), Some(p.experts[i].avatar), Some(p.experts[i].comment)))),
      Some(StatsInput(Some(p.stats.views), Some(p.stats.likes), Some(p.stats.shares))))
  }

  function Overlay<T>(given: Option<T>, current: T): Option<T> {
    if given.Some? then given else Some(current)
  }

  /** `{ ...existing, ...data, author: { ...existing.author, ...data.author },
        stats: { ...existing.stats, ...data.stats } }`. */
  function Merge(existing: Podcast, data: PodcastInput): (r: PodcastInput)
    // every key is present, so the merged object is never rejected for a missing key
    ensures && r.id.Some? && r.title.Some? && r.duration.Some? && r.kind.Some? && r.publishedAt.Some?
            && r.cover.Some? && r.description.Some? && r.url.Some? && r.tags.Some? && r.experts.Some?
    ensures && r.author.Some? && r.author.value.name.Some? && r.author.value.title.Some? && r.author.value.avatar.Some?
    ensures && r.stats.Some? && r.stats.value.views.Some? && r.stats.value.likes.Some? && r.stats.value.shares.Some?
  {
    var a := if data.author.Some? then data.author.value else AuthorInput(None, None, None);
    var s := if data.stats.Some? then data.stats.value else StatsInput(None, None, None);
    var e := AsInput(existing);
    PodcastInput(
      Overlay(data.id, existing.id), Overlay(data.title, existing.title),
      Overlay(data.duration, existing.duration), Overlay(data.kind, existing.kind),
      Overlay(data.publishedAt, existing.publishedAt), Overlay(data.cover, existing.cover),
      Overlay(data.description, existing.description), Overlay(data.url, existing.url),
      Some(AuthorInput(Overlay(a.name, existing.author.name), Overlay(a.title, existing.author.title),
                       Overlay(a.avatar, existing.author.avatar))),
      if data.tags.Some? then data.tags else e.tags,
      if data.experts.Some? then data.experts else e.experts,
      Some(StatsInput(Overlay(s.views, existing.stats.views as int), Overlay(s.likes, existing.stats.likes as int),
                      Overlay(s.shares, existing.stats.shares as int))))
  }

  /** The outer spread: a top-level key the patch gives wins, one it omits keeps the stored
      value, and `tags` and `experts` are replaced whole rather than merged. */
  lemma MergeTopLevel(existing: Podcast, data: PodcastInput)
    ensures var r := Merge(existing, data); var e := AsInput(existing);
      && r.id == (if data.id.Some? then data.id else e.id)
      && r.title == (if data.title.Some? then data.title else e.title)
      && r.duration == (if data.duration.Some? then data.duration else e.duration)
      && r.kind == (if data.kind.Some? then data.kind else e.kind)
      && r.publishedAt == (if data.publishedAt.Some? then data.publishedAt else e.publishedAt)
      && r.cover == (if data.cover.Some? then data.cover else e.cover)
      && r.description == (if data.description.Some? then data.description else e.description)
      && r.url == (if data.url.Some? then data.url else e.url)
      && r.tags == (if data.tags.Some? then data.tags else e.tags)
      && r.experts == (if data.experts.Some? then data.experts else e.experts)
  {
  }

  /** The inner spreads: `author` and `stats` are merged key by key, so a partial object keeps
      the stored values of the keys it omits, and a missing object keeps them all. */
  lemma MergeNested(existing: Podcast, data: PodcastInput)
    ensures var r := Merge(existing, data); var e := AsInput(existing);
      && (data.author.None? ==> r.author == e.author)
      && (data.author.Some? ==>
            && r.author.value.name == (if data.author.value.name.Some? then data.author.value.name else e.author.value.name)
            && r.author.value.title == (if data.author.value.title.Some? then data.author.value.title else e.author.value.title)
            && r.author.value.avatar == (if data.author.value.avatar.Some? then data.author.value.avatar else e.author.value.avatar))
      && (data.stats.None? ==> r.stats == e.stats)
      && (data.stats.Some? ==>
            && r.stats.value.views == (if data.stats.value.views.Some? then data.stats.value.views else e.stats.value.views)
            && r.stats.value.likes == (if data.stats.value.likes.Some? then data.stats.value.likes else e.stats.value.likes)
            && r.stats.value.shares == (if data.stats.value.shares.Some? then data.stats.value.shares else e.stats.value.shares))
  {
  }

  /** An empty patch merges to the existing record unchanged. */
  lemma MergeNoChanges(existing: Podcast)
    ensures Merge(existing, NoChanges) == AsInput(existing)
  {
  }

  /** A patch that names every key replaces everything. */
  lemma MergeCompletePatch(existing: Podcast, other: Podcast)
    ensures Merge(existing, AsInput(other)) == AsInput(other)
  {
  }

  /** A reassembled podcast whose strings obey the schema; the repository only writes such rows. */
  ghost predicate WellFormed(p: Podcast) {
    && |p.title| >= 1 && |p.duration| >= 1 && (p.kind == "audio" || p.kind == "video")
    && IsDateTime(p.publishedAt) && |p.cover| >= 1 && |p.description| >= 1 && |p.url| >= 1
    && |p.author.name| >= 1 && |p.author.title| >= 1 && |p.author.avatar| >= 1
    && (forall e :: e in p.experts ==> |e.name| >= 1 && |e.avatar| >= 1)
  }

  /** The parse of a well-formed stored podcast: its own fields, comments made explicit. */
  function Reparsed(p: Podcast): ValidPodcast
    requires p.kind == "audio" || p.kind == "video"
  {
    ValidPodcast(
      Some(p.id), p.title, p.duration, ParseKind(Some(p.kind)).value, p.publishedAt,
      p.cover, p.description, p.url, p.author, p.tags,
      seq(|p.experts|, i requires 0 <= i < |p.experts| =>
        Expert(p.experts[i].name, p.experts[i].avatar, Some(p.experts[i].comment))),
      p.stats)
  }

  /** A stored, well-formed podcast passes the schema again, unchanged. */
  lemma {:induction false} WellFormedRevalidates(p: Podcast)
    requires WellFormed(p)
    ensures Validate(AsInput(p)) == Ok(Reparsed(p))
  {
    var d := AsInput(p);
    var es := d.experts.value;
    forall i | 0 <= i < |es| ensures Filled(es[i].name) && Filled(es[i].avatar) {
      assert p.experts[i] in p.experts;
    }
    assert Acceptable(d);
    NoIssuesIffAcceptable(d);
    var v := Validate(d).value;
    assert v.experts == Reparsed(p).experts;
  }
}

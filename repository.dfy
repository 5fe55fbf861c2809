/** The repository of app/lib/db/podcasts.ts over the value model of the tables: how a
    podcast is read back from its rows, and what `createPodcast`, `updatePodcast` and
    `deletePodcast` leave in the database and return. */
module Repository {
  import opened Wrappers
  import opened Seqs
  import opened Text
  import opened Tables
  import opened PodcastSchema

  // ---------------------------------------------------------------- reading

  /** The names of the tags whose id is `tid`, in rowid order (one at most, ids being keys). */
  function JoinTag(tags: seq<TagRow>, tid: nat): seq<string> {
    if tags == [] then []
    else (if tags[0].id == tid then [tags[0].name] else []) + JoinTag(tags[1..], tid)
  }

  lemma {:induction false} JoinTagMembers(tags: seq<TagRow>, tid: nat, n: string)
    ensures n in JoinTag(tags, tid) <==> TagRow(tid, n) in tags
  {
    if tags != [] {
      JoinTagMembers(tags[1..], tid, n);
      assert tags == [tags[0]] + tags[1..];
    }
  }

  /** `SELECT t.name FROM tags t JOIN podcast_tags pt ON t.id = pt.tag_id WHERE
      pt.podcast_id = ?`. SQL leaves the order open; the model lists the links in rowid order. */
  function TagNamesOf(tags: seq<TagRow>, links: seq<PodcastTagRow>, pid: string): (r: seq<string>)
  {
    if links == [] then []
    else (if links[0].podcastId == pid then JoinTag(tags, links[0].tagId) else [])
         + TagNamesOf(tags, links[1..], pid)
  }

  /** A name is read back for `pid` exactly when a link of `pid` references a tag of that name. */
  lemma {:induction false} TagNamesMembers(tags: seq<TagRow>, links: seq<PodcastTagRow>, pid: string, n: string)
    ensures n in TagNamesOf(tags, links, pid) <==> exists l :: l in links && l.podcastId == pid && TagRow(l.tagId, n) in tags
  {
    if links != [] {
      JoinTagMembers(tags, links[0].tagId, n);
      TagNamesMembers(tags, links[1..], pid, n);
      if exists l :: l in links && l.podcastId == pid && TagRow(l.tagId, n) in tags {
        var l :| l in links && l.podcastId == pid && TagRow(l.tagId, n) in tags;
        if l != links[0] {
          assert l in links[1..];
        }
      }
    }
  }

  /** The experts a comment row joins with. */
  function JoinExpert(experts: seq<ExpertRow>, c: CommentRow): seq<ExpertComment> {
    if experts == [] then []
    else (if experts[0].id == c.expertId then [ExpertComment(experts[0].name, experts[0].avatar, c.comment)] else [])
         + JoinExpert(experts[1..], c)
  }

  /** `SELECT e.name, e.avatar, ec.comment FROM experts e JOIN expert_comments ec ON
      e.id = ec.expert_id WHERE ec.podcast_id = ?`, comment rows in rowid order. */
  function ExpertsOf(experts: seq<ExpertRow>, comments: seq<CommentRow>, pid: string): (r: seq<ExpertComment>)
  {
    if comments == [] then []
    else (if comments[0].podcastId == pid then JoinExpert(experts, comments[0]) else [])
         + ExpertsOf(experts, comments[1..], pid)
  }

  /** The podcast row with the given id, the first in rowid order, if any. */
  function FindRow(rows: seq<PodcastRow>, id: string): (r: Option<PodcastRow>)
    ensures r.Some? ==> r.value in rows && r.value.id == id
    ensures r.None? <==> id !in PodcastIds(rows)
  {
    if rows == [] then None
    else if rows[0].id == id then Some(rows[0])
    else FindRow(rows[1..], id)
  }

  /** The object both getters build from a `podcasts` row and its joined tags and comments. */
  function Assemble(db: Db, row: PodcastRow): Podcast {
    Podcast(
      row.id, row.title, row.duration, row.kind, row.publishedAt, row.cover, row.description, row.url,
      Author(row.authorName, row.authorTitle, row.authorAvatar),
      TagNamesOf(db.tags, db.podcastTags, row.id),
      ExpertsOf(db.experts, db.comments, row.id),
      Stats(row.views, row.likes, row.shares))
  }

  /** `getPodcastById(id)`: `null` when no row has that id, and also when a query fails
      (a missing table), since the error is caught. */
  function GetById(db: Db, id: string): (r: Option<Podcast>)
    ensures r.Some? <==> AllTables <= db.tables && id in PodcastIds(db.podcasts)
    ensures r.Some? ==> r.value.id == id
  {
    if !(AllTables <= db.tables) then None
    else match FindRow(db.podcasts, id)
      case None => None
      case Some(row) => Some(Assemble(db, row))
  }

  /** With `id` a primary key, the row found is the only row with that id. */
  lemma {:induction false} FindRowUnique(rows: seq<PodcastRow>, row: PodcastRow)
    requires KeysDistinct(rows, PodcastKey) && row in rows
    ensures FindRow(rows, row.id) == Some(row)
  {
    if rows[0] != row {
      assert rows[0].id != row.id by {
        var k :| 0 <= k < |rows| && rows[k] == row;
        assert k > 0;
      }
      assert row in rows[1..];
      FindRowUnique(rows[1..], row);
    }
  }

  /** Each stored row is what `getPodcastById` assembles for its id. */
  lemma GetByIdOfRow(db: Db, row: PodcastRow)
    requires Consistent(db) && AllTables <= db.tables && row in db.podcasts
    ensures GetById(db, row.id) == Some(Assemble(db, row))
  {
    FindRowUnique(db.podcasts, row);
  }

  /** ORDER BY publishedAt DESC: every row is at or after the rows that follow it. */
  ghost predicate NewestFirst(rows: seq<PodcastRow>) {
    forall i, j :: 0 <= i < j < |rows| ==> AtOrBefore(rows[j].publishedAt, rows[i].publishedAt)
  }

  lemma NewestFirstCons(row: PodcastRow, rows: seq<PodcastRow>)
    requires NewestFirst(rows)
    requires rows != [] ==> AtOrBefore(rows[0].publishedAt, row.publishedAt)
    ensures NewestFirst([row] + rows)
  {
    forall j | 0 <= j < |rows| ensures AtOrBefore(rows[j].publishedAt, row.publishedAt) {
      if j > 0 {
        AtOrBeforeTransitive(rows[j].publishedAt, rows[0].publishedAt, row.publishedAt);
      }
    }
  }

  /** Places `row` into a newest-first sequence; a row ties before the rows it equals. */
  function Insert(row: PodcastRow, sorted: seq<PodcastRow>): (r: seq<PodcastRow>)
    ensures multiset(r) == multiset(sorted) + multiset{row}
  {
    if sorted == [] then [row]
    else if AtOrBefore(sorted[0].publishedAt, row.publishedAt) then [row] + sorted
    else
      assert sorted == [sorted[0]] + sorted[1..];
      [sorted[0]] + Insert(row, sorted[1..])
  }

  /** Inserting into a newest-first sequence keeps it newest first. */
  lemma {:induction false} InsertKeepsOrder(row: PodcastRow, sorted: seq<PodcastRow>)
    requires NewestFirst(sorted)
    ensures NewestFirst(Insert(row, sorted))
  {
    if sorted == [] {
    } else if AtOrBefore(sorted[0].publishedAt, row.publishedAt) {
      NewestFirstCons(row, sorted);
    } else {
      var rest := Insert(row, sorted[1..]);
      InsertKeepsOrder(row, sorted[1..]);
      if rest != [] {
        InsertHead(row, sorted);
      }
      NewestFirstCons(sorted[0], rest);
    }
  }

  /** The first element of an insertion into the tail comes from the tail or is `row`,
      and either way is not after the head. */
  lemma InsertHead(row: PodcastRow, sorted: seq<PodcastRow>)
    requires NewestFirst(sorted) && sorted != [] && !AtOrBefore(sorted[0].publishedAt, row.publishedAt)
    requires Insert(row, sorted[1..]) != []
    ensures AtOrBefore(Insert(row, sorted[1..])[0].publishedAt, sorted[0].publishedAt)
  {
    var rest := Insert(row, sorted[1..]);
    assert rest[0] in multiset(sorted[1..]) + multiset{row};
    if rest[0] == row {
      AtOrBeforeTotal(sorted[0].publishedAt, row.publishedAt);
    } else {
      assert rest[0] in sorted[1..];
      var k :| 0 <= k < |sorted[1..]| && sorted[1..][k] == rest[0];
      assert sorted[k + 1] == rest[0];
    }
  }

  /** The rows of `podcasts` in `ORDER BY publishedAt DESC`; the engine's order among equal
      dates is unspecified, and the model takes one admissible order. */
  function ByDate(rows: seq<PodcastRow>): (r: seq<PodcastRow>)
    ensures multiset(r) == multiset(rows)
    ensures NewestFirst(r)
  {
    if rows == [] then []
    else
      assert rows == [rows[0]] + rows[1..];
      InsertKeepsOrder(rows[0], ByDate(rows[1..]));
      Insert(rows[0], ByDate(rows[1..]))
  }

  /** `getAllPodcasts()`: every podcast, newest first, or `[]` when a query fails. */
  function GetAll(db: Db): (r: seq<Podcast>)
    ensures !(AllTables <= db.tables) ==> r == []
    ensures AllTables <= db.tables ==> |r| == |db.podcasts|
    ensures forall i, j :: 0 <= i < j < |r| ==> AtOrBefore(r[j].publishedAt, r[i].publishedAt)
  {
    if !(AllTables <= db.tables) then []
    else
      var rows := ByDate(db.podcasts);
      assert |multiset(rows)| == |multiset(db.podcasts)|;
      seq(|rows|, i requires 0 <= i < |rows| => Assemble(db, rows[i]))
  }

  lemma ByDateMembers(rows: seq<PodcastRow>)
    ensures forall x :: x in ByDate(rows) <==> x in rows
  {
    var r := ByDate(rows);
    assert forall x :: x in r <==> x in multiset(r);
    assert forall x :: x in rows <==> x in multiset(rows);
  }

  /** `getAllPodcasts` and `getPodcastById` agree: each entry of the list is what
      `getPodcastById` returns for its id. */
  lemma GetAllMatchesGetById(db: Db)
    requires Consistent(db) && AllTables <= db.tables
    ensures forall p :: p in GetAll(db) ==> GetById(db, p.id) == Some(p)
  {
    var rows := ByDate(db.podcasts);
    var r := GetAll(db);
    ByDateMembers(db.podcasts);
    forall p | p in r ensures GetById(db, p.id) == Some(p) {
      var i :| 0 <= i < |r| && r[i] == p;
      assert rows[i] in rows;
      GetByIdOfRow(db, rows[i]);
    }
  }

  /** `getAllPodcasts` lists every stored podcast, and nothing else. */
  lemma GetAllListsEveryId(db: Db)
    requires AllTables <= db.tables
    ensures forall id :: id in PodcastIds(db.podcasts) <==> exists p :: p in GetAll(db) && p.id == id
  {
    var rows := ByDate(db.podcasts);
    var r := GetAll(db);
    ByDateMembers(db.podcasts);
    forall id | id in PodcastIds(db.podcasts) ensures exists p :: p in r && p.id == id {
      var row :| row in db.podcasts && row.id == id;
      var i :| 0 <= i < |rows| && rows[i] == row;
      assert r[i] in r;
    }
    forall id | (exists p :: p in r && p.id == id) ensures id in PodcastIds(db.podcasts) {
      var p :| p in r && p.id == id;
      var i :| 0 <= i < |r| && r[i] == p;
      assert rows[i] in rows;
    }
  }

  // ---------------------------------------------------------------- writing

  /** What the repository functions throw. */
  datatype Failure = Invalid(issues: set<Field>) | Sql(error: SqlError) | NotFound(id: string)

  /** The state a call leaves and what it returns or throws. */
  datatype Outcome<+T> = Outcome(db: Db, result: Result<T, Failure>)

  /** The `podcasts` row written for a validated podcast. */
  function RowOf(id: string, p: ValidPodcast): PodcastRow {
    PodcastRow(
      id, p.title, p.duration, KindName(p.mediaType), p.publishedAt, p.cover, p.description, p.url,
      p.stats.views, p.stats.likes, p.stats.shares, p.author.name, p.author.title, p.author.avatar)
  }

  /** The id `createPodcast` writes under: the record's own, or a fresh one when it is absent or empty. */
  function NewId(given: Option<string>, freshId: string): (r: string)
    ensures given.Some? && given.value != "" ==> r == given.value
    ensures given.None? || given.value == "" ==> r == freshId
  {
    if given.Some? && given.value != "" then given.value else freshId
  }

  /** The expert entries read back for what was written: an absent comment reads as "". */
  function Comments(es: seq<Expert>): (r: seq<ExpertComment>)
    ensures |r| == |es|
    ensures forall i :: 0 <= i < |es| ==> r[i] == ExpertComment(es[i].name, es[i].avatar, es[i].comment.GetOr(""))
  {
    seq(|es|, i requires 0 <= i < |es| => ExpertComment(es[i].name, es[i].avatar, es[i].comment.GetOr("")))
  }

  lemma CommentsCons(es: seq<Expert>)
    requires es != []
    ensures Comments(es) == [ExpertComment(es[0].name, es[0].avatar, es[0].comment.GetOr(""))] + Comments(es[1..])
  {
  }

  /** The podcast `getPodcastById` should return after `p` has been written under `id`. */
  function Stored(id: string, p: ValidPodcast): Podcast {
    Podcast(
      id, p.title, p.duration, KindName(p.mediaType), p.publishedAt, p.cover, p.description, p.url,
      p.author, p.tags, Comments(p.experts), p.stats)
  }

  /** One iteration of the tag loop: insert the name unless it is stored, then link the
      podcast to it. */
  function TagStep(db: Db, id: string, name: string): (r: Result<Db, SqlError>)
    ensures r.Ok? ==> r.value.(tags := db.tags, tagSeq := db.tagSeq, podcastTags := db.podcastTags) == db
  {
    match InsertOrIgnoreTag(db, name)
    case Err(e) => Err(e)
    case Ok(d1) => LinkTagByName(d1, id, name)
  }

  /** The tag loop: the first failing statement ends the loop with its error. */
  function AddTags(db: Db, id: string, tags: seq<string>): (r: Result<Db, SqlError>)
    ensures r.Ok? ==> r.value.(tags := db.tags, tagSeq := db.tagSeq, podcastTags := db.podcastTags) == db
    decreases |tags|
  {
    if tags == [] then Ok(db)
    else match TagStep(db, id, tags[0])
      case Err(e) => Err(e)
      case Ok(d) => AddTags(d, id, tags[1..])
  }

  /** One iteration of `podcast.experts.forEach`: insert the expert, look an id up by name
      and avatar (the first match), and insert the comment, `expert.comment || ''`, for it. */
  function ExpertStep(db: Db, id: string, e: Expert): (r: Result<Db, SqlError>)
    ensures r.Ok? ==> r.value.(experts := db.experts, expertSeq := db.expertSeq,
                               comments := db.comments, commentSeq := db.commentSeq) == db
    ensures r.Ok? ==> |r.value.experts| == |db.experts| + 1
  {
    match InsertExpert(db, e.name, e.avatar)
    case Err(x) => Err(x)
    case Ok(d1) =>
      match FindExpert(d1.experts, e.name, e.avatar)
      case None => Ok(d1)
      case Some(eid) => InsertComment(d1, id, eid, e.comment.GetOr(""))
  }

  /** The expert loop: one new `experts` row per entry, even when an equal
      expert is already stored. */
  function AddExperts(db: Db, id: string, experts: seq<Expert>): (r: Result<Db, SqlError>)
    ensures r.Ok? ==> r.value.(experts := db.experts, expertSeq := db.expertSeq,
                               comments := db.comments, commentSeq := db.commentSeq) == db
    ensures r.Ok? ==> |r.value.experts| == |db.experts| + |experts|
    decreases |experts|
  {
    if experts == [] then Ok(db)
    else match ExpertStep(db, id, experts[0])
      case Err(x) => Err(x)
      case Ok(d) => AddExperts(d, id, experts[1..])
  }

  lemma TagStepConsistent(db: Db, id: string, name: string)
    requires Consistent(db) && TagStep(db, id, name).Ok?
    ensures Consistent(TagStep(db, id, name).value)
  {
  }

  /** The tag loop keeps every declared constraint. */
  lemma {:induction false} AddTagsConsistent(db: Db, id: string, tags: seq<string>)
    requires Consistent(db) && AddTags(db, id, tags).Ok?
    ensures Consistent(AddTags(db, id, tags).value)
    decreases |tags|
  {
    if tags != [] {
      TagStepConsistent(db, id, tags[0]);
      AddTagsConsistent(TagStep(db, id, tags[0]).value, id, tags[1..]);
    }
  }

  lemma ExpertStepConsistent(db: Db, id: string, e: Expert)
    requires Consistent(db) && ExpertStep(db, id, e).Ok?
    ensures Consistent(ExpertStep(db, id, e).value)
  {
  }

  /** The expert loop keeps every declared constraint. */
  lemma {:induction false} AddExpertsConsistent(db: Db, id: string, experts: seq<Expert>)
    requires Consistent(db) && AddExperts(db, id, experts).Ok?
    ensures Consistent(AddExperts(db, id, experts).value)
    decreases |experts|
  {
    if experts != [] {
      ExpertStepConsistent(db, id, experts[0]);
      AddExpertsConsistent(ExpertStep(db, id, experts[0]).value, id, experts[1..]);
    }
  }

  // ---------------------------------------------------------------- what the joins see

  lemma {:induction false} JoinTagAppend(tags: seq<TagRow>, t: TagRow, tid: nat)
    ensures JoinTag(tags + [t], tid) == JoinTag(tags, tid) + (if t.id == tid then [t.name] else [])
  {
    if tags != [] {
      assert (tags + [t])[1..] == tags[1..] + [t];
      JoinTagAppend(tags[1..], t, tid);
    }
  }

  lemma {:induction false} JoinTagAbsent(tags: seq<TagRow>, tid: nat)
    requires forall i :: 0 <= i < |tags| ==> tags[i].id != tid
    ensures JoinTag(tags, tid) == []
  {
    if tags != [] {
      JoinTagAbsent(tags[1..], tid);
    }
  }

  /** With unique tag ids, a link joins with exactly the one tag it references. */
  lemma {:induction false} JoinTagOne(tags: seq<TagRow>, t: TagRow)
    requires KeysDistinct(tags, TagKey) && t in tags
    ensures JoinTag(tags, t.id) == [t.name]
  {
    if tags[0] == t {
      assert forall i :: 1 <= i < |tags| ==> TagKey(tags[0]) != TagKey(tags[i]);
      JoinTagAbsent(tags[1..], t.id);
    } else {
      var k :| 0 <= k < |tags| && tags[k] == t;
      assert k > 0 && tags[1..][k - 1] == t;
      assert TagKey(tags[0]) != TagKey(tags[k]);
      JoinTagOne(tags[1..], t);
    }
  }

  lemma {:induction false} TagNamesAppendLink(tags: seq<TagRow>, links: seq<PodcastTagRow>, l: PodcastTagRow, pid: string)
    ensures TagNamesOf(tags, links + [l], pid)
            == TagNamesOf(tags, links, pid) + (if l.podcastId == pid then JoinTag(tags, l.tagId) else [])
  {
    if links != [] {
      assert (links + [l])[1..] == links[1..] + [l];
      TagNamesAppendLink(tags, links[1..], l, pid);
    }
  }

  /** A tag no link references adds no name to any podcast. */
  lemma {:induction false} TagNamesNewTag(tags: seq<TagRow>, links: seq<PodcastTagRow>, t: TagRow, pid: string)
    requires forall i :: 0 <= i < |links| ==> links[i].tagId != t.id
    ensures TagNamesOf(tags + [t], links, pid) == TagNamesOf(tags, links, pid)
  {
    if links != [] {
      var l, tail := links[0], links[1..];
      assert forall i :: 0 <= i < |tail| ==> tail[i].tagId != t.id by {
        forall i | 0 <= i < |tail| ensures tail[i].tagId != t.id {
          assert tail[i] == links[i + 1];
        }
      }
      JoinTagAppend(tags, t, l.tagId);
      assert JoinTag(tags + [t], l.tagId) == JoinTag(tags, l.tagId) + [];
      var head := if l.podcastId == pid then JoinTag(tags, l.tagId) else [];
      assert TagNamesOf(tags + [t], links, pid) == head + TagNamesOf(tags + [t], tail, pid);
      TagNamesNewTag(tags, tail, t, pid);
    }
  }

  /** Removing another podcast's links leaves a podcast's tag names as they were. */
  lemma {:induction false} TagNamesWithout(tags: seq<TagRow>, links: seq<PodcastTagRow>, id: string, pid: string)
    requires pid != id
    ensures TagNamesOf(tags, Filter(links, NotLinkedTo(id)), pid) == TagNamesOf(tags, links, pid)
  {
    if links != [] {
      TagNamesWithout(tags, links[1..], id, pid);
      var f := Filter(links, NotLinkedTo(id));
      if links[0].podcastId != id {
        assert f == [links[0]] + Filter(links[1..], NotLinkedTo(id));
        assert f[0] == links[0] && f[1..] == Filter(links[1..], NotLinkedTo(id));
      } else {
        assert f == Filter(links[1..], NotLinkedTo(id));
      }
    }
  }

  /** No link of `pid`: no tag names. */
  lemma {:induction false} TagNamesNone(tags: seq<TagRow>, links: seq<PodcastTagRow>, pid: string)
    requires forall i :: 0 <= i < |links| ==> links[i].podcastId != pid
    ensures TagNamesOf(tags, links, pid) == []
  {
    if links != [] {
      TagNamesNone(tags, links[1..], pid);
    }
  }

  /** A UNIQUE name belongs to one tag id. */
  lemma NameHasOneId(tags: seq<TagRow>, a: nat, b: nat, n: string)
    requires KeysDistinct(tags, TagNameKey) && TagRow(a, n) in tags && TagRow(b, n) in tags
    ensures a == b
  {
    var i :| 0 <= i < |tags| && tags[i] == TagRow(a, n);
    var j :| 0 <= j < |tags| && tags[j] == TagRow(b, n);
    assert TagNameKey(tags[i]) == TagNameKey(tags[j]);
  }

  lemma {:induction false} JoinExpertAppend(experts: seq<ExpertRow>, e: ExpertRow, c: CommentRow)
    ensures JoinExpert(experts + [e], c)
            == JoinExpert(experts, c) + (if e.id == c.expertId then [ExpertComment(e.name, e.avatar, c.comment)] else [])
  {
    if experts != [] {
      assert (experts + [e])[1..] == experts[1..] + [e];
      JoinExpertAppend(experts[1..], e, c);
    }
  }

  lemma {:induction false} JoinExpertAbsent(experts: seq<ExpertRow>, c: CommentRow)
    requires forall i :: 0 <= i < |experts| ==> experts[i].id != c.expertId
    ensures JoinExpert(experts, c) == []
  {
    if experts != [] {
      JoinExpertAbsent(experts[1..], c);
    }
  }

  /** With unique expert ids, a comment joins with exactly the expert it references. */
  lemma {:induction false} JoinExpertOne(experts: seq<ExpertRow>, e: ExpertRow, c: CommentRow)
    requires KeysDistinct(experts, ExpertKey) && e in experts && c.expertId == e.id
    ensures JoinExpert(experts, c) == [ExpertComment(e.name, e.avatar, c.comment)]
  {
    if experts[0] == e {
      assert forall i :: 1 <= i < |experts| ==> ExpertKey(experts[0]) != ExpertKey(experts[i]);
      JoinExpertAbsent(experts[1..], c);
    } else {
      var k :| 0 <= k < |experts| && experts[k] == e;
      assert k > 0 && experts[1..][k - 1] == e;
      assert ExpertKey(experts[0]) != ExpertKey(experts[k]);
      JoinExpertOne(experts[1..], e, c);
    }
  }

  lemma {:induction false} ExpertsOfAppendComment(experts: seq<ExpertRow>, comments: seq<CommentRow>, c: CommentRow, pid: string)
    ensures ExpertsOf(experts, comments + [c], pid)
            == ExpertsOf(experts, comments, pid) + (if c.podcastId == pid then JoinExpert(experts, c) else [])
  {
    if comments != [] {
      assert (comments + [c])[1..] == comments[1..] + [c];
      ExpertsOfAppendComment(experts, comments[1..], c, pid);
    }
  }

  /** An expert no comment references adds nothing to any podcast. */
  lemma {:induction false} ExpertsOfNewExpert(experts: seq<ExpertRow>, comments: seq<CommentRow>, e: ExpertRow, pid: string)
    requires forall i :: 0 <= i < |comments| ==> comments[i].expertId != e.id
    ensures ExpertsOf(experts + [e], comments, pid) == ExpertsOf(experts, comments, pid)
  {
    if comments != [] {
      var c, tail := comments[0], comments[1..];
      assert forall i :: 0 <= i < |tail| ==> tail[i].expertId != e.id by {
        forall i | 0 <= i < |tail| ensures tail[i].expertId != e.id {
          assert tail[i] == comments[i + 1];
        }
      }
      JoinExpertAppend(experts, e, c);
      assert JoinExpert(experts + [e], c) == JoinExpert(experts, c) + [];
      var head := if c.podcastId == pid then JoinExpert(experts, c) else [];
      assert ExpertsOf(experts + [e], comments, pid) == head + ExpertsOf(experts + [e], tail, pid);
      ExpertsOfNewExpert(experts, tail, e, pid);
    }
  }

  /** Removing another podcast's comments leaves a podcast's experts as they were. */
  lemma {:induction false} ExpertsOfWithout(experts: seq<ExpertRow>, comments: seq<CommentRow>, id: string, pid: string)
    requires pid != id
    ensures ExpertsOf(experts, Filter(comments, NotCommentOn(id)), pid) == ExpertsOf(experts, comments, pid)
  {
    if comments != [] {
      ExpertsOfWithout(experts, comments[1..], id, pid);
      var f := Filter(comments, NotCommentOn(id));
      if comments[0].podcastId != id {
        assert f == [comments[0]] + Filter(comments[1..], NotCommentOn(id));
        assert f[0] == comments[0] && f[1..] == Filter(comments[1..], NotCommentOn(id));
      } else {
        assert f == Filter(comments[1..], NotCommentOn(id));
      }
    }
  }

  lemma {:induction false} ExpertsOfNone(experts: seq<ExpertRow>, comments: seq<CommentRow>, pid: string)
    requires forall i :: 0 <= i < |comments| ==> comments[i].podcastId != pid
    ensures ExpertsOf(experts, comments, pid) == []
  {
    if comments != [] {
      ExpertsOfNone(experts, comments[1..], pid);
    }
  }

  lemma {:induction false} FindRowWithout(rows: seq<PodcastRow>, id: string, pid: string)
    requires pid != id
    ensures FindRow(Filter(rows, NotPodcast(id)), pid) == FindRow(rows, pid)
  {
    if rows != [] {
      FindRowWithout(rows[1..], id, pid);
      var f := Filter(rows, NotPodcast(id));
      if rows[0].id != id {
        assert f == [rows[0]] + Filter(rows[1..], NotPodcast(id));
        assert f[0] == rows[0] && f[1..] == Filter(rows[1..], NotPodcast(id));
      } else {
        assert f == Filter(rows[1..], NotPodcast(id));
      }
    }
  }

  lemma {:induction false} FindRowSetColumns(rows: seq<PodcastRow>, id: string, values: PodcastRow, pid: string)
    ensures FindRow(SetColumns(rows, id, values), pid)
            == if pid == id && id in PodcastIds(rows) then Some(values.(id := id)) else FindRow(rows, pid)
  {
    if rows != [] {
      var s := SetColumns(rows, id, values);
      assert s[1..] == SetColumns(rows[1..], id, values);
      FindRowSetColumns(rows[1..], id, values, pid);
      if rows[0].id != id && rows[0].id != pid && id in PodcastIds(rows) {
        assert id in PodcastIds(rows[1..]) by {
          var r :| r in rows && r.id == id;
          var k :| 0 <= k < |rows| && rows[k] == r;
          assert k > 0 && rows[1..][k - 1] == r;
        }
      }
    }
  }

  // ---------------------------------------------------------------- what the loops write

  /** A tag created by INSERT OR IGNORE is not linked to anything yet. */
  lemma InsertTagKeepsNames(db: Db, n: string, pid: string)
    requires Consistent(db) && InsertOrIgnoreTag(db, n).Ok?
    ensures var d := InsertOrIgnoreTag(db, n).value;
      TagNamesOf(d.tags, d.podcastTags, pid) == TagNamesOf(db.tags, db.podcastTags, pid)
  {
    if TagIdOf(db.tags, n).None? {
      var d := InsertOrIgnoreTag(db, n).value;
      var t := TagRow(d.tagSeq, n);
      forall i | 0 <= i < |db.podcastTags| ensures db.podcastTags[i].tagId != t.id {
        assert db.podcastTags[i] in db.podcastTags;
      }
      TagNamesNewTag(db.tags, db.podcastTags, t, pid);
    }
  }

  /** After one tag step, `id` reads back one more name and no other podcast changes. */
  lemma TagStepReadBack(db: Db, id: string, n: string, pid: string)
    requires Consistent(db) && TagStep(db, id, n).Ok?
    ensures var d := TagStep(db, id, n).value;
      TagNamesOf(d.tags, d.podcastTags, pid)
      == TagNamesOf(db.tags, db.podcastTags, pid) + (if pid == id then [n] else [])
  {
    var d1 := InsertOrIgnoreTag(db, n).value;
    InsertTagKeepsNames(db, n, pid);
    var tid := TagIdOf(d1.tags, n).value;
    JoinTagOne(d1.tags, TagRow(tid, n));
    TagNamesAppendLink(d1.tags, d1.podcastTags, PodcastTagRow(id, tid), pid);
  }

  lemma AddTagsUnfold(db: Db, id: string, tags: seq<string>)
    requires Consistent(db) && tags != [] && AddTags(db, id, tags).Ok?
    ensures TagStep(db, id, tags[0]).Ok?
    ensures Consistent(TagStep(db, id, tags[0]).value)
    ensures AddTags(db, id, tags) == AddTags(TagStep(db, id, tags[0]).value, id, tags[1..])
  {
    TagStepConsistent(db, id, tags[0]);
  }

  /** Each tag the loop handles is read back once, in order, after the names already linked. */
  lemma {:induction false} AddTagsReadBack(db: Db, id: string, tags: seq<string>)
    requires Consistent(db) && AddTags(db, id, tags).Ok?
    ensures var d := AddTags(db, id, tags).value;
      TagNamesOf(d.tags, d.podcastTags, id) == TagNamesOf(db.tags, db.podcastTags, id) + tags
    decreases |tags|
  {
    if tags != [] {
      AddTagsUnfold(db, id, tags);
      TagStepReadBack(db, id, tags[0], id);
      AddTagsReadBack(TagStep(db, id, tags[0]).value, id, tags[1..]);
      AppendHead(TagNamesOf(db.tags, db.podcastTags, id), tags);
    }
  }

  /** The tag loop for one podcast leaves every other podcast's tags as they were. */
  lemma {:induction false} AddTagsKeepsOthers(db: Db, id: string, tags: seq<string>, pid: string)
    requires Consistent(db) && AddTags(db, id, tags).Ok? && pid != id
    ensures var d := AddTags(db, id, tags).value;
      TagNamesOf(d.tags, d.podcastTags, pid) == TagNamesOf(db.tags, db.podcastTags, pid)
    decreases |tags|
  {
    if tags != [] {
      AddTagsUnfold(db, id, tags);
      TagStepReadBack(db, id, tags[0], pid);
      AddTagsKeepsOthers(TagStep(db, id, tags[0]).value, id, tags[1..], pid);
    }
  }

  /** After one expert step, `id` reads back one more entry and no other podcast changes. */
  lemma ExpertStepReadBack(db: Db, id: string, e: Expert, pid: string)
    requires Consistent(db) && ExpertStep(db, id, e).Ok?
    ensures var d := ExpertStep(db, id, e).value;
      ExpertsOf(d.experts, d.comments, pid)
      == ExpertsOf(db.experts, db.comments, pid)
         + (if pid == id then [ExpertComment(e.name, e.avatar, e.comment.GetOr(""))] else [])
  {
    var d1 := InsertExpert(db, e.name, e.avatar).value;
    var er := ExpertRow(d1.expertSeq, e.name, e.avatar);
    forall i | 0 <= i < |db.comments| ensures db.comments[i].expertId != er.id {
      assert db.comments[i] in db.comments;
    }
    ExpertsOfNewExpert(db.experts, db.comments, er, pid);
    assert er in d1.experts;
    var eid := FindExpert(d1.experts, e.name, e.avatar).value;
    var text := e.comment.GetOr("");
    var d2 := InsertComment(d1, id, eid, text).value;
    var c := CommentRow(d2.commentSeq, id, eid, text);
    JoinExpertOne(d1.experts, ExpertRow(eid, e.name, e.avatar), c);
    ExpertsOfAppendComment(d1.experts, d1.comments, c, pid);
  }

  lemma AddExpertsUnfold(db: Db, id: string, experts: seq<Expert>)
    requires Consistent(db) && experts != [] && AddExperts(db, id, experts).Ok?
    ensures ExpertStep(db, id, experts[0]).Ok?
    ensures Consistent(ExpertStep(db, id, experts[0]).value)
    ensures AddExperts(db, id, experts) == AddExperts(ExpertStep(db, id, experts[0]).value, id, experts[1..])
  {
    ExpertStepConsistent(db, id, experts[0]);
  }

  /** Each expert the loop handles is read back once, in order, with its comment or "",
      after the experts already there. */
  lemma {:induction false} AddExpertsReadBack(db: Db, id: string, experts: seq<Expert>)
    requires Consistent(db) && AddExperts(db, id, experts).Ok?
    ensures var d := AddExperts(db, id, experts).value;
      ExpertsOf(d.experts, d.comments, id) == ExpertsOf(db.experts, db.comments, id) + Comments(experts)
    decreases |experts|
  {
    if experts != [] {
      AddExpertsUnfold(db, id, experts);
      ExpertStepReadBack(db, id, experts[0], id);
      AddExpertsReadBack(ExpertStep(db, id, experts[0]).value, id, experts[1..]);
      CommentsCons(experts);
      AppendHead(ExpertsOf(db.experts, db.comments, id), Comments(experts));
    }
  }

  /** The expert loop for one podcast leaves every other podcast's experts as they were. */
  lemma {:induction false} AddExpertsKeepsOthers(db: Db, id: string, experts: seq<Expert>, pid: string)
    requires Consistent(db) && AddExperts(db, id, experts).Ok? && pid != id
    ensures var d := AddExperts(db, id, experts).value;
      ExpertsOf(d.experts, d.comments, pid) == ExpertsOf(db.experts, db.comments, pid)
    decreases |experts|
  {
    if experts != [] {
      AddExpertsUnfold(db, id, experts);
      ExpertStepReadBack(db, id, experts[0], pid);
      AddExpertsKeepsOthers(ExpertStep(db, id, experts[0]).value, id, experts[1..], pid);
    }
  }

  // ---------------------------------------------------------------- when the loops fail

  /** A tag step fails exactly when the podcast is already linked to a tag of that name
      (the PRIMARY KEY of `podcast_tags`). */
  lemma TagStepOkIff(db: Db, id: string, n: string)
    requires Consistent(db) && TagsTable in db.tables && PodcastTagsTable in db.tables
    requires id in PodcastIds(db.podcasts)
    ensures TagStep(db, id, n).Ok? <==> n !in TagNamesOf(db.tags, db.podcastTags, id)
  {
    var d1 := InsertOrIgnoreTag(db, n).value;
    InsertTagKeepsNames(db, n, id);
    var tid := TagIdOf(d1.tags, n).value;
    TagNamesMembers(d1.tags, d1.podcastTags, id, n);
    if n in TagNamesOf(d1.tags, d1.podcastTags, id) {
      var l :| l in d1.podcastTags && l.podcastId == id && TagRow(l.tagId, n) in d1.tags;
      NameHasOneId(d1.tags, l.tagId, tid, n);
      assert l == PodcastTagRow(id, tid);
    } else {
      assert PodcastTagRow(id, tid) !in d1.podcastTags;
    }
  }

  /** The tag loop succeeds exactly when its names are distinct and none is linked yet. */
  lemma {:induction false} AddTagsOkIff(db: Db, id: string, tags: seq<string>)
    requires Consistent(db) && TagsTable in db.tables && PodcastTagsTable in db.tables
    requires id in PodcastIds(db.podcasts)
    ensures AddTags(db, id, tags).Ok? <==> Distinct(tags) && Disjoint(tags, TagNamesOf(db.tags, db.podcastTags, id))
    decreases |tags|
  {
    if tags != [] {
      var n := tags[0];
      var linked := TagNamesOf(db.tags, db.podcastTags, id);
      DistinctCons(tags);
      DisjointCons(tags, linked);
      TagStepOkIff(db, id, n);
      if TagStep(db, id, n).Ok? {
        var d := TagStep(db, id, n).value;
        TagStepConsistent(db, id, n);
        TagStepReadBack(db, id, n, id);
        AddTagsOkIff(d, id, tags[1..]);
        DisjointAppend(tags[1..], linked, n);
      }
    }
  }

  /** Without the `tags` and `podcast_tags` tables a non-empty tag loop fails. */
  lemma AddTagsNeedsTables(db: Db, id: string, tags: seq<string>)
    requires tags != [] && !(TagsTable in db.tables && PodcastTagsTable in db.tables)
    ensures AddTags(db, id, tags).Err?
  {
  }

  /** With both tables present and the podcast stored, the expert loop cannot fail: the
      lookup always finds the row just inserted, or an equal earlier one. */
  lemma {:induction false} AddExpertsOk(db: Db, id: string, experts: seq<Expert>)
    requires Consistent(db) && ExpertsTable in db.tables && ExpertCommentsTable in db.tables
    requires id in PodcastIds(db.podcasts)
    ensures AddExperts(db, id, experts).Ok?
    decreases |experts|
  {
    if experts != [] {
      var e := experts[0];
      var d1 := InsertExpert(db, e.name, e.avatar).value;
      assert ExpertRow(d1.expertSeq, e.name, e.avatar) in d1.experts;
      var eid := FindExpert(d1.experts, e.name, e.avatar).value;
      assert eid in ExpertIds(d1.experts);
      ExpertStepConsistent(db, id, e);
      AddExpertsOk(ExpertStep(db, id, e).value, id, experts[1..]);
    }
  }

  /** Without the `experts` and `expert_comments` tables a non-empty expert loop fails. */
  lemma AddExpertsNeedsTables(db: Db, id: string, experts: seq<Expert>)
    requires experts != [] && !(ExpertsTable in db.tables && ExpertCommentsTable in db.tables)
    ensures AddExperts(db, id, experts).Err?
  {
    if ExpertsTable in db.tables {
      var e := experts[0];
      var d1 := InsertExpert(db, e.name, e.avatar).value;
      assert ExpertRow(d1.expertSeq, e.name, e.avatar) in d1.experts;
    }
  }

  // ---------------------------------------------------------------- createPodcast

  /** The transaction of `createPodcast`: the `podcasts` row, then the tag loop when there
      are tags, then the expert loop when there are experts. */
  function WriteNew(db: Db, id: string, p: ValidPodcast): (r: Result<Db, SqlError>)
    ensures r.Ok? ==> r.value.tables == db.tables
  {
    match InsertPodcast(db, RowOf(id, p))
    case Err(e) => Err(e)
    case Ok(d1) =>
      match (if |p.tags| > 0 then AddTags(d1, id, p.tags) else Ok(d1))
      case Err(e) => Err(e)
      case Ok(d2) => if |p.experts| > 0 then AddExperts(d2, id, p.experts) else Ok(d2)
  }

  /** What the transaction needs: the `podcasts` table and an unused id, the tag tables and
      distinct names when there are tags, the expert tables when there are experts. */
  ghost predicate Writable(db: Db, id: string, p: ValidPodcast) {
    && PodcastsTable in db.tables && id !in PodcastIds(db.podcasts)
    && (p.tags != [] ==> TagsTable in db.tables && PodcastTagsTable in db.tables && Distinct(p.tags))
    && (p.experts != [] ==> ExpertsTable in db.tables && ExpertCommentsTable in db.tables)
  }

  /** A podcast id that is not stored has no links and no comments. */
  lemma UnusedIdHasNothing(db: Db, id: string)
    requires Consistent(db) && id !in PodcastIds(db.podcasts)
    ensures forall i :: 0 <= i < |db.podcastTags| ==> db.podcastTags[i].podcastId != id
    ensures forall i :: 0 <= i < |db.comments| ==> db.comments[i].podcastId != id
  {
    forall i | 0 <= i < |db.podcastTags| ensures db.podcastTags[i].podcastId != id {
      assert db.podcastTags[i] in db.podcastTags;
    }
    forall i | 0 <= i < |db.comments| ensures db.comments[i].podcastId != id {
      assert db.comments[i] in db.comments;
    }
  }

  lemma InsertPodcastFacts(db: Db, row: PodcastRow)
    requires Consistent(db) && InsertPodcast(db, row).Ok?
    ensures var d := InsertPodcast(db, row).value;
      && Consistent(d) && d.tables == db.tables
      && d.podcastTags == db.podcastTags && d.comments == db.comments
      && d.tags == db.tags && d.experts == db.experts
      && row.id in PodcastIds(d.podcasts)
      && TagNamesOf(d.tags, d.podcastTags, row.id) == []
      && ExpertsOf(d.experts, d.comments, row.id) == []
  {
    UnusedIdHasNothing(db, row.id);
    TagNamesNone(db.tags, db.podcastTags, row.id);
    ExpertsOfNone(db.experts, db.comments, row.id);
  }

  /** The transaction succeeds exactly when the database is writable for it. */
  lemma WriteNewOkIff(db: Db, id: string, p: ValidPodcast)
    requires Consistent(db)
    ensures WriteNew(db, id, p).Ok? <==> Writable(db, id, p)
  {
    var row := RowOf(id, p);
    if InsertPodcast(db, row).Ok? {
      var d1 := InsertPodcast(db, row).value;
      InsertPodcastFacts(db, row);
      var s2 := if |p.tags| > 0 then AddTags(d1, id, p.tags) else Ok(d1);
      if |p.tags| > 0 {
        if TagsTable in db.tables && PodcastTagsTable in db.tables {
          AddTagsOkIff(d1, id, p.tags);
        } else {
          AddTagsNeedsTables(d1, id, p.tags);
        }
      }
      if s2.Ok? && |p.experts| > 0 {
        var d2 := s2.value;
        if |p.tags| > 0 { AddTagsConsistent(d1, id, p.tags); }
        if ExpertsTable in db.tables && ExpertCommentsTable in db.tables {
          AddExpertsOk(d2, id, p.experts);
        } else {
          AddExpertsNeedsTables(d2, id, p.experts);
        }
      }
    }
  }

  /** After the transaction the new podcast reads back with its tags and experts in order. */
  lemma WriteNewReadBack(db: Db, id: string, p: ValidPodcast)
    requires Consistent(db) && WriteNew(db, id, p).Ok?
    ensures var d := WriteNew(db, id, p).value;
      && Consistent(d)
      && FindRow(d.podcasts, id) == Some(RowOf(id, p))
      && TagNamesOf(d.tags, d.podcastTags, id) == p.tags
      && ExpertsOf(d.experts, d.comments, id) == Comments(p.experts)
      && |d.experts| == |db.experts| + |p.experts|
  {
    var row := RowOf(id, p);
    var d1 := InsertPodcast(db, row).value;
    InsertPodcastFacts(db, row);
    var d2 := if |p.tags| > 0 then AddTags(d1, id, p.tags).value else d1;
    if |p.tags| > 0 {
      AddTagsConsistent(d1, id, p.tags);
      AddTagsReadBack(d1, id, p.tags);
    }
    assert TagNamesOf(d2.tags, d2.podcastTags, id) == p.tags;
    var d := WriteNew(db, id, p).value;
    if |p.experts| > 0 {
      AddExpertsConsistent(d2, id, p.experts);
      AddExpertsReadBack(d2, id, p.experts);
    }
    assert d.podcasts == db.podcasts + [row];
    FindRowAppendNew(db.podcasts, row);
  }

  lemma {:induction false} FindRowAppendNew(rows: seq<PodcastRow>, row: PodcastRow)
    requires row.id !in PodcastIds(rows)
    ensures FindRow(rows + [row], row.id) == Some(row)
  {
    if rows != [] {
      assert rows[0] in rows;
      assert PodcastIds(rows[1..]) <= PodcastIds(rows) by {
        forall x | x in PodcastIds(rows[1..]) ensures x in PodcastIds(rows) {
          var r :| r in rows[1..] && r.id == x;
          assert r in rows;
        }
      }
      assert (rows + [row])[1..] == rows[1..] + [row];
      FindRowAppendNew(rows[1..], row);
    }
  }

  /** The transaction touches no other podcast. */
  lemma WriteNewKeepsOthers(db: Db, id: string, p: ValidPodcast, pid: string)
    requires Consistent(db) && WriteNew(db, id, p).Ok? && pid != id
    ensures var d := WriteNew(db, id, p).value;
      && FindRow(d.podcasts, pid) == FindRow(db.podcasts, pid)
      && TagNamesOf(d.tags, d.podcastTags, pid) == TagNamesOf(db.tags, db.podcastTags, pid)
      && ExpertsOf(d.experts, d.comments, pid) == ExpertsOf(db.experts, db.comments, pid)
  {
    var row := RowOf(id, p);
    var d1 := InsertPodcast(db, row).value;
    InsertPodcastFacts(db, row);
    FindRowAppend(db.podcasts, row, pid);
    var d2 := if |p.tags| > 0 then AddTags(d1, id, p.tags).value else d1;
    if |p.tags| > 0 {
      AddTagsConsistent(d1, id, p.tags);
      AddTagsKeepsOthers(d1, id, p.tags, pid);
    }
    if |p.experts| > 0 {
      AddExpertsKeepsOthers(d2, id, p.experts, pid);
    }
  }

  lemma {:induction false} FindRowAppend(rows: seq<PodcastRow>, row: PodcastRow, pid: string)
    requires pid != row.id
    ensures FindRow(rows + [row], pid) == FindRow(rows, pid)
  {
    if rows != [] {
      assert (rows + [row])[1..] == rows[1..] + [row];
      FindRowAppend(rows[1..], row, pid);
    }
  }

  /** `createPodcast(data)`, with `freshId` standing for `uuidv4()`: an invalid input
      throws the schema's issues; a failing statement rolls the transaction back and
      throws; otherwise the result of `getPodcastById(id)` is returned. */
  function Create(db: Db, data: PodcastInput, freshId: string): (r: Outcome<Option<Podcast>>)
    ensures r.result.Err? ==> r.db == db
    ensures r.result.Err? && r.result.error.Invalid? <==> !Acceptable(data)
    ensures r.result.Err? && r.result.error.Invalid? ==>
              r.result.error.issues != {} && forall f :: f in r.result.error.issues <==> Violates(data, f)
  {
    match Validate(data)
    case Err(issues) => Outcome(db, Err(Invalid(issues)))
    case Ok(p) =>
      var id := NewId(p.id, freshId);
      match WriteNew(db, id, p)
      case Err(e) => Outcome(db, Err(Sql(e)))
      case Ok(d) => Outcome(d, Ok(GetById(d, id)))
  }

  /** `createPodcast` succeeds exactly when the input is valid and the database is writable
      for it under the id it chooses. */
  lemma CreateOkIff(db: Db, data: PodcastInput, freshId: string)
    requires Consistent(db)
    ensures Create(db, data, freshId).result.Ok?
            <==> Acceptable(data) && Writable(db, NewId(data.id, freshId), Validate(data).value)
  {
    if Acceptable(data) {
      WriteNewOkIff(db, NewId(data.id, freshId), Validate(data).value);
    }
  }

  /** `createPodcast` keeps every declared constraint. */
  lemma CreateConsistent(db: Db, data: PodcastInput, freshId: string)
    requires Consistent(db)
    ensures Consistent(Create(db, data, freshId).db)
  {
    if Create(db, data, freshId).result.Ok? {
      WriteNewReadBack(db, NewId(data.id, freshId), Validate(data).value);
    }
  }

  /** With the schema in place, what `createPodcast` returns is the podcast as written:
      its fields, its tags in order, its experts in order with "" for a missing comment. */
  lemma CreateRoundTrip(db: Db, data: PodcastInput, freshId: string)
    requires Consistent(db) && AllTables <= db.tables && Create(db, data, freshId).result.Ok?
    ensures Create(db, data, freshId).result.value == Some(Stored(NewId(data.id, freshId), Validate(data).value))
  {
    var p := Validate(data).value;
    var id := NewId(data.id, freshId);
    WriteNewReadBack(db, id, p);
  }

  /** `createPodcast` leaves every other podcast as `getPodcastById` saw it. */
  lemma CreateKeepsOthers(db: Db, data: PodcastInput, freshId: string, pid: string)
    requires Consistent(db) && Create(db, data, freshId).result.Ok? && pid != NewId(data.id, freshId)
    ensures GetById(Create(db, data, freshId).db, pid) == GetById(db, pid)
  {
    var id := NewId(data.id, freshId);
    var p := Validate(data).value;
    var d := WriteNew(db, id, p).value;
    assert Create(db, data, freshId).db == d;
    WriteNewKeepsOthers(db, id, p, pid);
    GetByIdAgrees(db, d, pid);
  }

  /** A name found in a table is still found once rows are appended. */
  lemma TagIdOfPrefix(a: seq<TagRow>, b: seq<TagRow>, n: string)
    requires a <= b && TagIdOf(a, n).Some?
    ensures TagIdOf(b, n).Some?
  {
    var t := TagRow(TagIdOf(a, n).value, n);
    assert t in b by {
      var k :| 0 <= k < |a| && a[k] == t;
      assert b[k] == t;
    }
  }

  /** The tag loop only appends `tags` rows, and afterwards every name of the list has one. */
  lemma {:induction false} AddTagsKeepsTagRows(db: Db, id: string, tags: seq<string>)
    requires AddTags(db, id, tags).Ok?
    ensures var d := AddTags(db, id, tags).value;
      && db.tags <= d.tags
      && forall n :: n in tags ==> TagIdOf(d.tags, n).Some?
    decreases |tags|
  {
    if tags != [] {
      var d1 := TagStep(db, id, tags[0]).value;
      assert d1.tags == InsertOrIgnoreTag(db, tags[0]).value.tags;
      AddTagsKeepsTagRows(d1, id, tags[1..]);
      var d := AddTags(d1, id, tags[1..]).value;
      assert AddTags(db, id, tags).value == d;
      TagIdOfPrefix(d1.tags, d.tags, tags[0]);
      forall n | n in tags
        ensures TagIdOf(d.tags, n).Some?
      {
        if n != tags[0] {
          assert n in tags[1..];
        }
      }
    }
  }

  /** After `createPodcast`, every tag name of the record has a row in `tags`, and it is the
      only row with that name; the rows stored before are kept as they were. */
  lemma CreateTagRows(db: Db, data: PodcastInput, freshId: string)
    requires Consistent(db) && Create(db, data, freshId).result.Ok?
    ensures var d := Create(db, data, freshId).db;
      && db.tags <= d.tags
      && KeysDistinct(d.tags, TagNameKey)
      && forall n :: n in Validate(data).value.tags ==> TagIdOf(d.tags, n).Some?
  {
    var p := Validate(data).value;
    var id := NewId(data.id, freshId);
    var d1 := InsertPodcast(db, RowOf(id, p)).value;
    var d2 := if |p.tags| > 0 then AddTags(d1, id, p.tags).value else d1;
    var d := WriteNew(db, id, p).value;
    assert Create(db, data, freshId).db == d;
    assert d.tags == d2.tags;
    if |p.tags| > 0 {
      AddTagsKeepsTagRows(d1, id, p.tags);
    }
    CreateConsistent(db, data, freshId);
  }

  /** Every expert entry adds a row to `experts`, even when an equal expert is stored:
      the table is never deduplicated. */
  lemma CreateAddsExpertRows(db: Db, data: PodcastInput, freshId: string)
    requires Consistent(db) && Create(db, data, freshId).result.Ok?
    ensures |Create(db, data, freshId).db.experts| == |db.experts| + |Validate(data).value.experts|
  {
    WriteNewReadBack(db, NewId(data.id, freshId), Validate(data).value);
  }

  // ---------------------------------------------------------------- updatePodcast

  /** Remove the podcast's tag links, then run the tag loop. */
  function ReplaceTags(db: Db, id: string, tags: seq<string>): (r: Result<Db, SqlError>)
    ensures r.Ok? ==> r.value.tables == db.tables
  {
    match DeleteLinksOf(db, id)
    case Err(e) => Err(e)
    case Ok(d) => AddTags(d, id, tags)
  }

  /** Remove the podcast's comments, then run the expert loop. */
  function ReplaceExperts(db: Db, id: string, experts: seq<Expert>): (r: Result<Db, SqlError>)
    ensures r.Ok? ==> r.value.tables == db.tables
  {
    match DeleteCommentsOf(db, id)
    case Err(e) => Err(e)
    case Ok(d) => AddExperts(d, id, experts)
  }

  /** The transaction of `updatePodcast`: the `UPDATE` of the row, then the tags when the
      patch has a `tags` key, then the experts when it has an `experts` key. */
  function Rewrite(db: Db, id: string, p: ValidPodcast, data: PodcastInput): (r: Result<Db, SqlError>)
    ensures r.Ok? ==> r.value.tables == db.tables
  {
    match UpdatePodcastRow(db, id, RowOf(id, p))
    case Err(e) => Err(e)
    case Ok(d1) =>
      match (if data.tags.Some? then ReplaceTags(d1, id, p.tags) else Ok(d1))
      case Err(e) => Err(e)
      case Ok(d2) => if data.experts.Some? then ReplaceExperts(d2, id, p.experts) else Ok(d2)
  }

  /** `updatePodcast(id, data)`: a missing podcast throws, the merged record is validated,
      the transaction rewrites the row and, when the patch names them, the tags and the
      experts; the result is `getPodcastById(id)` afterwards. */
  function Update(db: Db, id: string, data: PodcastInput): (r: Outcome<Option<Podcast>>)
    ensures r.result.Err? ==> r.db == db
    ensures r.result == Err(NotFound(id)) <==> GetById(db, id).None?
    ensures GetById(db, id).Some? && r.result.Err? && r.result.error.Invalid? <==>
              GetById(db, id).Some? && !Acceptable(Merge(GetById(db, id).value, data))
  {
    match GetById(db, id)
    case None => Outcome(db, Err(NotFound(id)))
    case Some(existing) =>
      match Validate(Merge(existing, data))
      case Err(issues) => Outcome(db, Err(Invalid(issues)))
      case Ok(p) =>
        match Rewrite(db, id, p, data)
        case Err(e) => Outcome(db, Err(Sql(e)))
        case Ok(d) => Outcome(d, Ok(GetById(d, id)))
  }

  lemma DeleteLinksFacts(db: Db, id: string)
    requires Consistent(db) && PodcastTagsTable in db.tables
    ensures var d := DeleteLinksOf(db, id).value;
      && Consistent(d) && TagNamesOf(d.tags, d.podcastTags, id) == []
      && forall pid :: pid != id ==> TagNamesOf(d.tags, d.podcastTags, pid) == TagNamesOf(db.tags, db.podcastTags, pid)
  {
    var d := DeleteLinksOf(db, id).value;
    forall i | 0 <= i < |d.podcastTags| ensures d.podcastTags[i].podcastId != id {
      assert d.podcastTags[i] in d.podcastTags;
    }
    TagNamesNone(d.tags, d.podcastTags, id);
    forall pid | pid != id
      ensures TagNamesOf(d.tags, d.podcastTags, pid) == TagNamesOf(db.tags, db.podcastTags, pid)
    {
      TagNamesWithout(db.tags, db.podcastTags, id, pid);
    }
  }

  lemma DeleteCommentsFacts(db: Db, id: string)
    requires Consistent(db) && ExpertCommentsTable in db.tables
    ensures var d := DeleteCommentsOf(db, id).value;
      && Consistent(d) && ExpertsOf(d.experts, d.comments, id) == []
      && forall pid :: pid != id ==> ExpertsOf(d.experts, d.comments, pid) == ExpertsOf(db.experts, db.comments, pid)
  {
    var d := DeleteCommentsOf(db, id).value;
    forall i | 0 <= i < |d.comments| ensures d.comments[i].podcastId != id {
      assert d.comments[i] in d.comments;
    }
    ExpertsOfNone(d.experts, d.comments, id);
    forall pid | pid != id
      ensures ExpertsOf(d.experts, d.comments, pid) == ExpertsOf(db.experts, db.comments, pid)
    {
      ExpertsOfWithout(db.experts, db.comments, id, pid);
    }
  }

  /** Replacing the tags of a stored podcast fails exactly on a repeated name. */
  lemma ReplaceTagsOkIff(db: Db, id: string, tags: seq<string>)
    requires Consistent(db) && AllTables <= db.tables && id in PodcastIds(db.podcasts)
    ensures ReplaceTags(db, id, tags).Ok? <==> Distinct(tags)
  {
    var d1 := DeleteLinksOf(db, id).value;
    DeleteLinksFacts(db, id);
    AddTagsOkIff(d1, id, tags);
  }

  /** A successful replacement reads back as the new list; no other podcast's tags change. */
  lemma ReplaceTagsReadBack(db: Db, id: string, tags: seq<string>)
    requires Consistent(db) && ReplaceTags(db, id, tags).Ok?
    ensures var d := ReplaceTags(db, id, tags).value;
      && Consistent(d) && d.podcasts == db.podcasts
      && d.experts == db.experts && d.comments == db.comments
      && TagNamesOf(d.tags, d.podcastTags, id) == tags
      && forall pid :: pid != id ==> TagNamesOf(d.tags, d.podcastTags, pid) == TagNamesOf(db.tags, db.podcastTags, pid)
  {
    var d1 := DeleteLinksOf(db, id).value;
    DeleteLinksFacts(db, id);
    AddTagsConsistent(d1, id, tags);
    AddTagsReadBack(d1, id, tags);
    var d := ReplaceTags(db, id, tags).value;
    forall pid | pid != id
      ensures TagNamesOf(d.tags, d.podcastTags, pid) == TagNamesOf(db.tags, db.podcastTags, pid)
    {
      AddTagsKeepsOthers(d1, id, tags, pid);
    }
  }

  /** Replacing the experts of a stored podcast always succeeds and reads back as the new
      list; no other podcast's experts change. */
  lemma ReplaceExpertsFacts(db: Db, id: string, experts: seq<Expert>)
    requires Consistent(db) && AllTables <= db.tables && id in PodcastIds(db.podcasts)
    ensures ReplaceExperts(db, id, experts).Ok?
    ensures var d := ReplaceExperts(db, id, experts).value;
      && Consistent(d) && d.podcasts == db.podcasts
      && d.tags == db.tags && d.podcastTags == db.podcastTags
      && ExpertsOf(d.experts, d.comments, id) == Comments(experts)
      && forall pid :: pid != id ==> ExpertsOf(d.experts, d.comments, pid) == ExpertsOf(db.experts, db.comments, pid)
  {
    var d1 := DeleteCommentsOf(db, id).value;
    DeleteCommentsFacts(db, id);
    AddExpertsOk(d1, id, experts);
    AddExpertsConsistent(d1, id, experts);
    AddExpertsReadBack(d1, id, experts);
    forall pid | pid != id
      ensures ExpertsOf(ReplaceExperts(db, id, experts).value.experts, ReplaceExperts(db, id, experts).value.comments, pid)
              == ExpertsOf(db.experts, db.comments, pid)
    {
      AddExpertsKeepsOthers(d1, id, experts, pid);
    }
  }

  /** After the rewrite the row holds the new columns, and the tags and experts are the new
      lists when the patch named them and the old ones otherwise. */
  lemma RewriteReadBack(db: Db, id: string, p: ValidPodcast, data: PodcastInput)
    requires Consistent(db) && AllTables <= db.tables && id in PodcastIds(db.podcasts)
    requires Rewrite(db, id, p, data).Ok?
    ensures var d := Rewrite(db, id, p, data).value;
      && Consistent(d)
      && FindRow(d.podcasts, id) == Some(RowOf(id, p))
      && TagNamesOf(d.tags, d.podcastTags, id)
         == (if data.tags.Some? then p.tags else TagNamesOf(db.tags, db.podcastTags, id))
      && ExpertsOf(d.experts, d.comments, id)
         == (if data.experts.Some? then Comments(p.experts) else ExpertsOf(db.experts, db.comments, id))
  {
    var d1 := UpdatePodcastRow(db, id, RowOf(id, p)).value;
    FindRowSetColumns(db.podcasts, id, RowOf(id, p), id);
    var d2 := if data.tags.Some? then ReplaceTags(d1, id, p.tags).value else d1;
    if data.tags.Some? { ReplaceTagsReadBack(d1, id, p.tags); }
    if data.experts.Some? { ReplaceExpertsFacts(d2, id, p.experts); }
  }

  /** The rewrite touches no other podcast. */
  lemma RewriteKeepsOthers(db: Db, id: string, p: ValidPodcast, data: PodcastInput, pid: string)
    requires Consistent(db) && AllTables <= db.tables && id in PodcastIds(db.podcasts)
    requires Rewrite(db, id, p, data).Ok? && pid != id
    ensures var d := Rewrite(db, id, p, data).value;
      && FindRow(d.podcasts, pid) == FindRow(db.podcasts, pid)
      && TagNamesOf(d.tags, d.podcastTags, pid) == TagNamesOf(db.tags, db.podcastTags, pid)
      && ExpertsOf(d.experts, d.comments, pid) == ExpertsOf(db.experts, db.comments, pid)
  {
    var d1 := UpdatePodcastRow(db, id, RowOf(id, p)).value;
    FindRowSetColumns(db.podcasts, id, RowOf(id, p), pid);
    var d2 := if data.tags.Some? then ReplaceTags(d1, id, p.tags).value else d1;
    if data.tags.Some? { ReplaceTagsReadBack(d1, id, p.tags); }
    if data.experts.Some? { ReplaceExpertsFacts(d2, id, p.experts); }
  }

  /** For a stored podcast, `updatePodcast` succeeds exactly when the merged record is valid
      and a given tag list has no repeated name. */
  lemma UpdateOkIff(db: Db, id: string, data: PodcastInput)
    requires Consistent(db) && GetById(db, id).Some?
    ensures Update(db, id, data).result.Ok?
            <==> Acceptable(Merge(GetById(db, id).value, data)) && (data.tags.Some? ==> Distinct(data.tags.value))
  {
    var m := Merge(GetById(db, id).value, data);
    if Acceptable(m) {
      var p := Validate(m).value;
      var d1 := UpdatePodcastRow(db, id, RowOf(id, p)).value;
      if data.tags.Some? {
        ReplaceTagsOkIff(d1, id, p.tags);
        if ReplaceTags(d1, id, p.tags).Ok? {
          ReplaceTagsReadBack(d1, id, p.tags);
          ReplaceExpertsFacts(ReplaceTags(d1, id, p.tags).value, id, p.experts);
        }
      } else {
        ReplaceExpertsFacts(d1, id, p.experts);
      }
    }
  }

  /** `updatePodcast` keeps every declared constraint. */
  lemma UpdateConsistent(db: Db, id: string, data: PodcastInput)
    requires Consistent(db)
    ensures Consistent(Update(db, id, data).db)
  {
    if Update(db, id, data).result.Ok? {
      RewriteReadBack(db, id, Validate(Merge(GetById(db, id).value, data)).value, data);
    }
  }

  /** The experts of a reassembled podcast, parsed again, give back the same comments. */
  lemma CommentsOfReparsed(experts: seq<ExpertComment>, es: seq<Expert>)
    requires |es| == |experts|
    requires forall i :: 0 <= i < |es| ==> es[i] == Expert(experts[i].name, experts[i].avatar, Some(experts[i].comment))
    ensures Comments(es) == experts
  {
  }

  /** A successful `updatePodcast` is the rewrite of the merged record, then a read. */
  lemma UpdateUnfold(db: Db, id: string, data: PodcastInput)
    requires Update(db, id, data).result.Ok?
    ensures GetById(db, id).Some? && Acceptable(Merge(GetById(db, id).value, data))
    ensures var p := Validate(Merge(GetById(db, id).value, data)).value;
      && Rewrite(db, id, p, data).Ok?
      && Update(db, id, data) == Outcome(Rewrite(db, id, p, data).value, Ok(GetById(Rewrite(db, id, p, data).value, id)))
  {
  }

  /** After the rewrite of the merged record, the podcast's tags and experts are the merged
      record's: the patch's lists when given, the stored ones otherwise. */
  lemma RewriteListsMerged(db: Db, id: string, data: PodcastInput)
    requires Consistent(db) && GetById(db, id).Some? && Acceptable(Merge(GetById(db, id).value, data))
    requires Rewrite(db, id, Validate(Merge(GetById(db, id).value, data)).value, data).Ok?
    ensures var p := Validate(Merge(GetById(db, id).value, data)).value;
      var d := Rewrite(db, id, p, data).value;
      && Consistent(d) && AllTables <= d.tables
      && FindRow(d.podcasts, id) == Some(RowOf(id, p))
      && TagNamesOf(d.tags, d.podcastTags, id) == p.tags
      && ExpertsOf(d.experts, d.comments, id) == Comments(p.experts)
  {
    var existing := GetById(db, id).value;
    var p := Validate(Merge(existing, data)).value;
    GetByIdLists(db, id);
    MergeKeepsLists(existing, data);
    RewriteReadBack(db, id, p, data);
  }

  /** A stored podcast's lists are the ones its join rows give. */
  lemma GetByIdLists(db: Db, id: string)
    requires GetById(db, id).Some?
    ensures GetById(db, id).value.tags == TagNamesOf(db.tags, db.podcastTags, id)
    ensures GetById(db, id).value.experts == ExpertsOf(db.experts, db.comments, id)
  {
    var row := FindRow(db.podcasts, id).value;
    assert GetById(db, id).value == Assemble(db, row);
  }

  /** Lists left out of a patch survive the merge and the validation. */
  lemma MergeKeepsLists(existing: Podcast, data: PodcastInput)
    requires Acceptable(Merge(existing, data))
    ensures var p := Validate(Merge(existing, data)).value;
      && (data.tags.Some? ==> p.tags == data.tags.value)
      && (data.tags.None? ==> p.tags == existing.tags)
      && (data.experts.None? ==> Comments(p.experts) == existing.experts)
  {
    var p := Validate(Merge(existing, data)).value;
    if data.experts.None? {
      CommentsOfReparsed(existing.experts, p.experts);
    }
  }

  /** What `updatePodcast` returns is the merged, validated record under the parameter id:
      the id never changes, and tags and experts left out of the patch read back as before. */
  lemma UpdateReadBack(db: Db, id: string, data: PodcastInput)
    requires Consistent(db) && Update(db, id, data).result.Ok?
    ensures Update(db, id, data).result.value == Some(Stored(id, Validate(Merge(GetById(db, id).value, data)).value))
  {
    UpdateUnfold(db, id, data);
    RewriteListsMerged(db, id, data);
    var p := Validate(Merge(GetById(db, id).value, data)).value;
    AssembleRowOf(Rewrite(db, id, p, data).value, id, p);
  }

  lemma AssembleRowOf(d: Db, id: string, p: ValidPodcast)
    requires TagNamesOf(d.tags, d.podcastTags, id) == p.tags
    requires ExpertsOf(d.experts, d.comments, id) == Comments(p.experts)
    ensures Assemble(d, RowOf(id, p)) == Stored(id, p)
  {
  }

  /** `updatePodcast` leaves every other podcast as `getPodcastById` saw it. */
  lemma UpdateKeepsOthers(db: Db, id: string, data: PodcastInput, pid: string)
    requires Consistent(db) && Update(db, id, data).result.Ok? && pid != id
    ensures GetById(Update(db, id, data).db, pid) == GetById(db, pid)
  {
    var p := Validate(Merge(GetById(db, id).value, data)).value;
    var d := Rewrite(db, id, p, data).value;
    assert Update(db, id, data).db == d;
    RewriteKeepsOthers(db, id, p, data, pid);
    GetByIdAgrees(db, d, pid);
  }

  /** Two states with the same tables that agree on a podcast's row, tag names and experts
      give the same `getPodcastById` for it. */
  lemma GetByIdAgrees(a: Db, b: Db, pid: string)
    requires a.tables == b.tables && FindRow(a.podcasts, pid) == FindRow(b.podcasts, pid)
    requires TagNamesOf(a.tags, a.podcastTags, pid) == TagNamesOf(b.tags, b.podcastTags, pid)
    requires ExpertsOf(a.experts, a.comments, pid) == ExpertsOf(b.experts, b.comments, pid)
    ensures GetById(a, pid) == GetById(b, pid)
  {
  }

  /** A well-formed stored podcast, parsed again and stored, is itself. */
  lemma StoredReparsed(p: Podcast)
    requires p.kind == "audio" || p.kind == "video"
    ensures Stored(p.id, Reparsed(p)) == p
  {
    CommentsOfReparsed(p.experts, Reparsed(p).experts);
  }

  /** An empty patch on a well-formed stored podcast succeeds and changes nothing that
      `getPodcastById` shows. */
  lemma UpdateNoChanges(db: Db, id: string)
    requires Consistent(db) && GetById(db, id).Some? && WellFormed(GetById(db, id).value)
    ensures Update(db, id, NoChanges).result == Ok(GetById(db, id))
  {
    var e := GetById(db, id).value;
    MergeNoChanges(e);
    WellFormedRevalidates(e);
    UpdateOkIff(db, id, NoChanges);
    UpdateReadBack(db, id, NoChanges);
    StoredReparsed(e);
  }

  /** A patch of `stats.views` alone changes the view count and nothing else. */
  lemma UpdateViews(db: Db, id: string, views: nat)
    requires Consistent(db) && GetById(db, id).Some? && WellFormed(GetById(db, id).value)
    ensures var e := GetById(db, id).value;
      Update(db, id, NoChanges.(stats := Some(StatsInput(Some(views), None, None)))).result
      == Ok(Some(e.(stats := e.stats.(views := views))))
  {
    var e := GetById(db, id).value;
    var e' := e.(stats := e.stats.(views := views));
    var data := NoChanges.(stats := Some(StatsInput(Some(views), None, None)));
    assert Merge(e, data) == AsInput(e');
    WellFormedRevalidates(e');
    UpdateOkIff(db, id, data);
    UpdateReadBack(db, id, data);
    StoredReparsed(e');
  }

  // ---------------------------------------------------------------- deletePodcast

  /** `deletePodcast(id)`: a missing podcast throws; otherwise the row is deleted, the
      cascade removing its links and comments, and the result is `true`. */
  function Delete(db: Db, id: string): (r: Outcome<bool>)
    ensures r.result.Err? ==> r.db == db
    ensures r.result.Ok? <==> GetById(db, id).Some?
    ensures r.result.Ok? ==> r.result.value
    ensures r.result.Err? ==> r.result.error == NotFound(id)
  {
    match GetById(db, id)
    case None => Outcome(db, Err(NotFound(id)))
    case Some(_) =>
      match DeletePodcastRow(db, id)
      case Err(e) => Outcome(db, Err(Sql(e)))
      case Ok(d) => Outcome(d, Ok(true))
  }

  /** After `deletePodcast` the podcast is gone with its links and comments, while the
      `tags` and `experts` rows stay. */
  lemma DeleteRemoves(db: Db, id: string)
    requires Consistent(db) && GetById(db, id).Some?
    ensures var d := Delete(db, id).db;
      && Consistent(d) && d.tables == db.tables
      && GetById(d, id).None? && id !in PodcastIds(d.podcasts)
      && (forall i :: 0 <= i < |d.podcastTags| ==> d.podcastTags[i].podcastId != id)
      && (forall i :: 0 <= i < |d.comments| ==> d.comments[i].podcastId != id)
      && d.tags == db.tags && d.experts == db.experts
  {
    var d := Delete(db, id).db;
    forall i | 0 <= i < |d.podcastTags| ensures d.podcastTags[i].podcastId != id {
      assert d.podcastTags[i] in d.podcastTags;
    }
    forall i | 0 <= i < |d.comments| ensures d.comments[i].podcastId != id {
      assert d.comments[i] in d.comments;
    }
  }

  /** `deletePodcast` leaves every other podcast as `getPodcastById` saw it. */
  lemma DeleteKeepsOthers(db: Db, id: string, pid: string)
    requires GetById(db, id).Some? && pid != id
    ensures GetById(Delete(db, id).db, pid) == GetById(db, pid)
  {
    FindRowWithout(db.podcasts, id, pid);
    TagNamesWithout(db.tags, db.podcastTags, id, pid);
    ExpertsOfWithout(db.experts, db.comments, id, pid);
  }
}

/** The relational store of app/lib/db/index.ts as a value: the five tables, the
    AUTOINCREMENT counters, the constraints the schema declares (primary keys, UNIQUE,
    foreign keys with ON DELETE CASCADE, enforced because `foreign_keys = ON`), and the
    effect of every SQL statement the repository runs. Rows are kept in rowid order. */
module Tables {
  import opened Wrappers
  import opened Seqs

  datatype Table = PodcastsTable | TagsTable | PodcastTagsTable | ExpertsTable | ExpertCommentsTable

  const AllTables: set<Table> :=
    {PodcastsTable, TagsTable, PodcastTagsTable, ExpertsTable, ExpertCommentsTable}

  /** A row of `podcasts`; `created_at`/`updated_at` are clock values and are not modelled. */
  datatype PodcastRow = PodcastRow(
    id: string, title: string, duration: string, kind: string, publishedAt: string,
    cover: string, description: string, url: string,
    views: nat, likes: nat, shares: nat,
    authorName: string, authorTitle: string, authorAvatar: string)

  datatype TagRow = TagRow(id: nat, name: string)
  datatype PodcastTagRow = PodcastTagRow(podcastId: string, tagId: nat)
  /** `experts` has no UNIQUE constraint: only `id` is a key. */
  datatype ExpertRow = ExpertRow(id: nat, name: string, avatar: string)
  datatype CommentRow = CommentRow(id: nat, podcastId: string, expertId: nat, comment: string)

  /** The database file: which tables exist, their rows, and the `sqlite_sequence` values. */
  datatype Db = Db(
    tables: set<Table>,
    podcasts: seq<PodcastRow>,
    tags: seq<TagRow>,
    podcastTags: seq<PodcastTagRow>,
    experts: seq<ExpertRow>,
    comments: seq<CommentRow>,
    tagSeq: nat, expertSeq: nat, commentSeq: nat)

  datatype SqlError = NoSuchTable(table: Table) | PrimaryKey(table: Table) | ForeignKey(table: Table)

  function PodcastKey(r: PodcastRow): string { r.id }
  function TagKey(r: TagRow): nat { r.id }
  function TagNameKey(r: TagRow): string { r.name }
  function LinkKey(r: PodcastTagRow): (string, nat) { (r.podcastId, r.tagId) }
  function ExpertKey(r: ExpertRow): nat { r.id }
  function CommentKey(r: CommentRow): nat { r.id }

  function PodcastIds(rows: seq<PodcastRow>): set<string> { set r | r in rows :: r.id }
  function TagIds(rows: seq<TagRow>): set<nat> { set r | r in rows :: r.id }
  function ExpertIds(rows: seq<ExpertRow>): set<nat> { set r | r in rows :: r.id }

  /** A table that does not exist holds no rows. */
  ghost predicate AbsentTablesEmpty(db: Db) {
    && (PodcastsTable !in db.tables ==> db.podcasts == [])
    && (TagsTable !in db.tables ==> db.tags == [])
    && (PodcastTagsTable !in db.tables ==> db.podcastTags == [])
    && (ExpertsTable !in db.tables ==> db.experts == [])
    && (ExpertCommentsTable !in db.tables ==> db.comments == [])
  }

  /** PRIMARY KEY and UNIQUE columns, and AUTOINCREMENT ids never above the counter. */
  ghost predicate KeysHold(db: Db) {
    && KeysDistinct(db.podcasts, PodcastKey)
    && KeysDistinct(db.tags, TagKey) && KeysDistinct(db.tags, TagNameKey)
    && KeysDistinct(db.podcastTags, LinkKey)
    && KeysDistinct(db.experts, ExpertKey)
    && KeysDistinct(db.comments, CommentKey)
    && (forall t :: t in db.tags ==> t.id <= db.tagSeq)
    && (forall e :: e in db.experts ==> e.id <= db.expertSeq)
    && (forall c :: c in db.comments ==> c.id <= db.commentSeq)
  }

  /** FOREIGN KEY clauses: every link and comment row references live rows. */
  ghost predicate ReferencesHold(db: Db) {
    && (forall l :: l in db.podcastTags ==>
          l.podcastId in PodcastIds(db.podcasts) && l.tagId in TagIds(db.tags))
    && (forall c :: c in db.comments ==>
          c.podcastId in PodcastIds(db.podcasts) && c.expertId in ExpertIds(db.experts))
  }

  /** Every state the engine can be in: the declared constraints hold. */
  ghost predicate Consistent(db: Db) {
    AbsentTablesEmpty(db) && KeysHold(db) && ReferencesHold(db)
  }

  /** `CREATE TABLE IF NOT EXISTS t`: the table exists afterwards, and every row and counter,
      of this table and of the others, is kept. */
  function CreateTableIfNotExists(db: Db, t: Table): (r: Db)
    ensures r.tables == db.tables + {t}
    ensures r == db.(tables := r.tables)
    ensures Consistent(db) ==> Consistent(r)
  {
    db.(tables := db.tables + {t})
  }

  /** Insert a podcast row; fails on a missing table or an id already stored (the primary key). */
  function InsertPodcast(db: Db, row: PodcastRow): (r: Result<Db, SqlError>)
    ensures r.Ok? <==> PodcastsTable in db.tables && row.id !in PodcastIds(db.podcasts)
    ensures r.Ok? ==> PodcastIds(r.value.podcasts) == PodcastIds(db.podcasts) + {row.id}
    ensures r.Ok? && Consistent(db) ==> Consistent(r.value)
  {
    if PodcastsTable !in db.tables then Err(NoSuchTable(PodcastsTable))
    else if row.id in PodcastIds(db.podcasts) then Err(PrimaryKey(PodcastsTable))
    else
      var ps := db.podcasts + [row];
      assert forall r :: r in ps <==> r in db.podcasts || r == row;
      Ok(db.(podcasts := ps))
  }

  /** The id of the first tag row with the given name, if any. */
  function TagIdOf(tags: seq<TagRow>, name: string): (r: Option<nat>)
    ensures r.Some? ==> TagRow(r.value, name) in tags
    ensures r.None? <==> forall t :: t in tags ==> t.name != name
  {
    if tags == [] then None
    else if tags[0].name == name then Some(tags[0].id)
    else TagIdOf(tags[1..], name)
  }

  /** Insert a tag name, or do nothing when the name is stored already (it is UNIQUE). */
  function InsertOrIgnoreTag(db: Db, name: string): (r: Result<Db, SqlError>)
    ensures r.Ok? <==> TagsTable in db.tables
    ensures r.Ok? ==> TagIdOf(r.value.tags, name).Some?
    ensures r.Ok? && TagIdOf(db.tags, name).Some? ==> r.value == db
    ensures r.Ok? && TagIdOf(db.tags, name).None? ==>
              r.value.tags == db.tags + [TagRow(r.value.tagSeq, name)] && r.value.tagSeq == db.tagSeq + 1
    ensures r.Ok? ==> r.value.(tags := db.tags, tagSeq := db.tagSeq) == db
    ensures r.Ok? && Consistent(db) ==> Consistent(r.value)
  {
    if TagsTable !in db.tables then Err(NoSuchTable(TagsTable))
    else if TagIdOf(db.tags, name).Some? then Ok(db)
    else
      var t := TagRow(db.tagSeq + 1, name);
      var ts := db.tags + [t];
      assert TagIdOf(ts, name).Some? by { assert t in ts; }
      assert Consistent(db) ==> Consistent(db.(tags := ts, tagSeq := db.tagSeq + 1)) by {
        if Consistent(db) { NewTagConsistent(db, name); }
      }
      Ok(db.(tags := ts, tagSeq := db.tagSeq + 1))
  }

  lemma NewTagConsistent(db: Db, name: string)
    requires Consistent(db) && TagsTable in db.tables && TagIdOf(db.tags, name).None?
    ensures Consistent(db.(tags := db.tags + [TagRow(db.tagSeq + 1, name)], tagSeq := db.tagSeq + 1))
  {
    var t := TagRow(db.tagSeq + 1, name);
    var ts := db.tags + [t];
    forall i | 0 <= i < |db.tags| ensures TagKey(db.tags[i]) != TagKey(t) && TagNameKey(db.tags[i]) != TagNameKey(t) {
      assert db.tags[i] in db.tags;
    }
    AppendKeysDistinct(db.tags, t, TagKey);
    AppendKeysDistinct(db.tags, t, TagNameKey);
    assert forall r :: r in ts <==> r in db.tags || r == t;
    assert TagIds(db.tags) <= TagIds(ts);
  }

  /** Link the podcast to the tag row with the given name: nothing is inserted when no row has
      the name; a duplicate link or an unknown podcast violates a constraint. */
  function LinkTagByName(db: Db, podcastId: string, name: string): (r: Result<Db, SqlError>)
    ensures r.Ok? && TagIdOf(db.tags, name).Some? ==>
              r.value.podcastTags == db.podcastTags + [PodcastTagRow(podcastId, TagIdOf(db.tags, name).value)]
    ensures r.Ok? ==> r.value.(podcastTags := db.podcastTags) == db
    ensures TagsTable in db.tables && PodcastTagsTable in db.tables && TagIdOf(db.tags, name).Some? ==>
              (r.Err? <==> PodcastTagRow(podcastId, TagIdOf(db.tags, name).value) in db.podcastTags
                           || podcastId !in PodcastIds(db.podcasts))
    ensures r.Ok? && Consistent(db) ==> Consistent(r.value)
  {
    if PodcastTagsTable !in db.tables then Err(NoSuchTable(PodcastTagsTable))
    else if TagsTable !in db.tables then Err(NoSuchTable(TagsTable))
    else match TagIdOf(db.tags, name)
      case None => Ok(db)
      case Some(tid) =>
        var l := PodcastTagRow(podcastId, tid);
        if l in db.podcastTags then Err(PrimaryKey(PodcastTagsTable))
        else if podcastId !in PodcastIds(db.podcasts) then Err(ForeignKey(PodcastTagsTable))
        else
          var ls := db.podcastTags + [l];
          assert tid in TagIds(db.tags);
          assert forall x :: x in ls <==> x in db.podcastTags || x == l;
          Ok(db.(podcastTags := ls))
  }

  /** Insert an expert, "or ignore": with no UNIQUE constraint on `experts` nothing is ever
      ignored, so a new row is always added. */
  function InsertExpert(db: Db, name: string, avatar: string): (r: Result<Db, SqlError>)
    ensures r.Ok? <==> ExpertsTable in db.tables
    ensures r.Ok? ==> r.value.experts == db.experts + [ExpertRow(r.value.expertSeq, name, avatar)]
                      && r.value.expertSeq == db.expertSeq + 1
    ensures r.Ok? ==> r.value.(experts := db.experts, expertSeq := db.expertSeq) == db
    ensures r.Ok? && Consistent(db) ==> Consistent(r.value)
  {
    if ExpertsTable !in db.tables then Err(NoSuchTable(ExpertsTable))
    else
      var e := ExpertRow(db.expertSeq + 1, name, avatar);
      var es := db.experts + [e];
      assert forall x :: x in es <==> x in db.experts || x == e;
      Ok(db.(experts := es, expertSeq := db.expertSeq + 1))
  }

  /** The id of the first expert row, in rowid order, with the given name and avatar. */
  function FindExpert(experts: seq<ExpertRow>, name: string, avatar: string): (r: Option<nat>)
    ensures r.Some? ==> ExpertRow(r.value, name, avatar) in experts
    ensures r.None? <==> forall e :: e in experts ==> e.name != name || e.avatar != avatar
  {
    if experts == [] then None
    else if experts[0].name == name && experts[0].avatar == avatar then Some(experts[0].id)
    else FindExpert(experts[1..], name, avatar)
  }

  /** Insert a comment row; both foreign keys must reference stored rows. */
  function InsertComment(db: Db, podcastId: string, expertId: nat, comment: string): (r: Result<Db, SqlError>)
    ensures r.Ok? <==> ExpertCommentsTable in db.tables && podcastId in PodcastIds(db.podcasts)
                       && expertId in ExpertIds(db.experts)
    ensures r.Ok? ==> r.value.comments == db.comments + [CommentRow(r.value.commentSeq, podcastId, expertId, comment)]
                      && r.value.commentSeq == db.commentSeq + 1
    ensures r.Ok? ==> r.value.(comments := db.comments, commentSeq := db.commentSeq) == db
    ensures r.Ok? && Consistent(db) ==> Consistent(r.value)
  {
    if ExpertCommentsTable !in db.tables then Err(NoSuchTable(ExpertCommentsTable))
    else if podcastId !in PodcastIds(db.podcasts) then Err(ForeignKey(ExpertCommentsTable))
    else if expertId !in ExpertIds(db.experts) then Err(ForeignKey(ExpertCommentsTable))
    else
      var c := CommentRow(db.commentSeq + 1, podcastId, expertId, comment);
      var cs := db.comments + [c];
      assert forall x :: x in cs <==> x in db.comments || x == c;
      Ok(db.(comments := cs, commentSeq := db.commentSeq + 1))
  }

  /** What the row update leaves at a matching position: every column from `values` except
      the key, which the statement does not set. */
  function SetColumns(rows: seq<PodcastRow>, id: string, values: PodcastRow): (r: seq<PodcastRow>)
    ensures |r| == |rows|
    ensures forall i :: 0 <= i < |rows| ==> r[i] == if rows[i].id == id then values.(id := id) else rows[i]
  {
    seq(|rows|, i requires 0 <= i < |rows| => if rows[i].id == id then values.(id := id) else rows[i])
  }

  lemma SetColumnsKeepsIds(rows: seq<PodcastRow>, id: string, values: PodcastRow)
    ensures PodcastIds(SetColumns(rows, id, values)) == PodcastIds(rows)
    ensures KeysDistinct(rows, PodcastKey) ==> KeysDistinct(SetColumns(rows, id, values), PodcastKey)
  {
    var r := SetColumns(rows, id, values);
    forall x | x in PodcastIds(rows) ensures x in PodcastIds(r) {
      var k :| 0 <= k < |rows| && rows[k].id == x;
      assert r[k].id == x && r[k] in r;
    }
    forall x | x in PodcastIds(r) ensures x in PodcastIds(rows) {
      var k :| 0 <= k < |r| && r[k].id == x;
      assert rows[k].id == x && rows[k] in rows;
    }
  }

  /** Overwrite every non-key column of the rows with the given id. */
  function UpdatePodcastRow(db: Db, id: string, values: PodcastRow): (r: Result<Db, SqlError>)
    ensures r.Ok? <==> PodcastsTable in db.tables
    ensures r.Ok? ==> PodcastIds(r.value.podcasts) == PodcastIds(db.podcasts)
    ensures r.Ok? ==> r.value.(podcasts := db.podcasts) == db
    ensures r.Ok? && Consistent(db) ==> Consistent(r.value)
  {
    if PodcastsTable !in db.tables then Err(NoSuchTable(PodcastsTable))
    else
      SetColumnsKeepsIds(db.podcasts, id, values);
      Ok(db.(podcasts := SetColumns(db.podcasts, id, values)))
  }

  function NotPodcast(id: string): PodcastRow -> bool { (r: PodcastRow) => r.id != id }
  function NotLinkedTo(id: string): PodcastTagRow -> bool { (l: PodcastTagRow) => l.podcastId != id }
  function NotCommentOn(id: string): CommentRow -> bool { (c: CommentRow) => c.podcastId != id }

  lemma {:induction false} WithoutPodcastIds(rows: seq<PodcastRow>, id: string)
    ensures PodcastIds(Filter(rows, NotPodcast(id))) == PodcastIds(rows) - {id}
  {
    var r := Filter(rows, NotPodcast(id));
    forall x | x in PodcastIds(rows) - {id} ensures x in PodcastIds(r) {
      var row :| row in rows && row.id == x;
      assert row in r;
    }
  }

  /** Remove every tag link of a podcast. */
  function DeleteLinksOf(db: Db, id: string): (r: Result<Db, SqlError>)
    ensures r.Ok? <==> PodcastTagsTable in db.tables
    ensures r.Ok? ==> forall l :: l in r.value.podcastTags <==> l in db.podcastTags && l.podcastId != id
    ensures r.Ok? ==> r.value.(podcastTags := db.podcastTags) == db
    ensures r.Ok? && Consistent(db) ==> Consistent(r.value)
  {
    if PodcastTagsTable !in db.tables then Err(NoSuchTable(PodcastTagsTable))
    else
      assert KeysDistinct(db.podcastTags, LinkKey) ==> KeysDistinct(Filter(db.podcastTags, NotLinkedTo(id)), LinkKey) by {
        if KeysDistinct(db.podcastTags, LinkKey) { FilterKeysDistinct(db.podcastTags, LinkKey, NotLinkedTo(id)); }
      }
      Ok(db.(podcastTags := Filter(db.podcastTags, NotLinkedTo(id))))
  }

  /** Remove every comment on a podcast. */
  function DeleteCommentsOf(db: Db, id: string): (r: Result<Db, SqlError>)
    ensures r.Ok? <==> ExpertCommentsTable in db.tables
    ensures r.Ok? ==> forall c :: c in r.value.comments <==> c in db.comments && c.podcastId != id
    ensures r.Ok? ==> r.value.(comments := db.comments) == db
    ensures r.Ok? && Consistent(db) ==> Consistent(r.value)
  {
    if ExpertCommentsTable !in db.tables then Err(NoSuchTable(ExpertCommentsTable))
    else
      assert KeysDistinct(db.comments, CommentKey) ==> KeysDistinct(Filter(db.comments, NotCommentOn(id)), CommentKey) by {
        if KeysDistinct(db.comments, CommentKey) { FilterKeysDistinct(db.comments, CommentKey, NotCommentOn(id)); }
      }
      Ok(db.(comments := Filter(db.comments, NotCommentOn(id))))
  }

  /** Remove the podcast row, with ON DELETE CASCADE removing the
      `podcast_tags` and `expert_comments` rows that reference it. */
  function DeletePodcastRow(db: Db, id: string): (r: Result<Db, SqlError>)
    ensures r.Ok? <==> PodcastsTable in db.tables
    ensures r.Ok? ==> PodcastIds(r.value.podcasts) == PodcastIds(db.podcasts) - {id}
    ensures r.Ok? ==> forall l :: l in r.value.podcastTags <==> l in db.podcastTags && l.podcastId != id
    ensures r.Ok? ==> forall c :: c in r.value.comments <==> c in db.comments && c.podcastId != id
    ensures r.Ok? ==> r.value.tags == db.tags && r.value.experts == db.experts
    ensures r.Ok? && Consistent(db) ==> Consistent(r.value)
  {
    if PodcastsTable !in db.tables then Err(NoSuchTable(PodcastsTable))
    else
      WithoutPodcastIds(db.podcasts, id);
      assert KeysDistinct(db.podcasts, PodcastKey) ==> KeysDistinct(Filter(db.podcasts, NotPodcast(id)), PodcastKey) by {
        if KeysDistinct(db.podcasts, PodcastKey) { FilterKeysDistinct(db.podcasts, PodcastKey, NotPodcast(id)); }
      }
      assert KeysDistinct(db.podcastTags, LinkKey) ==> KeysDistinct(Filter(db.podcastTags, NotLinkedTo(id)), LinkKey) by {
        if KeysDistinct(db.podcastTags, LinkKey) { FilterKeysDistinct(db.podcastTags, LinkKey, NotLinkedTo(id)); }
      }
      assert KeysDistinct(db.comments, CommentKey) ==> KeysDistinct(Filter(db.comments, NotCommentOn(id)), CommentKey) by {
        if KeysDistinct(db.comments, CommentKey) { FilterKeysDistinct(db.comments, CommentKey, NotCommentOn(id)); }
      }
      Ok(db.(podcasts := Filter(db.podcasts, NotPodcast(id)),
             podcastTags := Filter(db.podcastTags, NotLinkedTo(id)),
             comments := Filter(db.comments, NotCommentOn(id))))
  }
}

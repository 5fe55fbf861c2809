/** The better-sqlite3 connection of app/lib/db/index.ts: a database whose tables are
    updated in place, one statement at a time, with a rollback journal for
    `db.transaction(...)`, and the `initDb` run when the module is loaded. */
module Storage {
  import opened Wrappers
  import opened Tables

  /** How a statement ended: on success the new state is `r`'s, on failure the statement
      changed nothing and its error is reported. */
  ghost predicate Ran(before: Db, r: Result<Db, SqlError>, err: Option<SqlError>, after: Db) {
    match r
    case Ok(d) => err.None? && after == d
    case Err(e) => err == Some(e) && after == before
  }

  /** How a run of several statements ended: on success the new state is `r`'s; on failure
      the first error is reported and the partial writes are left for a rollback. */
  ghost predicate Reached(r: Result<Db, SqlError>, err: Option<SqlError>, after: Db) {
    match r
    case Ok(d) => err.None? && after == d
    case Err(e) => err == Some(e)
  }

  class Database {
    var tables: set<Table>
    var podcasts: seq<PodcastRow>
    var tags: seq<TagRow>
    var podcastTags: seq<PodcastTagRow>
    var experts: seq<ExpertRow>
    var comments: seq<CommentRow>
    var tagSeq: nat
    var expertSeq: nat
    var commentSeq: nat
    /** The state saved by BEGIN while a transaction is open. */
    var journal: Option<Db>

    function State(): Db
      reads this
    {
      Db(tables, podcasts, tags, podcastTags, experts, comments, tagSeq, expertSeq, commentSeq)
    }

    /** The declared constraints hold of the file's current contents. */
    ghost predicate Valid()
      reads this
    {
      Consistent(State())
    }

    /** `new Database(dbPath)`: opens the file with whatever it already holds. */
    constructor Open(file: Db)
      requires Consistent(file)
      ensures State() == file && journal.None?
    {
      tables, podcasts, tags, podcastTags := file.tables, file.podcasts, file.tags, file.podcastTags;
      experts, comments := file.experts, file.comments;
      tagSeq, expertSeq, commentSeq := file.tagSeq, file.expertSeq, file.commentSeq;
      journal := None;
    }

    method Store(d: Db)
      modifies this
      ensures State() == d && journal == old(journal)
    {
      tables, podcasts, tags, podcastTags := d.tables, d.podcasts, d.tags, d.podcastTags;
      experts, comments := d.experts, d.comments;
      tagSeq, expertSeq, commentSeq := d.tagSeq, d.expertSeq, d.commentSeq;
    }

    method Run(r: Result<Db, SqlError>) returns (err: Option<SqlError>)
      modifies this
      ensures Ran(old(State()), r, err, State()) && journal == old(journal)
    {
      match r
      case Ok(d) => Store(d); err := None;
      case Err(e) => err := Some(e);
    }

    /** BEGIN. */
    method Begin()
      requires journal.None?
      modifies this
      ensures State() == old(State()) && journal == Some(old(State()))
    {
      journal := Some(State());
    }

    /** COMMIT. */
    method Commit()
      modifies this
      ensures State() == old(State()) && journal.None?
    {
      journal := None;
    }

    /** ROLLBACK: every change since BEGIN is undone. */
    method Rollback()
      requires journal.Some?
      modifies this
      ensures State() == old(journal.value) && journal.None?
    {
      Store(journal.value);
      journal := None;
    }

    method CreateTable(t: Table)
      modifies this
      ensures State() == CreateTableIfNotExists(old(State()), t) && journal == old(journal)
    {
      tables := tables + {t};
    }

    method InsertPodcast(row: PodcastRow) returns (err: Option<SqlError>)
      modifies this
      ensures Ran(old(State()), Tables.InsertPodcast(old(State()), row), err, State())
      ensures journal == old(journal)
    {
      err := Run(Tables.InsertPodcast(State(), row));
    }

    method InsertOrIgnoreTag(name: string) returns (err: Option<SqlError>)
      modifies this
      ensures Ran(old(State()), Tables.InsertOrIgnoreTag(old(State()), name), err, State())
      ensures journal == old(journal)
    {
      err := Run(Tables.InsertOrIgnoreTag(State(), name));
    }

    method LinkTagByName(podcastId: string, name: string) returns (err: Option<SqlError>)
      modifies this
      ensures Ran(old(State()), Tables.LinkTagByName(old(State()), podcastId, name), err, State())
      ensures journal == old(journal)
    {
      err := Run(Tables.LinkTagByName(State(), podcastId, name));
    }

    method InsertExpert(name: string, avatar: string) returns (err: Option<SqlError>)
      modifies this
      ensures Ran(old(State()), Tables.InsertExpert(old(State()), name, avatar), err, State())
      ensures journal == old(journal)
    {
      err := Run(Tables.InsertExpert(State(), name, avatar));
    }

    method FindExpert(name: string, avatar: string) returns (id: Option<nat>)
      ensures id == Tables.FindExpert(experts, name, avatar)
    {
      id := Tables.FindExpert(experts, name, avatar);
    }

    method InsertComment(podcastId: string, expertId: nat, comment: string) returns (err: Option<SqlError>)
      modifies this
      ensures Ran(old(State()), Tables.InsertComment(old(State()), podcastId, expertId, comment), err, State())
      ensures journal == old(journal)
    {
      err := Run(Tables.InsertComment(State(), podcastId, expertId, comment));
    }

    method UpdatePodcastRow(id: string, values: PodcastRow) returns (err: Option<SqlError>)
      modifies this
      ensures Ran(old(State()), Tables.UpdatePodcastRow(old(State()), id, values), err, State())
      ensures journal == old(journal)
    {
      err := Run(Tables.UpdatePodcastRow(State(), id, values));
    }

    method DeleteLinksOf(id: string) returns (err: Option<SqlError>)
      modifies this
      ensures Ran(old(State()), Tables.DeleteLinksOf(old(State()), id), err, State())
      ensures journal == old(journal)
    {
      err := Run(Tables.DeleteLinksOf(State(), id));
    }

    method DeleteCommentsOf(id: string) returns (err: Option<SqlError>)
      modifies this
      ensures Ran(old(State()), Tables.DeleteCommentsOf(old(State()), id), err, State())
      ensures journal == old(journal)
    {
      err := Run(Tables.DeleteCommentsOf(State(), id));
    }

    method DeletePodcastRow(id: string) returns (err: Option<SqlError>)
      modifies this
      ensures Ran(old(State()), Tables.DeletePodcastRow(old(State()), id), err, State())
      ensures journal == old(journal)
    {
      err := Run(Tables.DeletePodcastRow(State(), id));
    }
  }

  /** What `initDb` leaves: when no `podcasts` table exists, the five CREATE TABLE IF NOT
      EXISTS statements run; otherwise nothing happens, even if other tables are missing. */
  function Initialized(d: Db): (r: Db)
    ensures PodcastsTable in r.tables
    ensures PodcastsTable in d.tables ==> r == d
    ensures PodcastsTable !in d.tables ==> r == d.(tables := d.tables + AllTables)
    ensures Consistent(d) ==> Consistent(r)
  {
    if PodcastsTable in d.tables then d
    else
      var d1 := CreateTableIfNotExists(d, PodcastsTable);
      var d2 := CreateTableIfNotExists(d1, TagsTable);
      var d3 := CreateTableIfNotExists(d2, PodcastTagsTable);
      var d4 := CreateTableIfNotExists(d3, ExpertsTable);
      CreateTableIfNotExists(d4, ExpertCommentsTable)
  }

  /** Running `initDb` a second time changes nothing. */
  lemma InitializedIdempotent(d: Db)
    ensures Initialized(Initialized(d)) == Initialized(d)
  {
  }

  /** On a database that has no tables at all, `initDb` creates the whole schema. */
  lemma InitializedFromEmpty(d: Db)
    requires d.tables == {}
    ensures Initialized(d).tables == AllTables
  {
  }

  /** `initDb()` (app/lib/db/index.ts:21-92). */
  method InitDb(db: Database)
    modifies db
    ensures db.State() == Initialized(old(db.State())) && db.journal == old(db.journal)
  {
    if PodcastsTable !in db.tables {
      db.CreateTable(PodcastsTable);
      db.CreateTable(TagsTable);
      db.CreateTable(PodcastTagsTable);
      db.CreateTable(ExpertsTable);
      db.CreateTable(ExpertCommentsTable);
    }
  }
}

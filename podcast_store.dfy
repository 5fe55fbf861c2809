/** The write operations of app/lib/db/podcasts.ts as they run against the connection:
    statement by statement, inside `db.transaction(...)`, each proved to end in the state
    and with the result the Repository functions describe. */
module PodcastStore {
  import opened Wrappers
  import opened Tables
  import opened PodcastSchema
  import opened Repository
  import opened Storage

  /** The tag loop: for each name, insert the tag unless the name is stored, then link it to
      the podcast; the first statement that fails ends the loop with its error. */
  method AddTagsIn(db: Database, id: string, tags: seq<string>) returns (err: Option<SqlError>)
    modifies db
    ensures Reached(AddTags(old(db.State()), id, tags), err, db.State())
    ensures db.journal == old(db.journal)
  {
    var i := 0;
    while i < |tags|
      invariant 0 <= i <= |tags|
      invariant AddTags(old(db.State()), id, tags) == AddTags(db.State(), id, tags[i..])
      invariant db.journal == old(db.journal)
    {
      assert tags[i..][0] == tags[i] && tags[i..][1..] == tags[i + 1..];
      err := db.InsertOrIgnoreTag(tags[i]);
      if err.Some? { return; }
      err := db.LinkTagByName(id, tags[i]);
      if err.Some? { return; }
      i := i + 1;
    }
    err := None;
  }

  /** The expert loop: for each expert, insert a row, look an id up by name and avatar and,
      when one is found, insert the comment, the empty string when there is none. */
  method AddExpertsIn(db: Database, id: string, experts: seq<Expert>) returns (err: Option<SqlError>)
    modifies db
    ensures Reached(AddExperts(old(db.State()), id, experts), err, db.State())
    ensures db.journal == old(db.journal)
  {
    var i := 0;
    while i < |experts|
      invariant 0 <= i <= |experts|
      invariant AddExperts(old(db.State()), id, experts) == AddExperts(db.State(), id, experts[i..])
      invariant db.journal == old(db.journal)
    {
      var e := experts[i];
      assert experts[i..][0] == e && experts[i..][1..] == experts[i + 1..];
      err := db.InsertExpert(e.name, e.avatar);
      if err.Some? { return; }
      var expertId := db.FindExpert(e.name, e.avatar);
      if expertId.Some? {
        err := db.InsertComment(id, expertId.value, e.comment.GetOr(""));
        if err.Some? { return; }
      }
      i := i + 1;
    }
    err := None;
  }

  /** The body of the transaction in `createPodcast`. */
  method WriteNewIn(db: Database, id: string, p: ValidPodcast) returns (err: Option<SqlError>)
    modifies db
    ensures Reached(WriteNew(old(db.State()), id, p), err, db.State())
    ensures db.journal == old(db.journal)
  {
    err := db.InsertPodcast(RowOf(id, p));
    if err.Some? { return; }
    if |p.tags| > 0 {
      err := AddTagsIn(db, id, p.tags);
      if err.Some? { return; }
    }
    if |p.experts| > 0 {
      err := AddExpertsIn(db, id, p.experts);
    }
  }

  /** `createPodcast(podcast)`, `freshId` standing for the `uuidv4()` it would call. */
  method CreatePodcast(db: Database, data: PodcastInput, freshId: string) returns (result: Result<Option<Podcast>, Failure>)
    requires db.journal.None?
    requires db.Valid()
    modifies db
    ensures result == Create(old(db.State()), data, freshId).result
    ensures db.State() == Create(old(db.State()), data, freshId).db
    ensures db.Valid()
    ensures db.journal.None?
  {
    CreateConsistent(db.State(), data, freshId);
    var v := Validate(data);
    if v.Err? { return Err(Invalid(v.error)); }
    var p := v.value;
    var id := NewId(p.id, freshId);
    db.Begin();
    var err := WriteNewIn(db, id, p);
    if err.Some? {
      db.Rollback();
      return Err(Sql(err.value));
    }
    db.Commit();
    result := Ok(GetById(db.State(), id));
  }

  /** Remove the podcast's tag links, then run the tag loop. */
  method ReplaceTagsIn(db: Database, id: string, tags: seq<string>) returns (err: Option<SqlError>)
    modifies db
    ensures Reached(ReplaceTags(old(db.State()), id, tags), err, db.State())
    ensures db.journal == old(db.journal)
  {
    err := db.DeleteLinksOf(id);
    if err.Some? { return; }
    err := AddTagsIn(db, id, tags);
  }

  /** Remove the podcast's comments, then run the expert loop. */
  method ReplaceExpertsIn(db: Database, id: string, experts: seq<Expert>) returns (err: Option<SqlError>)
    modifies db
    ensures Reached(ReplaceExperts(old(db.State()), id, experts), err, db.State())
    ensures db.journal == old(db.journal)
  {
    err := db.DeleteCommentsOf(id);
    if err.Some? { return; }
    err := AddExpertsIn(db, id, experts);
  }

  /** The body of the transaction in `updatePodcast`. */
  method RewriteIn(db: Database, id: string, p: ValidPodcast, data: PodcastInput) returns (err: Option<SqlError>)
    modifies db
    ensures Reached(Rewrite(old(db.State()), id, p, data), err, db.State())
    ensures db.journal == old(db.journal)
  {
    err := db.UpdatePodcastRow(id, RowOf(id, p));
    if err.Some? { return; }
    if data.tags.Some? {
      err := ReplaceTagsIn(db, id, p.tags);
      if err.Some? { return; }
    }
    if data.experts.Some? {
      err := ReplaceExpertsIn(db, id, p.experts);
    }
  }

  /** `updatePodcast(id, data)`. */
  method UpdatePodcast(db: Database, id: string, data: PodcastInput) returns (result: Result<Option<Podcast>, Failure>)
    requires db.journal.None?
    requires db.Valid()
    modifies db
    ensures result == Update(old(db.State()), id, data).result
    ensures db.State() == Update(old(db.State()), id, data).db
    ensures db.Valid()
    ensures db.journal.None?
  {
    UpdateConsistent(db.State(), id, data);
    var existing := GetById(db.State(), id);
    if existing.None? { return Err(NotFound(id)); }
    var v := Validate(Merge(existing.value, data));
    if v.Err? { return Err(Invalid(v.error)); }
    var p := v.value;
    db.Begin();
    var err := RewriteIn(db, id, p, data);
    if err.Some? {
      db.Rollback();
      return Err(Sql(err.value));
    }
    db.Commit();
    result := Ok(GetById(db.State(), id));
  }

  /** `deletePodcast(id)`: one statement, no transaction. */
  method DeletePodcast(db: Database, id: string) returns (result: Result<bool, Failure>)
    requires db.Valid()
    modifies db
    ensures result == Delete(old(db.State()), id).result
    ensures db.State() == Delete(old(db.State()), id).db
    ensures db.journal == old(db.journal)
    ensures db.Valid()
  {
    var existing := GetById(db.State(), id);
    if existing.None? { return Err(NotFound(id)); }
    DeleteRemoves(db.State(), id);
    var err := db.DeletePodcastRow(id);
    match err {
      case Some(e) => result := Err(Sql(e));
      case None => result := Ok(true);
    }
  }
}

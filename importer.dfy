/** `importDataFromJson` of app/lib/db/importData.ts: every trending record, then every
    popular record, is handed to `createPodcast`; a record whose create throws is skipped. */
module Importer {
  import opened Wrappers
  import opened Seqs
  import opened Tables
  import opened PodcastSchema
  import opened Repository
  import opened Storage
  import opened PodcastStore

  /** The two podcast lists of the fixture file; its other keys are never read. */
  datatype Feeds = Feeds(trending: seq<PodcastInput>, popular: seq<PodcastInput>)

  /** The object the function resolves to. */
  datatype Summary = Succeeded(trendingCount: nat, popularCount: nat) | Failed(message: string)

  datatype ImportRun = ImportRun(db: Db, summary: Summary)

  /** One iteration of a best-effort loop: the record is created with the id oracle's
      answer for its position; a failed create leaves the store as it was. */
  function CreateStep(freshId: nat -> string): (Db, PodcastInput, nat) -> Db {
    (d: Db, record: PodcastInput, k: nat) => Create(d, record, freshId(k)).db
  }

  /** One best-effort loop over `records`, the first at position `offset`. */
  function Import(db: Db, records: seq<PodcastInput>, freshId: nat -> string, offset: nat): Db {
    FoldAt(db, records, CreateStep(freshId), offset)
  }

  /** The whole import. `feeds` is what reading and parsing the file gave: the parsed lists,
      or the message of the error thrown. */
  function ImportData(db: Db, feeds: Result<Feeds, string>, freshId: nat -> string): (r: ImportRun)
    ensures feeds.Err? ==> r == ImportRun(db, Failed(feeds.error))
    ensures feeds.Ok? ==> r.summary == Succeeded(|feeds.value.trending|, |feeds.value.popular|)
  {
    match feeds
    case Err(message) => ImportRun(db, Failed(message))
    case Ok(f) =>
      var afterTrending := Import(db, f.trending, freshId, 0);
      ImportRun(Import(afterTrending, f.popular, freshId, |f.trending|),
                Succeeded(|f.trending|, |f.popular|))
  }

  /** Importing one more record is one more create. */
  lemma ImportSnoc(start: Db, records: seq<PodcastInput>, freshId: nat -> string, offset: nat, i: nat)
    requires i < |records|
    ensures Import(start, records[..i + 1], freshId, offset)
            == Create(Import(start, records[..i], freshId, offset), records[i], freshId(offset + i)).db
  {
    FoldAtSnoc(start, records, CreateStep(freshId), offset, i);
  }

  lemma ImportDataInOrder(db: Db, f: Feeds, freshId: nat -> string)
    ensures ImportData(db, Ok(f), freshId).db == Import(db, f.trending + f.popular, freshId, 0)
  {
    FoldAtAppend(db, f.trending, f.popular, CreateStep(freshId), 0);
  }

  /** The import keeps every declared constraint. */
  lemma {:induction false} ImportConsistent(db: Db, records: seq<PodcastInput>, freshId: nat -> string, offset: nat)
    requires Consistent(db)
    ensures Consistent(Import(db, records, freshId, offset))
    decreases |records|
  {
    if records != [] {
      CreateConsistent(db, records[0], freshId(offset));
      ImportConsistent(Create(db, records[0], freshId(offset)).db, records[1..], freshId, offset + 1);
    }
  }

  /** A stored podcast is never overwritten: a record that names its id fails on the
      primary key, and every other record leaves it as it was. */
  lemma {:induction false} ImportKeepsStored(db: Db, records: seq<PodcastInput>, freshId: nat -> string, offset: nat, pid: string)
    requires Consistent(db) && pid in PodcastIds(db.podcasts)
    ensures GetById(Import(db, records, freshId, offset), pid) == GetById(db, pid)
    ensures pid in PodcastIds(Import(db, records, freshId, offset).podcasts)
    decreases |records|
  {
    if records != [] {
      var c := Create(db, records[0], freshId(offset));
      CreateConsistent(db, records[0], freshId(offset));
      if c.result.Ok? {
        CreateOkIff(db, records[0], freshId(offset));
        CreateKeepsOthers(db, records[0], freshId(offset), pid);
        var p := Validate(records[0]).value;
        WriteNewKeepsOthers(db, NewId(records[0].id, freshId(offset)), p, pid);
      }
      ImportKeepsStored(c.db, records[1..], freshId, offset + 1, pid);
    }
  }

  /** Importing records whose ids are all stored already changes nothing, and the run
      still reports success with the list lengths. */
  lemma {:induction false} ReimportChangesNothing(db: Db, records: seq<PodcastInput>, freshId: nat -> string, offset: nat)
    requires Consistent(db)
    requires forall i :: 0 <= i < |records| ==>
               records[i].id.Some? && records[i].id.value != "" && records[i].id.value in PodcastIds(db.podcasts)
    ensures Import(db, records, freshId, offset) == db
    decreases |records|
  {
    if records != [] {
      CreateOkIff(db, records[0], freshId(offset));
      ReimportChangesNothing(db, records[1..], freshId, offset + 1);
    }
  }

  /** One of the two best-effort loops: each record goes to `createPodcast` in turn, and a
      create that throws is caught and the loop moves on. */
  method ImportIn(db: Database, records: seq<PodcastInput>, freshId: nat -> string, offset: nat)
    requires db.journal.None?
    requires db.Valid()
    modifies db
    ensures db.State() == Import(old(db.State()), records, freshId, offset)
    ensures db.Valid()
    ensures db.journal.None?
  {
    ghost var start := db.State();
    var i := 0;
    assert records[..i] == [];
    while i < |records|
      invariant 0 <= i <= |records|
      invariant db.State() == Import(start, records[..i], freshId, offset)
      invariant db.journal.None?
      invariant db.Valid()
    {
      ImportSnoc(start, records, freshId, offset, i);
      var _ := CreatePodcast(db, records[i], freshId(offset + i));
      i := i + 1;
    }
    assert records[..i] == records;
  }

  /** `importDataFromJson()`, over the parsed file and the id oracle. */
  method ImportDataFromJson(db: Database, feeds: Result<Feeds, string>, freshId: nat -> string) returns (summary: Summary)
    requires db.journal.None?
    requires db.Valid()
    modifies db
    ensures ImportRun(db.State(), summary) == ImportData(old(db.State()), feeds, freshId)
    ensures db.Valid()
    ensures db.journal.None?
  {
    if feeds.Err? { return Failed(feeds.error); }
    var f := feeds.value;
    ImportIn(db, f.trending, freshId, 0);
    ImportIn(db, f.popular, freshId, |f.trending|);
    summary := Succeeded(|f.trending|, |f.popular|);
  }
}

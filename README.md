# brick_talk podcast store, modelled in Dafny

This project models the persistence core of the brick_talk podcast site and proves
properties of that model. It also models the list views built on that core.

- **The five-table SQLite store** (`app/lib/db/index.ts`). It holds the `podcasts`,
  `tags`, `podcast_tags`, `experts` and `expert_comments` tables and their AUTOINCREMENT
  counters. The declared constraints hold as an invariant (`Tables.Consistent`): primary
  keys, the UNIQUE tag name, and foreign keys with ON DELETE CASCADE. `initDb` creates
  the schema only when no `podcasts` table exists.
- **Every SQL statement the repository runs** is a function from a database value to a
  new value or an error (`Tables`). The connection itself is a class, `Storage.Database`.
  Its fields are the tables, one method runs each statement, and a journal stands for
  `db.transaction(...)`.
- **The podcast schema** (`PodcastSchema`). It covers validation (required non-empty
  strings, the `audio`/`video` enum, non-negative stats, zod's date-time shape), the
  defaults zod fills in, and the key-by-key merge `updatePodcast` performs.
- **The repository** (`Repository`, `PodcastStore`).
  - `getPodcastById` and `getAllPodcasts` rebuild a podcast from its rows.
  - `createPodcast`, `updatePodcast` and `deletePodcast` are specified as functions on the
    database value (`Repository.Create`, `Update`, `Delete`).
  - They are implemented statement by statement on the connection
    (`PodcastStore.CreatePodcast`, `UpdatePodcast`, `DeletePodcast`). These methods loop
    over the tags and experts inside a transaction and roll back on failure. Each is
    proved to end in exactly the state and with exactly the result its specification
    function gives.
- **The seeding loop** `importDataFromJson` (`Importer`). It creates every trending
  record, then every popular record, skips a record whose create throws, and reports the
  sizes of the two lists.
- **The fixture queries** of `app/lib/api.ts` (`Api`): lookup by id, the category filter
  and text search.
- **The two ranking routes** (`Routes`): the ten most viewed podcasts (a stable sort) and
  the six newest.

The proofs cover:
- the round trip: create, then read back what was written;
- that update and delete leave every other podcast exactly as it was read before;
- the exact conditions under which each write succeeds or fails;
- that every write preserves the schema constraints;
- that the seeding loop is a fold of best-effort creates;
- the ordering and top-k properties of the routes.

Modelling choices:
- The uuid generator is a parameter: `freshId`, or a function of the record's position in
  the seeding loop.
- The file read and JSON parse are a parameter: their result, or the error message.
- `toLowerCase` is a per-character map given as a parameter.
- zod's `datetime()` check is the concrete `YYYY-MM-DDTHH:MM:SS[.fff]Z` shape.
- The one storage failure the model names is a missing table.

## Model

| member | source | states |
|---|---|---|
| Text.AtOrBeforeTotal | app/lib/db/podcasts.ts:72 | Any two `publishedAt` strings are ordered one way or the other by SQLite's text comparison, so ORDER BY always has an answer |
| Text.AtOrBeforeTransitive | app/lib/db/podcasts.ts:72 | The text order behind ORDER BY is transitive |
| Tables.CreateTableIfNotExists | app/lib/db/index.ts:29-88 | CREATE TABLE IF NOT EXISTS adds the table to the schema and changes nothing else: every row and counter, of an existing table and of the others, is kept, and so is every constraint |
| Tables.InsertPodcast | app/lib/db/podcasts.ts:186-206 | Inserting a podcast row succeeds exactly when the table exists and the id is not stored (the primary key); it adds exactly that id and keeps the constraints |
| Tables.TagIdOf | app/lib/db/podcasts.ts:213 | The tag-by-name lookup finds an id exactly when some row has the name, and the id found belongs to a row with that name |
| Tables.InsertOrIgnoreTag | app/lib/db/podcasts.ts:210 | Insert-or-ignore of a tag name leaves the database unchanged when the name exists, or else appends one row with the next counter value; afterwards the name is found, and the UNIQUE name constraint still holds |
| Tables.NewTagConsistent | app/lib/db/index.ts:51-56 | Appending a row for an unused name under the next AUTOINCREMENT id keeps the id key, the UNIQUE name and every foreign key |
| Tables.LinkTagByName | app/lib/db/podcasts.ts:211-214 | Linking by tag name appends the link for the name's id; with both tables present it fails exactly when the (podcast, tag) pair is already linked or the podcast is unknown (primary key and foreign key) |
| Tables.InsertExpert | app/lib/db/podcasts.ts:224 | Insert-or-ignore of an expert always appends a new row with the next id, because `experts` has no UNIQUE constraint; it fails only when the table is missing |
| Tables.FindExpert | app/lib/db/podcasts.ts:225 | The expert lookup by name and avatar finds an id exactly when such a row exists, and the row found has that name and avatar |
| Tables.InsertComment | app/lib/db/podcasts.ts:226-229 | Inserting a comment succeeds exactly when the table exists and both foreign keys resolve; it appends one row and changes nothing else |
| Tables.SetColumns | app/lib/db/podcasts.ts:283-315 | The row update rewrites every row with the id to the new columns, keeping the key, and leaves the other rows as they were |
| Tables.SetColumnsKeepsIds | app/lib/db/podcasts.ts:283-315 | The row update changes no id and keeps the primary key distinct |
| Tables.UpdatePodcastRow | app/lib/db/podcasts.ts:283-315 | UPDATE succeeds exactly when the table exists, keeps the set of ids and every other table, and keeps the constraints |
| Tables.WithoutPodcastIds | app/lib/db/podcasts.ts:377 | Deleting the rows with an id removes exactly that id from the stored ids |
| Tables.DeleteLinksOf | app/lib/db/podcasts.ts:320 | Deleting a podcast's tag links keeps exactly the links of other podcasts and touches no other table |
| Tables.DeleteCommentsOf | app/lib/db/podcasts.ts:338 | Deleting a podcast's comments keeps exactly the comments on other podcasts and touches no other table |
| Tables.DeletePodcastRow | app/lib/db/podcasts.ts:377 | Deleting a podcast removes its id and, by ON DELETE CASCADE, exactly its links and comments; `tags` and `experts` keep their rows; the constraints hold |
| Storage.Database.Open | app/lib/db/index.ts:15 | Opening the connection exposes the stored tables as they are, with no transaction open |
| Storage.Database.Begin | app/lib/db/podcasts.ts:184 | Starting a transaction changes no table and saves the state for a rollback |
| Storage.Database.Commit | app/lib/db/podcasts.ts:184-241 | Committing keeps the current tables and closes the transaction |
| Storage.Database.Rollback | app/lib/db/podcasts.ts:184-241 | Rolling back restores the tables saved when the transaction began |
| Storage.Database.CreateTable | app/lib/db/index.ts:29-48 | Running one CREATE TABLE statement leaves exactly the state its function gives |
| Storage.Database.InsertPodcast | app/lib/db/podcasts.ts:186-206 | Running the insert leaves its result, or on failure reports the error and changes nothing |
| Storage.Database.InsertOrIgnoreTag | app/lib/db/podcasts.ts:217 | Running the tag insert leaves its result, or reports the error and changes nothing |
| Storage.Database.LinkTagByName | app/lib/db/podcasts.ts:218 | Running the link insert leaves its result, or reports the error and changes nothing |
| Storage.Database.InsertExpert | app/lib/db/podcasts.ts:232 | Running the expert insert leaves its result, or reports the error and changes nothing |
| Storage.Database.FindExpert | app/lib/db/podcasts.ts:233 | The lookup returns the first stored expert row with that name and avatar, in rowid order |
| Storage.Database.InsertComment | app/lib/db/podcasts.ts:237 | Running the comment insert leaves its result, or reports the error and changes nothing |
| Storage.Database.UpdatePodcastRow | app/lib/db/podcasts.ts:283-315 | Running the UPDATE leaves its result, or reports the error and changes nothing |
| Storage.Database.DeleteLinksOf | app/lib/db/podcasts.ts:320 | Running the link delete leaves its result, or reports the error and changes nothing |
| Storage.Database.DeleteCommentsOf | app/lib/db/podcasts.ts:338 | Running the comment delete leaves its result, or reports the error and changes nothing |
| Storage.Database.DeletePodcastRow | app/lib/db/podcasts.ts:377 | Running the delete leaves its result, or reports the error and changes nothing |
| Storage.Initialized | app/lib/db/index.ts:23-88 | After `initDb` a `podcasts` table exists; when one existed nothing changed, and otherwise all five tables were added; the constraints are kept |
| Storage.InitializedIdempotent | app/lib/db/index.ts:27 | Running `initDb` a second time changes nothing |
| Storage.InitializedFromEmpty | app/lib/db/index.ts:29-88 | On an empty file `initDb` creates exactly the five tables |
| Storage.InitDb | app/lib/db/index.ts:21-92 | The method on the connection leaves exactly the state `Initialized` describes |
| Text.IsDateTime | app/lib/db/podcasts.ts:11 | The shape zod's `datetime()` accepts: `YYYY-MM-DDTHH:MM:SS`, optionally a dot and one or more fraction digits, then `Z`, and no offset |
| PodcastSchema.Violates | app/lib/db/podcasts.ts:6-35 | One rule per path: each required string present and non-empty, `type` one of the enum, `publishedAt` a datetime, `author` present with filled keys, each expert's name and avatar filled, each stat absent or not negative |
| PodcastSchema.Acceptable | app/lib/db/podcasts.ts:6-35 | The conjunction of the schema's rules: what `safeParse` accepts (optional `id`, `tags`, `experts`, `stats` and expert comments may be absent) |
| PodcastSchema.Merge | app/lib/db/podcasts.ts:260-271 | The merged object has every key, nested `author` and `stats` keys included, so validation can only reject it for a value |
| PodcastSchema.MergeTopLevel | app/lib/db/podcasts.ts:260-262 | A top-level key the patch gives wins and one it omits keeps the stored value; `tags` and `experts` are replaced whole, not merged |
| PodcastSchema.MergeNested | app/lib/db/podcasts.ts:263-270 | `author` and `stats` are merged key by key: a partial object keeps the stored values of the keys it omits, and a missing one keeps them all |
| PodcastSchema.ParseKind | app/lib/db/podcasts.ts:10 | The `type` enum accepts exactly "audio" and "video" |
| PodcastSchema.Issues | app/lib/db/podcasts.ts:6-35 | The reported issues are exactly the fields the input violates |
| PodcastSchema.NoIssuesIffAcceptable | app/lib/db/podcasts.ts:6-35 | An input has no issue exactly when the schema accepts it |
| PodcastSchema.NoIssuesAcceptable | app/lib/db/podcasts.ts:6-35 | An input that violates no field is accepted |
| PodcastSchema.AcceptableNoIssues | app/lib/db/podcasts.ts:6-35 | An accepted input has no issue |
| PodcastSchema.Validate | app/lib/db/podcasts.ts:6-35 | Parsing succeeds exactly when the input is acceptable; on failure the issues are exactly the violated fields and there is at least one; on success every field is carried over, missing tags and experts default to [], and missing stats to 0 |
| PodcastSchema.MergeNoChanges | app/lib/db/podcasts.ts:260-271 | Merging an empty patch gives back the stored podcast as input |
| PodcastSchema.MergeCompletePatch | app/lib/db/podcasts.ts:260-271 | A patch that sets every key replaces the stored podcast completely |
| PodcastSchema.WellFormedRevalidates | app/lib/db/podcasts.ts:274 | A stored podcast whose strings obey the schema validates again to its own fields |
| Repository.JoinTagMembers | app/lib/db/podcasts.ts:129-135 | The tag join yields a name exactly when a tag row with that id and name exists |
| Repository.TagNamesOf | app/lib/db/podcasts.ts:129-135 | The tag query: for each link of the podcast, the names of the tags with the link's tag id, links in rowid order |
| Repository.ExpertsOf | app/lib/db/podcasts.ts:137-142 | The expert query: for each comment row of the podcast, the (name, avatar, comment) of the experts with its expert id, comments in rowid order |
| Repository.Assemble | app/lib/db/podcasts.ts:144-165 | The object both getters build: the row's columns, `author` and `stats` regrouped from their columns, and the tag and expert queries' results |
| Repository.TagNamesMembers | app/lib/db/podcasts.ts:129-135 | A podcast's tag list holds a name exactly when one of its links points at a tag row with that name |
| Repository.FindRow | app/lib/db/podcasts.ts:123 | The row lookup finds a row exactly when the id is stored, and the row has that id |
| Repository.GetById | app/lib/db/podcasts.ts:121-170 | `getPodcastById` returns a podcast exactly when the schema is in place and the id is stored, and that podcast has the id; otherwise null |
| Repository.FindRowUnique | app/lib/db/index.ts:31 | Because `id` is the primary key, the lookup finds the one stored row with that id |
| Repository.GetByIdOfRow | app/lib/db/podcasts.ts:144-165 | Every stored row is what `getPodcastById` rebuilds for its id |
| Repository.Insert | app/lib/db/podcasts.ts:72 | One step of the ordering adds exactly the one row |
| Repository.InsertKeepsOrder | app/lib/db/podcasts.ts:72 | Adding a row to a newest-first list keeps it newest first |
| Repository.ByDate | app/lib/db/podcasts.ts:72 | ORDER BY publishedAt DESC gives a permutation of the rows, newest first |
| Repository.ByDateMembers | app/lib/db/podcasts.ts:72 | The ordering keeps exactly the same rows |
| Repository.GetAll | app/lib/db/podcasts.ts:70-118 | `getAllPodcasts` returns one podcast per row, newest first, and [] when a query fails |
| Repository.GetAllMatchesGetById | app/lib/db/podcasts.ts:70-118 | Every podcast `getAllPodcasts` lists is what `getPodcastById` returns for its id |
| Repository.GetAllListsEveryId | app/lib/db/podcasts.ts:70-118 | `getAllPodcasts` lists a podcast for an id exactly when the id is stored |
| Repository.NewId | app/lib/db/podcasts.ts:181 | The record's own id is used when present and non-empty; otherwise a fresh one |
| Repository.Comments | app/lib/db/podcasts.ts:237 | The comment read back for each expert is the one given, or '' when none was given |
| Repository.TagStep | app/lib/db/podcasts.ts:216-219 | One step of the tag loop changes only `tags`, the tag counter and `podcast_tags` |
| Repository.AddTags | app/lib/db/podcasts.ts:216-219 | The tag loop changes only `tags`, the tag counter and `podcast_tags` |
| Repository.ExpertStep | app/lib/db/podcasts.ts:231-239 | One step of the expert loop adds exactly one expert row and changes only the expert and comment tables |
| Repository.AddExperts | app/lib/db/podcasts.ts:231-239 | The expert loop adds one expert row per entry, never deduplicating, and changes only the expert and comment tables |
| Repository.TagStepConsistent | app/lib/db/podcasts.ts:216-219 | A successful tag step keeps every constraint |
| Repository.AddTagsConsistent | app/lib/db/podcasts.ts:216-219 | A successful tag loop keeps every constraint |
| Repository.ExpertStepConsistent | app/lib/db/podcasts.ts:231-239 | A successful expert step keeps every constraint |
| Repository.AddExpertsConsistent | app/lib/db/podcasts.ts:231-239 | A successful expert loop keeps every constraint |
| Repository.NameHasOneId | app/lib/db/index.ts:54 | Because tag names are UNIQUE, a name has only one tag id |
| Repository.InsertTagKeepsNames | app/lib/db/podcasts.ts:217 | Inserting a tag name changes no podcast's tag list |
| Repository.TagStepReadBack | app/lib/db/podcasts.ts:216-219 | One tag step appends the name to this podcast's tag list and leaves every other podcast's list alone |
| Repository.AddTagsReadBack | app/lib/db/podcasts.ts:216-219 | After the tag loop, the podcast's tag list is the old one followed by the given names, in order |
| Repository.AddTagsKeepsOthers | app/lib/db/podcasts.ts:216-219 | The tag loop changes no other podcast's tag list |
| Repository.ExpertStepReadBack | app/lib/db/podcasts.ts:231-239 | One expert step appends (name, avatar, comment or '') to this podcast's experts and leaves the others alone |
| Repository.AddExpertsReadBack | app/lib/db/podcasts.ts:231-239 | After the expert loop, the podcast's experts are the old ones followed by the given ones, with '' for a missing comment |
| Repository.AddExpertsKeepsOthers | app/lib/db/podcasts.ts:231-239 | The expert loop changes no other podcast's experts |
| Repository.TagStepOkIff | app/lib/db/podcasts.ts:216-219 | A tag step fails exactly when the podcast is already linked to that name (the link primary key) |
| Repository.AddTagsOkIff | app/lib/db/podcasts.ts:216-219 | The tag loop succeeds exactly when the names are distinct and none is already linked to the podcast |
| Repository.AddTagsNeedsTables | app/lib/db/podcasts.ts:216-219 | A non-empty tag loop fails when a tag table is missing |
| Repository.AddExpertsOk | app/lib/db/podcasts.ts:231-239 | With the expert tables present and the podcast stored, the expert loop always succeeds |
| Repository.AddExpertsNeedsTables | app/lib/db/podcasts.ts:231-239 | A non-empty expert loop fails when an expert table is missing |
| Repository.WriteNew | app/lib/db/podcasts.ts:184-241 | The create transaction never adds or drops a table |
| Repository.UnusedIdHasNothing | app/lib/db/index.ts:64 | An id that is not stored has no tag links and no comments (foreign keys) |
| Repository.InsertPodcastFacts | app/lib/db/podcasts.ts:186-206 | Inserting the row stores the id with no tags and no experts and changes no other table |
| Repository.WriteNewOkIff | app/lib/db/podcasts.ts:184-241 | The create transaction succeeds exactly when the id is unused, the tables it writes exist, and the tag names are distinct |
| Repository.WriteNewReadBack | app/lib/db/podcasts.ts:184-241 | After the create transaction, the row holds the record, the tags read back in order, the experts read back with '' for a missing comment, one expert row was added per entry, and the constraints hold |
| Repository.FindRowAppendNew | app/lib/db/podcasts.ts:186-206 | A row appended under an unused id is the one the lookup finds |
| Repository.WriteNewKeepsOthers | app/lib/db/podcasts.ts:184-241 | The create transaction changes no other podcast's row, tags or experts |
| Repository.FindRowAppend | app/lib/db/podcasts.ts:186-206 | Appending a row does not change the lookup of another id |
| Repository.Create | app/lib/db/podcasts.ts:173-248 | A failed `createPodcast` changes nothing; it fails on validation exactly when the record is not acceptable, and then reports exactly the violated fields |
| Repository.CreateOkIff | app/lib/db/podcasts.ts:173-248 | `createPodcast` succeeds exactly when the record is valid and the store is writable under the chosen id (the id is unused, distinct tags) |
| Repository.CreateConsistent | app/lib/db/podcasts.ts:173-248 | `createPodcast` keeps every declared constraint |
| Repository.CreateRoundTrip | app/lib/db/podcasts.ts:243 | With the schema in place, `createPodcast` returns exactly the validated record stored under its id, as `getPodcastById` reads it |
| Repository.CreateKeepsOthers | app/lib/db/podcasts.ts:173-248 | `createPodcast` leaves every other podcast as `getPodcastById` saw it |
| Repository.TagIdOfPrefix | app/lib/db/index.ts:51-56 | A tag name stays findable when rows are appended |
| Repository.AddTagsKeepsTagRows | app/lib/db/podcasts.ts:209-220 | The tag loop only appends `tags` rows, and afterwards every given name has one |
| Repository.CreateTagRows | app/lib/db/podcasts.ts:209-220 | After `createPodcast`, every tag name of the record has exactly one row in `tags`, and the rows stored before are kept unchanged |
| Repository.CreateAddsExpertRows | app/lib/db/podcasts.ts:223-240 | `createPodcast` adds one `experts` row per expert entry, even for an expert already stored |
| Repository.ReplaceTags | app/lib/db/podcasts.ts:318-333 | Replacing the tags never adds or drops a table |
| Repository.ReplaceExperts | app/lib/db/podcasts.ts:336-357 | Replacing the experts never adds or drops a table |
| Repository.Rewrite | app/lib/db/podcasts.ts:281-358 | The update transaction never adds or drops a table |
| Repository.Update | app/lib/db/podcasts.ts:251-365 | A failed `updatePodcast` changes nothing; it throws "not found" exactly when `getPodcastById` finds nothing, and fails validation exactly when the merged record is not acceptable |
| Repository.DeleteLinksFacts | app/lib/db/podcasts.ts:320 | Deleting the links empties this podcast's tag list, keeps every other podcast's list, and keeps the constraints |
| Repository.DeleteCommentsFacts | app/lib/db/podcasts.ts:338 | Deleting the comments empties this podcast's experts, keeps every other podcast's, and keeps the constraints |
| Repository.ReplaceTagsOkIff | app/lib/db/podcasts.ts:318-333 | Replacing the tags of a stored podcast succeeds exactly when the new names are distinct |
| Repository.ReplaceTagsReadBack | app/lib/db/podcasts.ts:318-333 | After the replacement the podcast's tags are exactly the new list, other podcasts' tags and all podcast rows and experts are unchanged, and the constraints hold |
| Repository.ReplaceExpertsFacts | app/lib/db/podcasts.ts:336-357 | Replacing the experts of a stored podcast always succeeds; its experts become exactly the new list, other podcasts and the tag tables are unchanged, and the constraints hold |
| Repository.RewriteReadBack | app/lib/db/podcasts.ts:281-358 | After the update transaction the row holds the merged record; tags and experts are replaced only when the patch has them |
| Repository.RewriteKeepsOthers | app/lib/db/podcasts.ts:281-358 | The update transaction changes no other podcast's row, tags or experts |
| Repository.UpdateOkIff | app/lib/db/podcasts.ts:251-365 | For a stored podcast, `updatePodcast` succeeds exactly when the merged record is valid and the patch's tag list, if given, has no duplicates |
| Repository.UpdateConsistent | app/lib/db/podcasts.ts:251-365 | `updatePodcast` keeps every declared constraint |
| Repository.CommentsOfReparsed | app/lib/db/podcasts.ts:260-262 | Experts read back and re-parsed give the same comments |
| Repository.RewriteListsMerged | app/lib/db/podcasts.ts:317-357 | After the update, the podcast's tags and experts are the merged record's: the patch's lists when given, the stored ones otherwise |
| Repository.MergeKeepsLists | app/lib/db/podcasts.ts:260-271 | Lists left out of a patch survive the merge and the validation |
| Repository.UpdateReadBack | app/lib/db/podcasts.ts:360 | `updatePodcast` returns the merged, validated record under the parameter id: the id never changes, and omitted tags and experts read back as before |
| Repository.AssembleRowOf | app/lib/db/podcasts.ts:144-165 | Rebuilding a written row gives back the record written |
| Repository.UpdateKeepsOthers | app/lib/db/podcasts.ts:251-365 | `updatePodcast` leaves every other podcast as `getPodcastById` saw it |
| Repository.GetByIdAgrees | app/lib/db/podcasts.ts:121-170 | Two stores that agree on a podcast's row, tags and experts give the same `getPodcastById` result |
| Repository.StoredReparsed | app/lib/db/podcasts.ts:144-165 | Re-parsing a stored podcast and storing it again gives the same podcast |
| Repository.UpdateNoChanges | app/lib/db/podcasts.ts:251-365 | An empty patch on a well-formed stored podcast succeeds and returns it unchanged |
| Repository.UpdateViews | app/lib/db/podcasts.ts:267-270 | A patch with only `stats.views` changes exactly the view count; likes and shares are kept key by key |
| Repository.Delete | app/lib/db/podcasts.ts:368-384 | `deletePodcast` succeeds, returning true, exactly when `getPodcastById` finds the podcast; otherwise it throws "not found" and changes nothing |
| Repository.DeleteRemoves | app/lib/db/podcasts.ts:377 | After the delete the podcast is gone, its links and comments are removed by cascade, `tags` and `experts` keep their rows, and the constraints hold |
| Repository.DeleteKeepsOthers | app/lib/db/podcasts.ts:368-384 | `deletePodcast` leaves every other podcast as `getPodcastById` saw it |
| PodcastStore.AddTagsIn | app/lib/db/podcasts.ts:216-219 | The loop on the connection ends in the tag loop's state, or stops at the first failing statement with its error |
| PodcastStore.AddExpertsIn | app/lib/db/podcasts.ts:231-239 | The loop on the connection ends in the expert loop's state, or stops at the first failing statement with its error |
| PodcastStore.WriteNewIn | app/lib/db/podcasts.ts:184-241 | The statements of the create transaction end in `WriteNew`'s state, or report its error |
| PodcastStore.CreatePodcast | app/lib/db/podcasts.ts:173-248 | On the connection, `createPodcast` returns exactly `Create`'s result and leaves exactly its state: on any failure the transaction is rolled back; the declared constraints (`Database.Valid`) hold before and after |
| PodcastStore.ReplaceTagsIn | app/lib/db/podcasts.ts:318-333 | The link delete and the tag loop end in `ReplaceTags`'s state, or report its error |
| PodcastStore.ReplaceExpertsIn | app/lib/db/podcasts.ts:336-357 | The comment delete and the expert loop end in `ReplaceExperts`'s state, or report its error |
| PodcastStore.RewriteIn | app/lib/db/podcasts.ts:281-358 | The statements of the update transaction end in `Rewrite`'s state, or report its error |
| PodcastStore.UpdatePodcast | app/lib/db/podcasts.ts:251-365 | On the connection, `updatePodcast` returns exactly `Update`'s result and leaves exactly its state: on any failure the transaction is rolled back; the declared constraints hold before and after |
| PodcastStore.DeletePodcast | app/lib/db/podcasts.ts:368-384 | On the connection, `deletePodcast` returns exactly `Delete`'s result and leaves exactly its state; the declared constraints hold before and after |
| Importer.ImportData | app/lib/db/importData.ts:16-58 | A read or parse failure reports the message and creates nothing; otherwise the summary is success with the two list lengths, whatever each create did |
| Importer.ImportSnoc | app/lib/db/importData.ts:26-33 | Importing one more record is one more `createPodcast`, whose failure leaves the store as it was |
| Importer.ImportDataInOrder | app/lib/db/importData.ts:26-43 | The import is one best-effort loop over the trending records followed by the popular records |
| Importer.ImportConsistent | app/lib/db/importData.ts:26-43 | The import keeps every declared constraint |
| Importer.ImportKeepsStored | app/lib/db/importData.ts:26-43 | The import never changes a podcast that was stored before it |
| Importer.ReimportChangesNothing | app/lib/db/importData.ts:26-43 | Importing records whose ids are all stored already changes nothing |
| Importer.ImportIn | app/lib/db/importData.ts:26-33 | The loop on the connection ends in exactly the state of the best-effort fold of creates, and the declared constraints hold after every create |
| Importer.ImportDataFromJson | app/lib/db/importData.ts:16-58 | On the connection, the import returns `ImportData`'s summary and leaves its state, keeping the declared constraints |
| Api.AllPodcastsSplit | app/lib/api.ts:69 | The combined list is the trending list followed by the popular list, both unchanged |
| Api.FirstWithId | app/lib/api.ts:70 | The search stops at the first podcast with the id, or past the end when there is none |
| Api.PodcastById | app/lib/api.ts:68-71 | `getPodcastById` returns null exactly when no podcast has the id, and otherwise the first podcast in the combined list that has it |
| Api.PodcastByIdPrefersTrending | app/lib/api.ts:68-71 | An id present in the trending list is answered from the trending list |
| Api.PodcastsByCategory | app/lib/api.ts:77-84 | The category filter keeps exactly the podcasts with some tag equal to the slug, ignoring case, each as many times as it occurs in the combined list, in their original order |
| Api.SearchPodcasts | app/lib/api.ts:86-95 | Search keeps exactly the podcasts whose title, description or some tag contains the lowercased query, each as many times as it occurs in the combined list, in their original order |
| Api.SearchEmptyQuery | app/lib/api.ts:88-94 | An empty query returns every podcast |
| Api.CategoryWithinSearch | app/lib/api.ts:79-94 | The category result for a string is a subsequence of the search result for the same string |
| Routes.MostViewedFirst | app/api/popular-podcasts/route.ts:11 | The order the comparator `b.stats.views - a.stats.views` sorts into: views never increase along the list |
| Routes.Insert | app/api/popular-podcasts/route.ts:11 | One insertion step of the sort adds exactly the one podcast |
| Routes.ByViews | app/api/popular-podcasts/route.ts:10-11 | The sort gives a permutation of the list, most viewed first |
| Routes.InsertKeepsOrder | app/api/popular-podcasts/route.ts:11 | Inserting into a list sorted by views keeps it sorted |
| Routes.InsertStable | app/api/popular-podcasts/route.ts:11 | Inserting keeps podcasts with equal views in their input order |
| Routes.ByViewsStable | app/api/popular-podcasts/route.ts:11 | The sort is stable: podcasts with equal views keep their `getAllPodcasts` order |
| Routes.Popular | app/api/popular-podcasts/route.ts:10-12 | The route returns min(10, n) podcasts, most viewed first, as a prefix of the sorted copy |
| Routes.PopularIsTop | app/api/popular-podcasts/route.ts:10-12 | The result is a sub-multiset of the input, and every returned podcast has at least the views of every omitted one |
| Routes.PopularPodcasts | app/api/popular-podcasts/route.ts:4-19 | Over the store, the route returns min(10, number of podcasts), or [] when the read fails |
| Routes.Featured | app/api/featured-podcasts/route.ts:10 | The route returns the prefix of length min(6, n), and the whole list when there are at most 6 |
| Routes.FeaturedPodcasts | app/api/featured-podcasts/route.ts:4-17 | Over the store, the route returns min(6, number of podcasts), each at least as recent as every podcast left out, or [] when the read fails |

## Left out

- Reading the fixture file and parsing its JSON are not modelled. `Importer.ImportData` takes their outcome as a parameter: the parsed lists, or the error message.
- Importer.ImportData: it takes a fixture that has both lists and no null entry. A fixture without `popular_podcasts`, or with a null entry, makes the source throw in the middle of the import (the loop over a missing list at app/lib/db/importData.ts:36, or reading `title` of null in the catch at lines 31 and 41). The outer catch then reports failure, yet the creates already made stay stored. The model's parsed-or-error parameter cannot express that mixed outcome.
- The `uuid` generator is not modelled. It is the parameter `freshId`; the importer passes a function of the record's position, so each create may get its own fresh id.
- Asynchronous execution (`async`/`await`) is not modelled: every operation runs to completion in order. Console logging is not modelled either.
- The SQLite engine itself is not modelled. Each statement is modelled by its effect on the five tables. The only failure modelled is a missing table. Other engine errors (a busy or full database) are not.
- The `created_at` and `updated_at` columns are not modelled: they hold wall-clock timestamps.
- Stats are JavaScript numbers in the source and natural numbers here. A non-integer count falls outside the model. A negative one is rejected by validation, as in the source.
- zod's `datetime()` is modelled by its text shape (digits and separators). Calendar ranges such as month 13 are not checked.
- `toLowerCase` is modelled by a per-character case map given as a parameter. Full Unicode case mapping, which can change a string's length, is not modelled.
- Repository.GetAll: the order of tags and experts inside a podcast is the order of the link and comment rows. SQL does not fix that order, so this is one admissible order, not the only one.
- Repository.CreateRoundTrip, Repository.WriteNewReadBack, Repository.TagStepReadBack, Repository.AddTagsReadBack, Repository.ReplaceTagsReadBack, Repository.RewriteReadBack, Repository.RewriteListsMerged, Repository.UpdateReadBack, Repository.ExpertStepReadBack, Repository.AddExpertsReadBack: they promise the tags and experts read back in the order given, which is the model's rowid order for the link and comment rows. SQLite may instead walk the `podcast_tags` primary-key index and return the tags ordered by tag id. The promise the source can make is order-free: the same names, each as many times. The sequence equality implies it, but the order itself is the model's choice.
- Repository.ByDate: among podcasts with the same `publishedAt` the earlier row comes first. SQL leaves ties unordered, so this too is one admissible order. `Routes.ByViewsStable` and the featured route inherit it.
- PodcastStore.AddTagsIn, PodcastStore.AddExpertsIn, PodcastStore.WriteNewIn, PodcastStore.ReplaceTagsIn, PodcastStore.ReplaceExpertsIn, PodcastStore.RewriteIn: on a failing statement they report the error but do not describe the partial writes left behind. The caller rolls the transaction back, and `CreatePodcast` and `UpdatePodcast` are proved to restore the state.
- Api.TrendingPodcasts, Api.PopularPodcasts: these carry no contract of their own. Each returns its fixture list as it is, and `Api.AllPodcastsSplit` relates both to the combined list.
- `getFeaturedExperts`, `getCategories` and `getExpertById` in app/lib/api.ts are not modelled. They return or search untyped fixture entries (experts and categories) that nothing in the podcast store uses.
- The HTTP handlers, the admin and home pages, the hooks, the middleware and the `publishedAt` rewrite in the podcasts route are not modelled. They are framework glue, rendering or wall-clock code around the operations above.
- The JSON responses of the two ranking routes, including their 500 error path, are not modelled. Only the list computed is. That error path is unreachable through `getAllPodcasts`, which catches storage errors and returns [].

## Where the code and its design description differ

The model follows the code in each case.

- **Experts are never deduplicated.** The design describes an expert as identified by its (name, avatar) pair and created only if absent. The `experts` table has no UNIQUE constraint (app/lib/db/index.ts:70-76), so the code's insert-or-ignore always adds a row. The comment is then linked to the first row with that name and avatar. `Repository.CreateAddsExpertRows` proves one new row per entry. The experts read back are still the ones given.
- **`createPodcast` can return null.** The design says `createPodcast` returns the created podcast. The code returns whatever `getPodcastById` returns. When a table that the read joins is missing but the write did not need it, that read fails, is caught, and yields null. `Repository.GetById` and `Repository.CreateRoundTrip` state this: the round trip holds when all five tables exist.
- **A duplicate tag makes a create fail.** The design treats a podcast's tags as a set. In the code, a tag list that names a tag twice violates the `podcast_tags` primary key (app/lib/db/index.ts:63), and the whole create or update fails and is rolled back (`Repository.WriteNewOkIff`, `Repository.UpdateOkIff`).
- **The patch's `id` is ignored on update.** The merged record takes `id` from the patch as well, but the code writes by the parameter id and never changes the key (`Repository.UpdateReadBack`).

# spirrow-prismind core, modelled in Dafny

spirrow-prismind is an MCP server that keeps a project's working knowledge in
a Google Sheets ledger (a summary sheet, a progress sheet of tasks and a
catalog sheet of documents), mirrors the catalog and project configurations
into a RAG index for search, keeps session state and each user's current
project in a Memory key-value server, and falls back to a local store when
RAG or Memory is unavailable.

This project models the deterministic bookkeeping between the tool surface
and those stores. Every store is a value: the RAG index and the Memory
server are insertion-ordered maps with the semantics of the in-memory
reference implementations the repository's tests use, sheet ranges are
sequences of rows of string cells, and the local fallback maps and the
config file are plain values threaded through the operations. Clock
readings, Drive and Docs results, the random jitter of retries and the
success of every write are parameters. The modules follow the repository:

- `Wrappers`, `Json`, `Dict`, `Seqs`, `Strings`, `StringOrder`, `Clock`:
  Option/Result, JSON-like metadata values, Python dicts in insertion order,
  list and `str` primitives, Python's string order, and the `isoformat`,
  `fromisoformat` and `strftime` renderings of timestamps.
- `RagIndex`, `RagClient`, `MemoryStore`, `MemoryClient`: the RAG collection
  with its where-clause interpreter, word-overlap similarity and searches;
  the RAG client's ids, metadata, filters and post-filters; the Memory store
  and the session and current-project records kept in it.
- `Sheet`, `Summary`, `ProgressModel`, `CatalogModel`, `SessionModel`,
  `ProjectModel`: sheet rows, the templates of a new project's sheets, and the
  task, catalog entry, session and project records with their row and
  dictionary forms.
- `ProjectRegistry`, `ProjectTools`, `DriveSync`: the two-tier project registry
  (RAG plus fallback, Memory plus fallback), registration with its duplicate
  and similarity gates, switching, listing, updating and deleting projects,
  and the reconciliation of the registry with Drive's projects folder.
- `CatalogRepository`, `CatalogTools`: the catalog sheet read, searched,
  updated and archived in place, and the rebuild of a project's catalog
  cache in RAG.
- `PhaseGroups`, `ProgressRepository`, `ProgressRows`, `ProgressTools`:
  progress rows grouped by phase, phase status and current-task selection,
  and the progress tools' status changes, edits, additions and deletions
  with their `blocked_by` clean-up.
- `SessionTools`, `Duration`, `SummaryUpdate`: starting, saving and ending a
  session, the recommended documents, the rendered duration, and the
  summary-sheet update.
- `DocumentTools`, `Keywords`, `GoogleDocs`, `GlobalDocTypes`,
  `KnowledgeTools`: document lookup and update, the catalog row of a new
  document, keyword and tag generation, Docs text extraction and request
  indices, the global document-type store with its local fuzzy match, and
  the knowledge tools.
- `SetupTools`, `AppConfig`, `Retry`: the setup wizard over `config.toml`,
  the configuration defaults and validation, and retry with backoff.

Where the code departs from the project's design description, the model
follows the code: an exact name duplicate blocks registration even with
`force`; a successful registration carries no similar projects; an empty
catalog sheet returns before the project's cache is cleared; session state
has no local fallback; `start_session` reads only stored session state.

## Model

| member | source | states |
|---|---|---|
| Clock.IsoRoundTrip | src/spirrow_prismind/models/session.py:64-72 | `fromisoformat` reads back exactly the instant `isoformat` wrote |
| Clock.DateRoundTrip | src/spirrow_prismind/tools/progress_tools.py:322 | a `%Y-%m-%d` completion date parses back as midnight of the same day |
| Clock.FormatDate | src/spirrow_prismind/models/summary.py:48 | a `%Y-%m-%d` date is always ten characters |
| Clock.FormatMinute | src/spirrow_prismind/models/summary.py:55 | a `%Y-%m-%d %H:%M` stamp is always sixteen characters |
| Clock.IsoFormat | src/spirrow_prismind/models/project.py:85-86 | an `isoformat` stamp is nineteen characters, or twenty-six when the microseconds are not zero |
| Clock.ParseIso | src/spirrow_prismind/models/project.py:102-108 | whatever `fromisoformat` accepts is a valid calendar instant |
| Clock.TimeOrder | src/spirrow_prismind/tools/project_tools.py:665 | on valid instants the microsecond count grows strictly in time order, so sorting by it is sorting by datetime |
| Clock.ElapsedSeconds | src/spirrow_prismind/tools/session_tools.py:604 | `int(total_seconds())` of a difference: the whole seconds elapsed, truncated toward zero in both directions, and the plain difference of second counts when neither instant has microseconds |
| RagIndex.AddDocument | tests/mocks/mock_rag.py:56-78 | adding always succeeds, stores the document at its id with score 0 and leaves every other id alone |
| RagIndex.UpdateDocument | tests/mocks/mock_rag.py:80-111 | succeeds exactly when the id exists; a missing content or metadata keeps the stored one; other ids untouched |
| RagIndex.DeleteDocument | tests/mocks/mock_rag.py:113-134 | succeeds exactly when the id was present; afterwards the id is absent and all other ids are unchanged |
| RagIndex.GetWellFormed | tests/mocks/mock_rag.py:136-145 | a document fetched by id carries that id |
| RagIndex.WhereBasics | tests/mocks/mock_rag.py:166-194 | an empty filter matches everything, an `$eq` clause matches exactly equal string metadata, an empty `$in` matches nothing |
| RagIndex.WhereConcat | tests/mocks/mock_rag.py:166-194 | a list of clauses matches exactly when every clause matches (conjunction) |
| RagIndex.Similarity | tests/mocks/mock_rag.py:151-164 | the score is in [0,1]; 0 for an empty query; positive iff the word sets share a word; 1 iff every query word occurs in the content |
| RagIndex.SortDesc | tests/mocks/mock_rag.py:226 | the sort by score, descending, returns a permutation of its input |
| RagIndex.InsertDesc | tests/mocks/mock_rag.py:226 | inserting into a descending list keeps it descending and adds exactly one element |
| RagIndex.Scored | tests/mocks/mock_rag.py:209-223 | every candidate has a positive score and satisfies the filter |
| RagIndex.Search | tests/mocks/mock_rag.py:196-234 | the result succeeds, is sorted by score descending, holds only positive-score documents matching the filter, is cut at `n_results` and reports its own length |
| RagIndex.Matching | tests/mocks/mock_rag.py:248-255 | metadata-only search keeps only documents that satisfy the filter, each scored 1 |
| RagIndex.MatchingComplete | tests/mocks/mock_rag.py:248-255 | every stored document that satisfies the filter is listed by the uncapped scan |
| RagIndex.SearchByMetadata | tests/mocks/mock_rag.py:236-265 | every returned document matches, at most `n_results` (and at least one slot) are returned, and no more than the matching ones |
| RagClient.EqWhere | src/spirrow_prismind/integrations/rag_client.py:539-541 | a single `{"field": {"$eq": v}}` filter selects exactly the documents whose field is the string `v` |
| RagClient.ProjectMetadata | src/spirrow_prismind/integrations/rag_client.py:511-518 | a project document carries the five fixed keys plus the caller's config keys, and the caller's values win over the fixed ones |
| RagClient.SaveProjectConfig | src/spirrow_prismind/integrations/rag_client.py:490-520 | saving always succeeds, the config is then found under `project:{id}`, and every other document is untouched |
| RagClient.DeleteProjectConfig | src/spirrow_prismind/integrations/rag_client.py:589-598 | deleting succeeds exactly when the config existed; afterwards it is gone and nothing else changed |
| RagClient.ListProjects | src/spirrow_prismind/integrations/rag_client.py:533-544 | at most 100 documents, every one of type `project_config` |
| RagClient.FindSimilarProjects | src/spirrow_prismind/integrations/rag_client.py:546-587 | at most 10 project configs, each scoring at least the threshold, none of them the excluded project |
| RagClient.AddKnowledge | src/spirrow_prismind/integrations/rag_client.py:604-635 | the entry is stored under `knowledge:{stamp}` with its content, category, tag list and project (empty for general) |
| RagClient.KnowledgeMetadata | src/spirrow_prismind/integrations/rag_client.py:626-633 | the stored metadata has type knowledge, the category, the tag list, the project (empty for general), the source and the `isoformat` creation time |
| RagClient.ProjectOrGeneralMeaning | src/spirrow_prismind/integrations/rag_client.py:662-667 | the `$or` clause admits exactly this project's and the general (empty-project) entries |
| RagClient.KnowledgeWhereMeaning | src/spirrow_prismind/integrations/rag_client.py:657-667 | the knowledge filter holds iff the type is knowledge, the category matches when given, and the project is this one or general when given |
| RagClient.KnowledgeWhere | src/spirrow_prismind/integrations/rag_client.py:657-667 | the built filter has exactly that meaning |
| RagClient.TagFilter | src/spirrow_prismind/integrations/rag_client.py:682-692 | keeps, in order, the first `n` documents carrying every requested tag, and only documents of the input |
| RagClient.SearchKnowledge | src/spirrow_prismind/integrations/rag_client.py:637-694 | every hit satisfies the knowledge filter and carries all requested tags; at most `n` hits; the count equals the list length |
| RagClient.CatalogMetadata | src/spirrow_prismind/integrations/rag_client.py:725-734 | a catalog document carries the seven fixed keys plus the caller's, and the caller's values win |
| RagClient.AddCatalogEntry | src/spirrow_prismind/integrations/rag_client.py:700-736 | always succeeds and stores the entry under `catalog:{project}:{doc_id}`, leaving every other id alone |
| RagClient.CatalogWhereMeaning | src/spirrow_prismind/integrations/rag_client.py:758-767 | the catalog filter holds iff the type is catalog and each supplied project, doc type and phase-task matches |
| RagClient.CatalogWhere | src/spirrow_prismind/integrations/rag_client.py:758-767 | the built filter has exactly that meaning |
| RagClient.SearchCatalog | src/spirrow_prismind/integrations/rag_client.py:738-773 | every hit is a catalog entry satisfying each supplied filter; at most `n` hits |
| RagClient.DeleteAll | src/spirrow_prismind/integrations/rag_client.py:792-797 | every listed id is gone, every other id unchanged, and the count never exceeds the number of ids |
| RagClient.ProjectCatalogWhereMeaning | src/spirrow_prismind/integrations/rag_client.py:784-790 | the delete filter selects exactly the catalog entries of the project |
| RagClient.DeleteCatalogEntriesByProject | src/spirrow_prismind/integrations/rag_client.py:775-797 | at most 1000 deletes, no more than the matching entries; every document is either removed or unchanged |
| RagClient.DeleteCatalogEntriesEffect | src/spirrow_prismind/integrations/rag_client.py:775-797 | non-matching documents survive unchanged, and with at most 1000 matches no entry of the project remains |
| RagClient.MatchingMember | tests/mocks/mock_rag.py:246-255 | every listed document is one of the stored documents, with its id |
| Sheet.PadTo | src/spirrow_prismind/tools/progress_tools.py:313-314 | the padded row keeps its cells, is at least `n` long, and every added cell is empty |
| Sheet.ReadRows | src/spirrow_prismind/repositories/catalog_repository.py:72 | one record per non-empty row and none from an empty row, in row order |
| Sheet.ReadRowsAppend | src/spirrow_prismind/repositories/catalog_repository.py:72 | reading a sheet with one more non-empty row yields one more record at the end |
| Sheet.FindRowFrom | src/spirrow_prismind/integrations/google_sheets.py:255-277 | returns the first row holding the value in the column, and nothing exactly when no row does |
| Sheet.Overwrite | src/spirrow_prismind/integrations/google_sheets.py:279-300 | writing cells over a row replaces the first cells and keeps any cells beyond them |
| CatalogModel.ToSheetRow | src/spirrow_prismind/models/catalog.py:31-47 | one cell per catalog header, with name, id, project and status in their columns |
| CatalogModel.FromSheetRow | src/spirrow_prismind/models/catalog.py:50-79 | missing columns read as defaults (status "active"); list cells read as trimmed non-empty items |
| CatalogModel.UpdatedAt | src/spirrow_prismind/models/catalog.py:56-63 | an empty or malformed date falls back to the current time, otherwise a valid instant |
| CatalogModel.CatalogRowRoundTrip | src/spirrow_prismind/models/catalog.py:31-79 | an entry with trimmed, comma-free list items reads back unchanged from its own row |
| CatalogModel.ListRead | src/spirrow_prismind/models/catalog.py:74-75 | a list joined with "," splits back into the same items |
| CatalogModel.DateRead | src/spirrow_prismind/models/catalog.py:44 | an `isoformat` date cell reads back as the same instant |
| CatalogModel.RagIdsDiffer | src/spirrow_prismind/models/catalog.py:84 | the entry's own RAG id (`catalog:{doc_id}`) never equals the project-scoped id the RAG client writes |
| ProgressModel.Tasks | src/spirrow_prismind/repositories/progress_repository.py:92-107 | one task per row, each read by `task_from_sheet_row` |
| ProgressModel.CompletedAt | src/spirrow_prismind/models/progress.py:79-86 | an empty or malformed completion cell gives no date; otherwise a valid instant |
| ProgressModel.TaskFromSheetRow | src/spirrow_prismind/models/progress.py:73-98 | a short row is not started; blockers are trimmed non-empty items; a completion date is valid |
| ProgressModel.TaskToSheetRow | src/spirrow_prismind/models/progress.py:101-111 | one cell per progress header, with phase, task id and status in their columns |
| ProgressModel.TaskRowRoundTrip | src/spirrow_prismind/models/progress.py:73-111 | a task with trimmed, comma-free blockers reads back unchanged from its own row |
| ProgressModel.CompletedRead | src/spirrow_prismind/models/progress.py:79-86 | an `isoformat` completion date, or its absence, reads back unchanged |
| MemoryStore.Set | tests/mocks/mock_memory.py:58-80 | the key then holds the value with a fresh update stamp, keeps its first creation stamp, and no other key changes |
| MemoryStore.Delete | tests/mocks/mock_memory.py:82-96 | always reports success; the key is then absent and no other key changes |
| MemoryStore.ListKeys | tests/mocks/mock_memory.py:98-102 | lists exactly the stored keys with the prefix, or all keys for an empty prefix |
| CatalogModel.ToRagDocument | src/spirrow_prismind/models/catalog.py:81-98 | the document id is `catalog:{doc_id}`, the metadata holds exactly the ten catalog fields, and each reads back as the entry's value, keywords as the same list |
| MemoryClient.ToDict | src/spirrow_prismind/integrations/memory_client.py:45-47 | `asdict` yields exactly the ten session fields |
| MemoryClient.FromDict | src/spirrow_prismind/integrations/memory_client.py:50-63 | each missing field takes its default (empty text, empty blocker list) |
| MemoryClient.SessionRoundTrip | src/spirrow_prismind/integrations/memory_client.py:45-63 | a session decodes back from its own dictionary |
| MemoryClient.SessionDefaults | src/spirrow_prismind/integrations/memory_client.py:50-63 | the empty dictionary decodes to the all-defaults session |
| MemoryClient.CurrentToDict | src/spirrow_prismind/integrations/memory_client.py:72-74 | the current-project record has exactly its two fields |
| MemoryClient.CurrentFromDict | src/spirrow_prismind/integrations/memory_client.py:76-81 | a missing project id reads as empty |
| MemoryClient.CurrentRoundTrip | src/spirrow_prismind/integrations/memory_client.py:66-81 | a current-project record decodes back from its own dictionary |
| MemoryClient.SessionKey | src/spirrow_prismind/integrations/memory_client.py:299-301 | a session key starts with `prismind:session:` and ends with `:{user}` |
| MemoryClient.CurrentProjectKey | src/spirrow_prismind/integrations/memory_client.py:363-365 | the current-project key is `prismind:current_project:` followed by exactly the user |
| MemoryClient.KeySchemesDisjoint | src/spirrow_prismind/integrations/memory_client.py:299-365 | no session key ever equals a current-project key |
| MemoryClient.GetSessionState | src/spirrow_prismind/integrations/memory_client.py:303-323 | nothing is returned exactly when the key is missing or holds `None`; otherwise the decoded value |
| MemoryClient.SaveSessionState | src/spirrow_prismind/integrations/memory_client.py:325-340 | a later read returns the saved state with the save time as `updated_at`; no other key changes |
| MemoryClient.GetCurrentProject | src/spirrow_prismind/integrations/memory_client.py:367-382 | nothing is returned exactly when the key is missing or holds `None` |
| MemoryClient.SetCurrentProject | src/spirrow_prismind/integrations/memory_client.py:384-404 | a later read returns the project and the switch time; no other key changes |
| MemoryClient.ClearCurrentProject | src/spirrow_prismind/integrations/memory_client.py:406-416 | a later read finds nothing; no other key changes |
| MemoryClient.UserSessionKeys | src/spirrow_prismind/integrations/memory_client.py:459-465 | the keys read are exactly the stored session keys ending in `:{user}` |
| MemoryClient.SessionsForUserSuffixClash | src/spirrow_prismind/integrations/memory_client.py:459-470 | as written, user "c" receives the session stored for user "b:c" |
| MemoryClient.ClashKeys | src/spirrow_prismind/integrations/memory_client.py:462-465 | the key of user "b:c" in project "a" passes the suffix test for user "c" |
| MemoryClient.SessionsForUserAsWritten | src/spirrow_prismind/integrations/memory_client.py:459-470 | as written: exactly the sessions stored under a session key ending in `:{user}` |
| MemoryClient.SessionsForUser | src/spirrow_prismind/integrations/memory_client.py:445-470 | corrected: every returned session belongs to the requested user and is one the original scan returns; every such session of the scan, and the user's session of every project, is returned |
| SessionModel.ToDict | src/spirrow_prismind/models/session.py:52-65 | exactly the ten session fields, the date in `isoformat` |
| SessionModel.FromDict | src/spirrow_prismind/models/session.py:68-87 | a missing date becomes now; every field reads its entry or its default; a malformed date fails |
| SessionModel.SessionRoundTrip | src/spirrow_prismind/models/session.py:52-87 | a session decodes back from its own dictionary |
| Summary.SummaryTemplate | src/spirrow_prismind/models/summary.py:24-56 | eleven label/value rows: name, description and creator in place, Phase 1 with 0 of 1 tasks done |
| Summary.SummaryDatesAgree | src/spirrow_prismind/models/summary.py:48-55 | the start-date cell is the date prefix of the last-updated cell |
| Summary.ProgressTemplate | src/spirrow_prismind/models/summary.py:59-76 | the progress headers then one not-started task row of full width |
| Summary.InitialTaskReads | src/spirrow_prismind/models/summary.py:60-62 | the initial task row reads as task T01, not started, no blockers, no completion |
| Summary.CatalogTemplate | src/spirrow_prismind/models/summary.py:79-89 | the catalog sheet starts with the header row alone |
| ProjectModel.ToRagDocument | src/spirrow_prismind/models/project.py:56-88 | the document id is `project:{id}` and the metadata holds exactly the fixed fields and the four nested sections |
| ProjectModel.Section | src/spirrow_prismind/models/project.py:95-98 | a missing section reads as an empty table; a present one must be a table |
| ProjectModel.Timestamp | src/spirrow_prismind/models/project.py:100-110 | a missing or non-text stamp becomes now; a text stamp must parse as a valid instant |
| ProjectModel.FromRagDocument | src/spirrow_prismind/models/project.py:91-137 | each field reads its metadata entry or its default; a missing section gives the default sub-record |
| ProjectModel.ProjectRoundTrip | src/spirrow_prismind/models/project.py:56-137 | a project config decodes back from the metadata it writes |
| ProjectModel.SectionsDecode | src/spirrow_prismind/models/project.py:68-134 | each nested section reads back as the sub-record it was written from |
| ProjectModel.TimestampsRead | src/spirrow_prismind/models/project.py:85-110 | both stamps read back as the instants written |
| ProjectModel.ProjectDefaults | src/spirrow_prismind/models/project.py:112-134 | metadata without sections decodes with the Japanese sheet and folder names and both options on |
| ProjectModel.Trunc | src/spirrow_prismind/models/project.py:160 | `int()` of a float truncates toward zero |
| ProjectModel.SimilarityPercent | src/spirrow_prismind/models/project.py:157-160 | a similarity in [0,1] gives a percentage in [0,100], the floor of `similarity*100` |
| CatalogRepository.DataRows | src/spirrow_prismind/repositories/catalog_repository.py:69-71 | the `A2:M` range is every row below the header, in order |
| CatalogRepository.FirstWithId | src/spirrow_prismind/repositories/catalog_repository.py:74-87 | returns the first entry with the id, and nothing exactly when no entry has it |
| CatalogRepository.ReadOverwritten | src/spirrow_prismind/repositories/catalog_repository.py:129-134 | an entry written over any row reads back unchanged |
| CatalogRepository.UpdateEntryAsWritten | src/spirrow_prismind/repositories/catalog_repository.py:108-135 | as written: fails exactly when no row of the whole sheet, header included, holds the id in column C |
| CatalogRepository.DataRowOf | src/spirrow_prismind/repositories/catalog_repository.py:118-123 | the first data row (below the header) holding the id in column C, and nothing exactly when there is none |
| CatalogRepository.UpdateEntry | src/spirrow_prismind/repositories/catalog_repository.py:108-135 | corrected: fails exactly when no data row holds the id; otherwise only the first such row is rewritten and the header is kept |
| CatalogRepository.HeaderOverwritten | src/spirrow_prismind/repositories/catalog_repository.py:118-134 | as written, an entry whose id is the header label "ID" overwrites the header row and leaves the data row alone; the corrected update keeps the header |
| CatalogRepository.AddEntry | src/spirrow_prismind/repositories/catalog_repository.py:89-106 | the entry's row is appended after the last row; earlier rows are untouched |
| CatalogRepository.AddedEntryListed | src/spirrow_prismind/repositories/catalog_repository.py:63-106 | after an add, the entry list is the old list with the entry appended |
| CatalogRepository.AddedEntryFound | src/spirrow_prismind/repositories/catalog_repository.py:74-106 | after adding an entry with a new id, a lookup of that id returns the entry |
| CatalogRepository.FirstEntryIsFirstRow | src/spirrow_prismind/repositories/catalog_repository.py:74-123 | the entry found by id is the one read from the first data row holding that id |
| CatalogRepository.Archive | src/spirrow_prismind/repositories/catalog_repository.py:217-219 | corrected: the archiving update fails exactly when no data row holds the id; otherwise it rewrites only that row |
| CatalogRepository.KeyCells | src/spirrow_prismind/repositories/catalog_repository.py:129-134 | the row an update writes carries the entry's id and status |
| CatalogRepository.DeleteEntry | src/spirrow_prismind/repositories/catalog_repository.py:204-219 | deleting an unknown id fails; a delete rewrites only the first data row with the id and keeps the header |
| CatalogRepository.DeleteEntryAsWritten | src/spirrow_prismind/repositories/catalog_repository.py:204-219 | as written: an unknown id fails; otherwise the first row of the whole sheet holding the id in column C, header included, gets status archived and no other row changes |
| CatalogRepository.DeleteOverwritesHeader | src/spirrow_prismind/repositories/catalog_repository.py:204-219 | as written, deleting an entry whose id is the header label "ID" overwrites the header row and leaves the data row alone; the corrected delete keeps the header |
| CatalogRepository.DeletedEntryArchived | src/spirrow_prismind/repositories/catalog_repository.py:204-219 | after a delete, looking up the id finds the entry with status "archived" |
| CatalogRepository.FoundArchived | src/spirrow_prismind/repositories/catalog_repository.py:213-219 | the archived row is the one the lookup then finds |
| CatalogRepository.Search | src/spirrow_prismind/repositories/catalog_repository.py:137-202 | the results are, in sheet order, the first `limit` entries passing every filter (keywords case-insensitively, any match); the count is the list length |
| CatalogTools.StartRow | src/spirrow_prismind/tools/catalog_tools.py:204-207 | the first row is skipped exactly when its first cell is one of the three header names |
| CatalogTools.ParseRow | src/spirrow_prismind/tools/catalog_tools.py:221-242 | cells are read by column with status defaulting to "active"; list cells give trimmed non-empty items |
| CatalogTools.ParsedRows | src/spirrow_prismind/tools/catalog_tools.py:215-236 | only rows with four cells, a name and an id are kept, parsed, in sheet order |
| CatalogTools.RowMetadata | src/spirrow_prismind/tools/catalog_tools.py:251-260 | the extra metadata carries the status and the row's date but never the type, project or id keys |
| CatalogTools.RowDoc | src/spirrow_prismind/tools/catalog_tools.py:245-261 | a cached row is filed under the sync's project (not the row's column E) and matches that project's catalog filter |
| CatalogTools.RowStored | src/spirrow_prismind/tools/catalog_tools.py:245-261 | caching a row stores exactly its document and leaves every other id alone |
| CatalogTools.SyncRows | src/spirrow_prismind/tools/catalog_tools.py:213-263 | every accepted row is cached and counted |
| CatalogTools.SyncCatalog | src/spirrow_prismind/tools/catalog_tools.py:152-269 | no project or no config fails with nothing changed; an empty sheet succeeds with nothing changed, before any clear; otherwise the cache is cleared and rebuilt and the count is the number of accepted rows |
| CatalogTools.LastRowDoc | src/spirrow_prismind/tools/catalog_tools.py:213-263 | the document a cache id ends up with is the last accepted row with that id, and none when no row has it |
| CatalogTools.SyncRowsEffect | src/spirrow_prismind/tools/catalog_tools.py:213-263 | after the add loop a cache id holds the last row's document, or what it held before when no row has it |
| CatalogTools.Scoped | src/spirrow_prismind/tools/catalog_tools.py:209-263 | the project-scoped view lists exactly the cached entries of the project |
| CatalogTools.SyncRebuilds | src/spirrow_prismind/tools/catalog_tools.py:209-263 | with at most 1000 cached entries, after a sync the project's cache holds exactly the last accepted row per id |
| CatalogTools.SyncOver | src/spirrow_prismind/tools/catalog_tools.py:209-263 | in any store, a sync leaves each id with the sheet's document, or nothing, or what was there when the sheet lacks it |
| CatalogTools.SyncIdempotent | src/spirrow_prismind/tools/catalog_tools.py:152-269 | syncing an unchanged sheet again, at any time, leaves the project's cached entries as the first sync left them |
| CatalogTools.EmptySheetKeepsCache | src/spirrow_prismind/tools/catalog_tools.py:197-202 | an empty sheet succeeds with count 0 and leaves the cache, the project's entries included, as it was |
| CatalogTools.Candidates | src/spirrow_prismind/tools/catalog_tools.py:71-95 | semantic or metadata-only search returns only catalog entries satisfying the project, doc type and phase-task filters |
| CatalogTools.EntryOf | src/spirrow_prismind/tools/catalog_tools.py:122-140 | an entry read from metadata has no related docs or creator and is active |
| CatalogTools.Hits | src/spirrow_prismind/tools/catalog_tools.py:105-143 | the first `limit` candidates passing the feature, timing and status post-filters, in candidate order |
| CatalogTools.Entries | src/spirrow_prismind/tools/catalog_tools.py:129-140 | one entry per hit, in order |
| CatalogTools.SearchCatalogTool | src/spirrow_prismind/tools/catalog_tools.py:45-150 | succeeds with at most `limit` entries, each read from a hit, and the count equal to the list length |
| CatalogTools.HitEntries | src/spirrow_prismind/tools/catalog_tools.py:71-140 | every returned entry carries each requested project, doc type, phase-task, feature and timing |
| CatalogTools.EntryFields | src/spirrow_prismind/tools/catalog_tools.py:129-140 | a text metadata value is exactly what the entry's field reads |
| ProjectRegistry.ProjectDocIdInjective | src/spirrow_prismind/integrations/rag_client.py:508 | two projects never share a document id |
| ProjectRegistry.FallbackGet | src/spirrow_prismind/tools/project_tools.py:134-142 | the local lookup finds a record exactly when one is stored and non-empty, presented as `project:{id}` |
| ProjectRegistry.GetConfig | src/spirrow_prismind/tools/project_tools.py:119-142 | RAG is asked first when up; a RAG miss falls through to the local record; nothing only when both miss |
| ProjectRegistry.FallbackRecord | src/spirrow_prismind/tools/project_tools.py:186-192 | the local record holds the caller's config keys with their values, the name when not overridden, and no type key |
| ProjectRegistry.SaveConfig | src/spirrow_prismind/tools/project_tools.py:144-201 | a save always succeeds and is read back from the tier that took it, touches no other project, and warns exactly when RAG is not up |
| ProjectRegistry.RagStored | src/spirrow_prismind/integrations/rag_client.py:508-520 | what RAG stores carries the project id, name, description and config data |
| ProjectRegistry.FallbackStored | src/spirrow_prismind/tools/project_tools.py:186-192 | what the local store keeps carries the project id, name, description and config data |
| ProjectRegistry.SaveFrame | src/spirrow_prismind/tools/project_tools.py:144-201 | saving one project leaves every other project's RAG config unchanged |
| ProjectRegistry.DeleteConfig | src/spirrow_prismind/tools/project_tools.py:235-258 | afterwards neither tier holds the project, no other project changes, and the result says whether either tier held it |
| ProjectRegistry.RagListed | src/spirrow_prismind/tools/project_tools.py:212-222 | an unavailable RAG lists nothing |
| ProjectRegistry.FallbackListed | src/spirrow_prismind/tools/project_tools.py:224-231 | exactly the local records whose id RAG did not list, in local order |
| ProjectRegistry.ListConfigs | src/spirrow_prismind/tools/project_tools.py:203-233 | the RAG list first, then the local records RAG did not list |
| ProjectRegistry.ListNoRepeats | src/spirrow_prismind/tools/project_tools.py:203-233 | with distinct RAG ids, no project id is listed twice |
| ProjectRegistry.GetCurrent | src/spirrow_prismind/tools/project_tools.py:260-275 | with the Memory server down the local record answers; a Memory answer wins only when it names a project |
| ProjectRegistry.SetCurrent | src/spirrow_prismind/tools/project_tools.py:277-297 | the project becomes current for the user in both tiers and no other user's current project changes |
| ProjectRegistry.OtherUsersKept | src/spirrow_prismind/tools/project_tools.py:277-297 | setting one user's project keeps every other user's |
| ProjectTools.ResolveIds | src/spirrow_prismind/tools/project_tools.py:333-375 | given ids are kept; exactly one given id fails; none given needs the projects folder and auto-creates both |
| ProjectTools.FirstNamed | src/spirrow_prismind/tools/project_tools.py:390-394 | the first listed project with the name, and none exactly when no project has it |
| ProjectTools.NameClash | src/spirrow_prismind/tools/project_tools.py:388-394 | a reported clash is the id of a project with that name; no project with the name means no clash |
| ProjectTools.SimilarDocs | src/spirrow_prismind/tools/project_tools.py:405-413 | no search when RAG is down or name and description are both empty; every hit reaches the threshold and is not the project itself |
| ProjectTools.Similar | src/spirrow_prismind/tools/project_tools.py:415-421 | one similar-project entry per hit, carrying its id, name, description and score |
| ProjectTools.NewConfigData | src/spirrow_prismind/tools/project_tools.py:449-466 | the new project's data holds both ids and none of the keys the save adds itself |
| ProjectTools.SetupProject | src/spirrow_prismind/tools/project_tools.py:301-580 | failures change nothing; an existing id, then a duplicate name (even with force), then similar projects without force, each block with its own flag; success exactly when ids resolve and every gate passes, and then the config exists and the project is current |
| ProjectTools.SetupWarnings | src/spirrow_prismind/models/project.py:181-183 | a registration result has warnings exactly when the duplicate-name gate or the similarity gate stopped it, so a successful registration never has warnings |
| ProjectTools.SetupThenConfig | src/spirrow_prismind/tools/project_tools.py:439-473 | after a successful setup `get_project_config` returns the given name, description and ids with default sheets, folders and options (also lines 863-891 of the same file) |
| ProjectTools.StoredConfigRead | src/spirrow_prismind/tools/project_tools.py:439-466 | the stored metadata of a new project, from either tier, decodes to those values |
| ProjectTools.DefaultsDecode | src/spirrow_prismind/tools/project_tools.py:452-464 | the nested sections written for a new project read back as the default settings |
| ProjectTools.NewConfigSections | src/spirrow_prismind/tools/project_tools.py:452-464 | the sheets, drive and options sections are the defaults and there is no docs section |
| ProjectTools.NewConfigStamps | src/spirrow_prismind/tools/project_tools.py:465 | both stored stamps read back as the creation time (also line 190 of the same file) |
| ProjectTools.NewConfigScalars | src/spirrow_prismind/tools/project_tools.py:449-451 | id, name, description and both Google ids read back as given (also lines 186-191 of the same file) |
| ProjectTools.SwitchProject | src/spirrow_prismind/tools/project_tools.py:582-625 | an unknown project fails with nothing changed; a known one becomes the user's current project, no other user's changes and no config changes |
| ProjectTools.SwitchThenCurrent | src/spirrow_prismind/tools/project_tools.py:582-625 | after a successful switch the user's current project id is that project (also lines 893-906 of the same file) |
| ProjectTools.Summarize | src/spirrow_prismind/tools/project_tools.py:645-662 | a summary carries the listed project's id |
| ProjectTools.InsertNewest | src/spirrow_prismind/tools/project_tools.py:665 | inserting keeps a newest-first list newest first and adds exactly one element |
| ProjectTools.SortNewest | src/spirrow_prismind/tools/project_tools.py:665 | the sort by `updated_at` descending is a newest-first permutation that keeps summaries with equal stamps in their original order |
| ProjectTools.InsertNewestStable | src/spirrow_prismind/tools/project_tools.py:665 | inserting a summary after every summary at least as new appends it to the summaries sharing its stamp and moves no other |
| ProjectTools.Summaries | src/spirrow_prismind/tools/project_tools.py:644-662 | one summary per listed document, in order |
| ProjectTools.ListProjects | src/spirrow_prismind/tools/project_tools.py:627-680 | succeeds with a newest-first permutation of every listed project, and the user's current project or "" |
| ProjectTools.Supplied | src/spirrow_prismind/tools/project_tools.py:724-755 | the eight updatable fields, each with its supplied value or none |
| ProjectTools.ChangedFields | src/spirrow_prismind/tools/project_tools.py:720-755 | a field is reported iff it was supplied and differs from the stored value, and only the eight fields are reported |
| ProjectTools.DistinctNames | src/spirrow_prismind/tools/project_tools.py:720-755 | every reported name belongs to a changed field |
| ProjectTools.FieldNameUnique | src/spirrow_prismind/tools/project_tools.py:724-755 | no two updatable fields share a name |
| ProjectTools.Kept | src/spirrow_prismind/tools/project_tools.py:724-755 | a supplied value wins; otherwise the stored value is kept |
| ProjectTools.UpdatedConfigData | src/spirrow_prismind/tools/project_tools.py:766-778 | the saved data never carries name or description, which the save adds itself |
| ProjectTools.UpdatedConfigField | src/spirrow_prismind/tools/project_tools.py:766-778 | each of the six data fields holds the supplied value or, if none, the stored one |
| ProjectTools.UpdatedConfigCarries | src/spirrow_prismind/tools/project_tools.py:769-772 | sheets, drive, options and the creation stamp are carried over from the stored config |
| ProjectTools.UpdateProject | src/spirrow_prismind/tools/project_tools.py:682-804 | an unknown project fails unchanged; otherwise succeeds reporting exactly the changed fields; nothing saved when nothing changed; other projects untouched |
| ProjectTools.UpdateStores | src/spirrow_prismind/tools/project_tools.py:765-785 | after a saving update each supplied field holds its new value and each omitted field its old value |
| ProjectTools.UpdateStoresName | src/spirrow_prismind/tools/project_tools.py:724-785 | the name follows the same rule |
| ProjectTools.DeleteProject | src/spirrow_prismind/tools/project_tools.py:806-861 | without confirm or for an unknown project nothing changes; otherwise the config is gone and at most 1000 catalog entries are removed |
| ProjectTools.ConfigFor | src/spirrow_prismind/tools/project_tools.py:885-891 | the stored configuration decoded as a record, or none |
| ProjectTools.GetProjectConfig | src/spirrow_prismind/tools/project_tools.py:863-891 | an explicit project is looked up directly; otherwise the user's current project, or none |
| ProjectTools.GetCurrentProjectId | src/spirrow_prismind/tools/project_tools.py:893-906 | with the Memory server down the local record answers for the user (default user when none given) |
| ProjectTools.ResolveProject | src/spirrow_prismind/tools/project_tools.py:863-883 | an explicit project wins; otherwise the current one |
| StringOrder.SortedSet | src/spirrow_prismind/tools/project_tools.py:981-983 | `sorted` of a set of ids is strictly ascending in code-point order and holds exactly the ids of the set |
| StringOrder.Insert | src/spirrow_prismind/tools/project_tools.py:981-983 | inserting an id into an ascending list keeps it ascending and adds exactly that id |
| StringOrder.Total | src/spirrow_prismind/tools/project_tools.py:981-983 | Python's string comparison orders any two distinct strings one way or the other |
| StringOrder.Transitive | src/spirrow_prismind/tools/project_tools.py:981-983 | Python's string comparison is transitive |
| StringOrder.AscendingUnique | src/spirrow_prismind/tools/project_tools.py:981-983 | two ascending lists with the same members are equal, so the sorted difference is determined by the sets alone |
| DriveSync.FirstSpreadsheet | src/spirrow_prismind/tools/project_tools.py:1077-1082 | the first file of a folder whose MIME type is the Google Sheets type, and none exactly when no file has it |
| DriveSync.FindSpreadsheet | src/spirrow_prismind/tools/project_tools.py:1066-1084 | a found spreadsheet is a file of that folder with the spreadsheet MIME type; an unlisted folder yields none |
| DriveSync.Entry | src/spirrow_prismind/tools/project_tools.py:936-945 | a subfolder becomes a Drive project exactly when it holds a spreadsheet, carrying the folder's id |
| DriveSync.Owner | src/spirrow_prismind/tools/project_tools.py:936-945 | the folder that owns a name is the last subfolder of that name holding a spreadsheet |
| DriveSync.DriveProjects | src/spirrow_prismind/tools/project_tools.py:933-951 | the Drive project of each name is the one its last spreadsheet-holding folder gives, as repeated dictionary assignment leaves it |
| DriveSync.KnownIds | src/spirrow_prismind/tools/project_tools.py:955-975 | the known ids are the non-empty ids RAG lists together with every local fallback id |
| DriveSync.Diff | src/spirrow_prismind/tools/project_tools.py:977-983 | `to_add`, `to_remove` and `unchanged` are sorted and hold exactly Drive minus known, known minus Drive, and both |
| DriveSync.SyncData | src/spirrow_prismind/tools/project_tools.py:1014-1017 | the configuration saved for a synced project holds exactly its spreadsheet id and root folder id |
| DriveSync.AddAll | src/spirrow_prismind/tools/project_tools.py:1006-1027 | adding the planned projects changes no other project, and without RAG each added id lands in the local fallback |
| DriveSync.AddAllSyncs | src/spirrow_prismind/tools/project_tools.py:1006-1027 | every added id ends up registered with the Drive ids of its folder |
| DriveSync.RemoveAll | src/spirrow_prismind/tools/project_tools.py:1029-1044 | each removed id is gone from both RAG and the fallback; every other project is untouched |
| DriveSync.SyncProjects | src/spirrow_prismind/tools/project_tools.py:908-1064 | without a projects folder nothing changes and the result is a failure; otherwise the result reports the plan, a dry run changes nothing, and a real run registers the additions, deletes the removals and keeps every other project |
| DriveSync.SyncSettles | src/spirrow_prismind/tools/project_tools.py:977-983 | without RAG, syncing the same Drive a second time plans no additions and no removals |
| SessionTools.SaveState | src/spirrow_prismind/integrations/memory_client.py:325-345 | saving succeeds exactly when Memory answers; then the state reads back with the current stamp, otherwise nothing changes; only Memory is touched |
| SessionTools.CurrentProjectOf | src/spirrow_prismind/tools/session_tools.py:57-76 | a non-empty Memory pointer wins and is copied into the local tracking; otherwise the locally tracked project is used |
| SessionTools.OrBlank | src/spirrow_prismind/tools/session_tools.py:141-152 | an absent stored state reads as empty phase, task, last completed, blockers, notes, summary and next action |
| SessionTools.Pick | src/spirrow_prismind/tools/session_tools.py:292-301 | a supplied value wins, an omitted one falls back |
| SessionTools.StartSession | src/spirrow_prismind/tools/session_tools.py:78-173 | only a named, configured project starts a session: then it is tracked from `now`, becomes the user's current project in Memory, and the stored state (or a fresh one with a note) is presented; otherwise nothing changes and the note says why |
| SessionTools.EndSession | src/spirrow_prismind/tools/session_tools.py:175-252 | without a project it fails and changes nothing; with one it succeeds, reports the elapsed seconds, clears the tracking, reports Memory as the store exactly when Memory took the state, and stores phase, task and last completed as they were, blockers as given or kept, and notes, summary and next action as given or empty |
| SessionTools.SaveSession | src/spirrow_prismind/tools/session_tools.py:254-321 | without a project it fails and changes nothing; with one every supplied field is stored, every omitted field keeps its stored value, and the last completed task is kept |
| SessionTools.UpdateProgress | src/spirrow_prismind/tools/session_tools.py:323-388 | phase, task and blockers are stored as supplied or kept, a non-empty completed task becomes the last completed one, and notes, summary and next action are kept |
| SessionTools.StartThenEnd | src/spirrow_prismind/tools/session_tools.py:206-238 | a session started on a configured project and then ended succeeds, reports the whole seconds between the two calls and leaves no session active |
| SessionTools.EndAfterStart | src/spirrow_prismind/tools/session_tools.py:175-252 | ending a session tracked on a project whose Memory pointer agrees succeeds with the elapsed seconds and clears the tracking |
| SessionTools.SaveThenStart | src/spirrow_prismind/tools/session_tools.py:254-321 | what `save_session` stores, the next `start_session` of the same project and user presents |
| SessionTools.StartPresents | src/spirrow_prismind/tools/session_tools.py:141-152 | starting a configured project with a stored state presents that state's phase, task, blockers, notes and last completed task |
| SessionTools.MemoryOnly | src/spirrow_prismind/tools/session_tools.py:78-173 | a change to Memory alone leaves every project configuration as it was |
| SessionTools.TaskNumber | src/spirrow_prismind/tools/session_tools.py:550 | the task number taken before the first colon contains no colon |
| SessionTools.PhaseTaskKey | src/spirrow_prismind/tools/session_tools.py:545-552 | the key is non-empty exactly when phase and task are given and both the phase digits and the task number are non-empty, and is then `P<digits>-<number>` |
| SessionTools.CatalogHits | src/spirrow_prismind/integrations/rag_client.py:738-773 | at most the requested number of catalog documents, and none when RAG does not answer |
| SessionTools.Refs | src/spirrow_prismind/tools/session_tools.py:580-593 | each reference comes from a hit and carries the given reason; every hit whose id was not already recommended gets one, and no already recommended id gets one |
| SessionTools.PhaseRefs | src/spirrow_prismind/tools/session_tools.py:555-570 | no references without a phase-task key; with one, a reference for every hit of the five-result key search and for nothing else, each with the key's reason |
| SessionTools.RecommendedDocs | src/spirrow_prismind/tools/session_tools.py:526-594 | at most five references, none without RAG or a task, only name matches when there is no phase-task key, and no name match repeats a document the key search already recommended |
| SessionTools.RecommendedFromSearches | src/spirrow_prismind/tools/session_tools.py:555-594 | the recommendations are the key search's references, then one reference for each hit of the task-name search (asked for the remaining slots) whose doc id the key search did not already recommend, and nothing else |
| SessionTools.MergedRefs | src/spirrow_prismind/tools/session_tools.py:581-592 | after joining the two searches, no second-search reference repeats a document of the first |
| SessionTools.ReasonsDiffer | src/spirrow_prismind/tools/session_tools.py:569-591 | the two reason texts never coincide, so they tell the two searches apart |
| Duration.Parts | src/spirrow_prismind/tools/session_tools.py:607-611 | hours, minutes and seconds recombine to the total, with minutes and seconds below sixty and Python's flooring for a negative total |
| Duration.Optional | src/spirrow_prismind/tools/session_tools.py:614-617 | an hours or minutes entry is written exactly when its count is positive |
| Duration.AmountsWorth | src/spirrow_prismind/tools/session_tools.py:613-619 | the entries written for a non-negative duration add up to that duration |
| Duration.AmountsShape | src/spirrow_prismind/tools/session_tools.py:613-619 | larger units come first, each at most once, and only the lone "0秒" has a zero count |
| Duration.FormatDuration | src/spirrow_prismind/tools/session_tools.py:596-621 | the text is never empty, and a zero duration is written "0秒" |
| Duration.ParseRender | src/spirrow_prismind/tools/session_tools.py:621 | the joined entries read back as exactly those entries |
| Duration.FormatRoundTrip | src/spirrow_prismind/tools/session_tools.py:596-621 | the written form of a non-negative whole-second duration reads back as that duration, so distinct durations are written differently |
| SummaryUpdate.KeyRow | src/spirrow_prismind/tools/session_tools.py:453-457 | the row a label maps to is the last row carrying that label in column A, and there is none exactly when no row carries it |
| SummaryUpdate.Lookup | src/spirrow_prismind/tools/session_tools.py:453-457 | the table shows a value for a key exactly when some row carries the key |
| SummaryUpdate.Write | src/spirrow_prismind/tools/session_tools.py:503-509 | writing `A{n}:B{n}` sets that row to the key and value, grows the sheet when the row lies beyond it, and keeps every other row |
| SummaryUpdate.Plan | src/spirrow_prismind/tools/session_tools.py:460-500 | each queued pair keeps its key and value and targets the key's existing row, or a row past the end of the sheet when it has none |
| SummaryUpdate.Candidates | src/spirrow_prismind/tools/session_tools.py:462-487 | the fixed labels are each considered once, in the tool's order |
| SummaryUpdate.Present | src/spirrow_prismind/tools/session_tools.py:462-487 | a fixed label is written only when the sheet has a row for it |
| SummaryUpdate.IntText | src/spirrow_prismind/tools/session_tools.py:474-479 | `str(n)` writes the decimal digits, with a minus sign for a negative count |
| SummaryUpdate.PutLookup | src/spirrow_prismind/tools/session_tools.py:490-500 | after putting a pair, its key shows the new value and every other key shows what it showed |
| SummaryUpdate.Latest | src/spirrow_prismind/tools/session_tools.py:503-509 | the value a key ends with is the last one queued for it, and there is none exactly when it was never queued |
| SummaryUpdate.WriteSummary | src/spirrow_prismind/tools/session_tools.py:450-509 | the queued writes, applied at the rows fixed against the table as read, amount to putting each pair in turn, and never change an existing row's label |
| SummaryUpdate.SummaryWritten | src/spirrow_prismind/tools/session_tools.py:460-509 | after the update a key shows the custom value, or else the supplied fixed value when its row exists, or else what it showed; a key is reported exactly when it was written |
| SummaryUpdate.StampWritten | src/spirrow_prismind/tools/session_tools.py:482-487 | whenever the sheet has a `最終更新` row and no custom field overrides it, the row shows the `%Y-%m-%d %H:%M` time of the call |
| SummaryUpdate.UpdateSummary | src/spirrow_prismind/tools/session_tools.py:390-524 | it fails and writes nothing without a project, a configuration or the summary sheet; otherwise only the summary sheet changes, as the queued writes leave it, and the written keys are reported |
| PhaseGroups.Names | src/spirrow_prismind/repositories/progress_repository.py:91-112 | the dictionary's keys hold each phase of the rows exactly once |
| PhaseGroups.RowsOf | src/spirrow_prismind/repositories/progress_repository.py:105-107 | the list held for a phase has exactly the rows of that phase, and is non-empty exactly when the phase occurs |
| PhaseGroups.GroupsCover | src/spirrow_prismind/tools/progress_tools.py:117-141 | every row is held under exactly one phase: the group sizes add up to the number of rows |
| PhaseGroups.SumStep | src/spirrow_prismind/tools/progress_tools.py:132-141 | one more row adds one to the size of the group it joins and nothing to the others |
| ProgressRepository.EnsureProjectSheet | src/spirrow_prismind/repositories/progress_repository.py:41-66 | it fails exactly when no spreadsheet id is configured or the project's sheet is missing; otherwise only that sheet changes and its first row reads as the A..G headers |
| ProgressRepository.EnsureIdempotent | src/spirrow_prismind/repositories/progress_repository.py:55-63 | ensuring the sheet a second time changes nothing |
| ProgressRepository.KeptRows | src/spirrow_prismind/repositories/progress_repository.py:92-104 | the rows kept are exactly the non-empty A2:G rows inside the phase filter, completed ones only when asked for |
| ProgressRepository.RepoStatus | src/spirrow_prismind/repositories/progress_repository.py:113-124 | a phase is completed exactly when all its tasks are, in progress exactly when not all are completed and some task is in progress, else not started |
| ProgressRepository.PhasesOf | src/spirrow_prismind/repositories/progress_repository.py:104-130 | one phase per distinct kept phase name, in order of first appearance, each with the tasks of its rows and the status they give |
| ProgressRepository.GetProgress | src/spirrow_prismind/repositories/progress_repository.py:68-149 | it succeeds exactly when the sheet exists; the phases group the kept rows, no completed task is listed unless asked for, and every listed phase matches the filter |
| ProgressRepository.KeptRowListed | src/spirrow_prismind/repositories/progress_repository.py:92-107 | every row the filter keeps is listed, as its task, under its own phase |
| ProgressRepository.CurrentPhaseChoice | src/spirrow_prismind/repositories/progress_repository.py:110-135 | with non-empty phase names, the current phase is the last in-progress phase, else the first phase not completed, and "" when all are completed |
| ProgressRepository.Changed | src/spirrow_prismind/repositories/progress_repository.py:210-225 | the task keeps its id and name and takes each supplied status, blocker list and notes; a "completed" status stamps the completion time |
| ProgressRepository.ChangedFields | src/spirrow_prismind/repositories/progress_repository.py:210-225 | the report names `status`, `completed_at`, `blockers` and `notes` exactly when each was changed |
| ProgressRepository.RowAfter | src/spirrow_prismind/repositories/progress_repository.py:227-234 | the written row keeps its phase and every cell past column G |
| ProgressRepository.UpdateTask | src/spirrow_prismind/repositories/progress_repository.py:151-246 | it succeeds exactly when the sheet exists and some row (the header included) holds the id in column B; then only that row is rewritten and the changed fields are reported, otherwise nothing changes |
| ProgressRepository.UpdateReadBack | src/spirrow_prismind/repositories/progress_repository.py:151-246 | reading the updated row back gives the task with the supplied changes, the completion time when completed, and everything else as it was |
| ProgressRepository.AddTask | src/spirrow_prismind/repositories/progress_repository.py:248-292 | it succeeds exactly when the sheet exists, appends exactly the new task's row and reports `created` |
| ProgressRepository.AddThenGet | src/spirrow_prismind/repositories/progress_repository.py:248-292 | a task just added is listed by `get_progress` under its phase as a not-started task |
| ProgressRepository.Flatten | src/spirrow_prismind/repositories/progress_repository.py:306-316 | the pairs visited are exactly each listed phase with each of its tasks |
| ProgressRepository.CurrentOf | src/spirrow_prismind/repositories/progress_repository.py:306-318 | the first in-progress task wins, else the first not-started task, and there is none exactly when no task is in progress or not started |
| ProgressRepository.GetCurrentTask | src/spirrow_prismind/repositories/progress_repository.py:294-318 | there is no current task for a missing sheet; otherwise it is the choice made over the open tasks `get_progress` lists |
| ProgressRows.UpToJ | src/spirrow_prismind/tools/progress_tools.py:93-99 | an A:J read gives a row's first ten cells, in order, and a row of at most ten cells unchanged |
| ProgressRows.ReadAJ | src/spirrow_prismind/tools/progress_tools.py:93-99 | reading A:J gives one row per sheet row, each cut to its first ten cells |
| ProgressRows.WrittenRead | src/spirrow_prismind/tools/progress_tools.py:352-358 | a ten-cell row written over A..J reads back as exactly those ten cells |
| ProgressRows.ShownRows | src/spirrow_prismind/tools/progress_tools.py:112-130 | the shown rows are exactly the rows below the header with at least three cells, a non-empty phase and, when a phase filter is given, that phase |
| ProgressRows.ToolStatus | src/spirrow_prismind/tools/progress_tools.py:148-163 | a phase is completed exactly when it has tasks and all are completed, blocked exactly when not completed and some task is blocked, in progress exactly when neither and some task is in progress or completed, else not started |
| ProgressRows.SortedPhases | src/spirrow_prismind/tools/progress_tools.py:132-168 | one phase per distinct shown phase name, in ascending name order, each holding the tasks of its rows in sheet order with the status they give |
| ProgressRows.FirstInProgress | src/spirrow_prismind/tools/progress_tools.py:144-146 | none exactly when no shown row is in progress; otherwise the first row that is |
| ProgressRows.FirstOpenPhase | src/spirrow_prismind/tools/progress_tools.py:170-175 | empty when every phase is completed, otherwise the name of the first phase that is not |
| ProgressRows.AggregateSorted | src/spirrow_prismind/tools/progress_tools.py:167-168 | the phases come out in strictly ascending name order, so each name appears once |
| ProgressRows.AggregateFiltered | src/spirrow_prismind/tools/progress_tools.py:120-130 | every listed phase has a non-empty name and matches the phase filter |
| ProgressRows.CurrentListed | src/spirrow_prismind/tools/progress_tools.py:144-175 | a non-empty current phase is always one of the listed phases and is not completed |
| ProgressRows.ShownRowListed | src/spirrow_prismind/tools/progress_tools.py:120-142 | the task of every shown row is listed under its own phase |
| ProgressRows.Where | src/spirrow_prismind/tools/progress_tools.py:767-779 | the positions from i on whose flag is set, each once and ascending |
| ProgressRows.Matches | src/spirrow_prismind/tools/progress_tools.py:767-779 | the matches are exactly the rows below the header with the task id and, when a phase is given, that phase, in ascending sheet order |
| ProgressRows.FirstMatchFirst | src/spirrow_prismind/tools/progress_tools.py:798 | no row between the header and the first match is a match |
| ProgressRows.Select | src/spirrow_prismind/tools/progress_tools.py:781-798 | not found exactly when nothing matches; ambiguous exactly when several rows match and no phase is given, listing one phase per match; otherwise the first match |
| ProgressRows.ReportListed | src/spirrow_prismind/tools/progress_tools.py:309-350 | a field is reported exactly when its flag is set |
| ProgressRows.SetStatus | src/spirrow_prismind/tools/progress_tools.py:317-325 | the status is written; the completion date is stamped exactly on a move into completed, cleared for any other status and kept on completed to completed; no other cell changes |
| ProgressRows.StatusCells | src/spirrow_prismind/tools/progress_tools.py:311-350 | after padding to ten cells the status and completion date are set as above, and blockers, notes, category and blocked_by take each supplied value; a priority outside high, medium and low leaves column H as it was |
| ProgressRows.StatusFieldsListed | src/spirrow_prismind/tools/progress_tools.py:309-350 | the update_task_status report holds the status always, completed_at exactly when it is stamped, each other field exactly when supplied (a priority only when valid), and never phase, task id or name |
| ProgressRows.TaskCells | src/spirrow_prismind/tools/progress_tools.py:1013-1070 | after padding to ten cells each supplied field replaces its column, the status edit stamps or clears the completion date as above, and the task id is kept |
| ProgressRows.TaskFieldsListed | src/spirrow_prismind/tools/progress_tools.py:1018-1070 | the update_task report holds the phase exactly when it changes, completed_at exactly when it is stamped, each other field exactly when supplied, and never the task id |
| ProgressRows.RemoveFirst | src/spirrow_prismind/tools/progress_tools.py:818 | removing an item drops exactly one occurrence of it |
| ProgressRows.Unblock | src/spirrow_prismind/tools/progress_tools.py:804-822 | a row is rewritten exactly when it has ten cells and its blocked_by cell names the task; then only column J changes, to the list without one occurrence of the task |
| ProgressRows.UnblockCounts | src/spirrow_prismind/tools/progress_tools.py:815-822 | read back, the rewritten blocked_by list holds one fewer of the task and every other item as before |
| ProgressRows.Dependents | src/spirrow_prismind/tools/progress_tools.py:803-824 | the rows rewritten are exactly the dependent rows other than the target, in ascending sheet order |
| ProgressTools.Configured | src/spirrow_prismind/tools/progress_tools.py:64-82 | no project exactly when neither the argument nor the user's current project names one; no configuration exactly when a named project has none; otherwise that project and its configuration |
| ProgressTools.Locate | src/spirrow_prismind/tools/progress_tools.py:84-91 | the call fails as the configuration does, fails with a missing sheet exactly when the progress sheet is not in the book, and otherwise yields the resolved project and a key present in the book |
| ProgressTools.LocateKeys | src/spirrow_prismind/tools/progress_tools.py:84-91 | locating depends only on which sheets exist, not on their rows |
| ProgressTools.FirstMatch | src/spirrow_prismind/tools/progress_tools.py:270-307 | no data exactly when the sheet is empty, not found exactly when no row below the header matches, otherwise the first matching row |
| ProgressTools.Lookup | src/spirrow_prismind/tools/progress_tools.py:760-798 | an empty sheet is no data, otherwise the ambiguity-checked choice; a chosen row is below the header and matches |
| ProgressTools.SingleLookup | src/spirrow_prismind/tools/progress_tools.py:781-798 | an id matched by one row is found as that row even without a phase |
| ProgressTools.LookupAgrees | src/spirrow_prismind/tools/progress_tools.py:280-298 | whenever the ambiguity-checked choice picks a row, the first-match choice picks the same one |
| ProgressTools.WriteRow | src/spirrow_prismind/tools/progress_tools.py:352-358 | writing A..J of row k leaves the sheet's height, reads back as the ten cells, keeps cells beyond J and leaves every other row unchanged |
| ProgressTools.ReadOthers | src/spirrow_prismind/tools/progress_tools.py:352-358 | rows a write does not target read back as before |
| ProgressTools.AfterStatus | src/spirrow_prismind/tools/progress_tools.py:361-367 | the current task becomes the id on a start, the last completed on a completion, the blockers when supplied; nothing else in the session changes |
| ProgressTools.RecordStatus | src/spirrow_prismind/tools/progress_tools.py:360-368 | without a stored session nothing changes; with one, the stored record becomes the status-changed record stamped with the time; only the memory store changes |
| ProgressTools.GetProgress | src/spirrow_prismind/tools/progress_tools.py:48-191 | succeeds exactly when the sheet is located; a failure reports no phases; a success reports the aggregation of the A:J rows |
| ProgressTools.EmptyAggregate | src/spirrow_prismind/tools/progress_tools.py:101-108 | an empty sheet gives no phases and no current phase |
| ProgressTools.StatusGridRead | src/spirrow_prismind/tools/progress_tools.py:300-358 | after a status update the same row is found again, it holds the new status, the completion date rule and the supplied notes, and every other row reads as before |
| ProgressTools.UpdateTaskStatus | src/spirrow_prismind/tools/progress_tools.py:193-385 | an invalid status is refused first, then the project, configuration, sheet, data and row; any failure changes nothing; success rewrites the first matching row, reports its fields and records the change in the session |
| ProgressTools.StatusOutcome | src/spirrow_prismind/tools/progress_tools.py:309-350 | a successful status update reports the fields of a ten-cell row of the located sheet |
| ProgressTools.CompleteReports | src/spirrow_prismind/tools/progress_tools.py:490-519 | completing a task reports the status, the notes exactly when given, and never blockers |
| ProgressTools.StartReports | src/spirrow_prismind/tools/progress_tools.py:521-547 | starting a task reports the status and never a completion date |
| ProgressTools.BlockReports | src/spirrow_prismind/tools/progress_tools.py:549-576 | blocking a task reports the status and the blockers and never a completion date |
| ProgressTools.StatusApplied | src/spirrow_prismind/tools/progress_tools.py:300-358 | after a successful status update the first matching row reads back with the new status, the supplied or kept notes and the completion-date rule, and every other row as before |
| ProgressTools.CompleteTask | src/spirrow_prismind/tools/progress_tools.py:490-519 | a failure changes nothing; on success the row reads back completed, with the given or kept notes, and dated today unless it was already completed |
| ProgressTools.StartTask | src/spirrow_prismind/tools/progress_tools.py:521-547 | a failure changes nothing; on success the row reads back in progress with an empty completion date |
| ProgressTools.BlockTask | src/spirrow_prismind/tools/progress_tools.py:549-576 | a failure changes nothing; on success the row reads back blocked with an empty completion date |
| ProgressTools.NewRow | src/spirrow_prismind/tools/progress_tools.py:444-460 | corrected: the new row has ten cells, the phase, the id and the not-started status |
| ProgressTools.NewRowTask | src/spirrow_prismind/tools/progress_tools.py:444-460 | corrected: the new row reads back as a not-started task with no blockers, no completion date and the description as notes, under its phase |
| ProgressTools.AddTask | src/spirrow_prismind/tools/progress_tools.py:387-488 | corrected: succeeds exactly when the sheet is located, then reports phase, task_id, name and status and appends the new row below the last; a failure changes nothing |
| ProgressTools.AddTaskAsWritten | src/spirrow_prismind/tools/progress_tools.py:453-487 | as written: never appends and always fails; a located sheet fails with the caught construction error, an unlocated one as locating does |
| ProgressTools.AddTaskNeverAppends | src/spirrow_prismind/tools/progress_tools.py:453-487 | for any located sheet, the as-written add fails with the caught error and leaves the book unchanged, while the corrected add appends exactly one row |
| ProgressTools.AppendThenLookup | src/spirrow_prismind/tools/progress_tools.py:466-471 | a row appended under an id no other row holds is the only row found for it, unless an empty sheet takes it for the header |
| ProgressTools.AppendListed | src/spirrow_prismind/tools/progress_tools.py:466-471 | an appended row with a phase is listed under that phase, unless an empty sheet takes it for the header |
| ProgressTools.AddedBook | src/spirrow_prismind/tools/progress_tools.py:466-471 | corrected: adding appends one row to the located sheet and leaves the sheet located as before |
| ProgressTools.AddThenGet | src/spirrow_prismind/tools/progress_tools.py:387-690 | corrected: a task added under a new id is what get_task then finds, with its name, not started, no blockers and the description as notes, under its phase |
| ProgressTools.AddThenProgress | src/spirrow_prismind/tools/progress_tools.py:48-488 | corrected: a task added under a non-empty phase is listed under that phase by get_progress |
| ProgressTools.GetTask | src/spirrow_prismind/tools/progress_tools.py:578-690 | fails as locating or the lookup does; otherwise returns the chosen row's phase and task, whose id is the one asked for and whose phase is the filter when one is given |
| ProgressTools.GetTaskFound | src/spirrow_prismind/tools/progress_tools.py:675-682 | once the lookup picks row k, get_task returns that row's phase and task |
| ProgressTools.GetTaskMissing | src/spirrow_prismind/tools/progress_tools.py:660-673 | get_task fails exactly as the lookup does |
| ProgressTools.UnblockedRow | src/spirrow_prismind/tools/progress_tools.py:826-833 | after the dependents are written back each reads without the deleted id and every other row is unchanged |
| ProgressTools.DependentIds | src/spirrow_prismind/tools/progress_tools.py:824 | one reported id per dependent row, in sheet order, taken from its column B |
| ProgressTools.DeleteRowEffect | src/spirrow_prismind/tools/progress_tools.py:800-845 | the target row reads back as ten empty cells, a dependent row below the header reads back unblocked, and every other row is untouched |
| ProgressTools.DeleteTask | src/spirrow_prismind/tools/progress_tools.py:692-864 | fails as locating or the lookup does and then changes nothing; otherwise rewrites the located sheet and reports the chosen row's phase |
| ProgressTools.DeleteKeepsHeader | src/spirrow_prismind/tools/progress_tools.py:762-763 | deleting a row below the header keeps the header a header |
| ProgressTools.DeleteRowsThenNone | src/spirrow_prismind/tools/progress_tools.py:800-845 | deleting the only row matching a non-empty id leaves no row that matches it |
| ProgressTools.DeleteThenGet | src/spirrow_prismind/tools/progress_tools.py:578-864 | after deleting the only task with a non-empty id, get_task for that id reports it not found |
| ProgressTools.DeletedBook | src/spirrow_prismind/tools/progress_tools.py:798-845 | with a single match only the located sheet changes, by clearing that row, and it is located as before |
| ProgressTools.DeleteUnblocks | src/spirrow_prismind/tools/progress_tools.py:804-822 | every dependent row loses the deleted id once from its column J list and keeps every other id |
| ProgressTools.Move | src/spirrow_prismind/tools/progress_tools.py:1020-1026 | the phase moves exactly when a different new phase is given; the final phase is the new one when given, else the old |
| ProgressTools.UpdateTarget | src/spirrow_prismind/tools/progress_tools.py:905-956 | the checks run in order project, configuration, status, priority, sheet; the target is found exactly when the sheet is located and the supplied status and priority are valid |
| ProgressTools.TaskCellsRead | src/spirrow_prismind/tools/progress_tools.py:1013-1070 | the edited row keeps its task id and takes the new phase, name, status and description where given |
| ProgressTools.TaskCellsBlockers | src/spirrow_prismind/tools/progress_tools.py:1047-1050 | a supplied list of plain blockers reads back as itself; otherwise the blockers are kept |
| ProgressTools.TaskGridRead | src/spirrow_prismind/tools/progress_tools.py:1080-1086 | after update_task the edited row reads back as its edited cells and every other row as before |
| ProgressTools.UpdateTask | src/spirrow_prismind/tools/progress_tools.py:866-1123 | fails as the checks or the lookup do and then changes nothing; otherwise reports the fields the edit sets and the old phase, writes the row only when some field is set, touches the session only for a supplied status, and reports a move exactly when the phase field is set |
| ProgressTools.EditAt | src/spirrow_prismind/tools/progress_tools.py:1011-1112 | the report lists the fields the edit sets; with none, nothing is written and no move is reported; otherwise the row is written and the new phase is the supplied one or the old |
| Retry.Backoff | src/spirrow_prismind/integrations/retry.py:61 | the backoff never exceeds max_delay and is either max_delay or base_delay times two to the attempt |
| Retry.Wrapper | src/spirrow_prismind/integrations/retry.py:50-83 | the loop of the wrapper computes the same run as the recursive definition: calls, sleeps, callbacks and outcome |
| Retry.CallsAndSleeps | src/spirrow_prismind/integrations/retry.py:53-79 | from a given attempt the function runs at most the remaining number of times and at least once while attempts remain, with one sleep and one callback between every two calls and none after the last |
| Retry.RetryBounds | src/spirrow_prismind/integrations/retry.py:53-79 | a decorated call runs at most max_retries + 1 times, at least once unless max_retries is negative, and sleeps exactly once fewer than it calls |
| Retry.OutcomeFrom | src/spirrow_prismind/integrations/retry.py:53-83 | every call before the last raised a retryable exception; a value is the last call's; a re-raised exception is the last call's and either not retryable or raised by the final attempt; the unexpected-state error never happens while attempts remain |
| Retry.RetryOutcome | src/spirrow_prismind/integrations/retry.py:53-83 | the unexpected-state error happens exactly when max_retries is negative; otherwise the outcome is the last call's as above |
| Retry.FirstSuccess | src/spirrow_prismind/integrations/retry.py:55 | a first call that returns is the whole run: one call, no sleep, no callback |
| Retry.NotRetried | src/spirrow_prismind/integrations/retry.py:56-57 | an exception that is not retryable propagates after a single call with no sleep |
| Retry.SleepsFrom | src/spirrow_prismind/integrations/retry.py:59-74 | sleep number k follows attempt k and lasts that attempt's jittered backoff |
| Retry.CallbacksFrom | src/spirrow_prismind/integrations/retry.py:71-72 | the callback before sleep k gets the exception attempt k raised and the number k + 1 |
| Retry.DelayBound | src/spirrow_prismind/integrations/retry.py:60-64 | a jittered delay is at least its backoff and at most 1.1 times max_delay |
| Retry.SleepsBounded | src/spirrow_prismind/integrations/retry.py:60-74 | with jitter in [0, 0.1 x delay] every sleep lasts at most 1.1 times max_delay |
| Retry.Decorated | src/spirrow_prismind/integrations/retry.py:127-150 | a disabled configuration calls the function once, with no sleep or callback, and returns its value or raises its exception |
| Retry.DefaultsAgree | src/spirrow_prismind/integrations/retry.py:91-158 | the default configuration decorates exactly as with_retry() with its defaults does |
| AppConfig.GoogleFrom | src/spirrow_prismind/config.py:98-104 | the google section is read exactly when its three keys are strings or absent, each field then being the stored string or its default |
| AppConfig.ServicesFrom | src/spirrow_prismind/config.py:105-115 | the services section is read exactly when its three keys are strings or absent, each field then being the stored string or its default |
| AppConfig.LogFrom | src/spirrow_prismind/config.py:116-120 | the log section is read exactly when level, file and format are strings or absent, each field then being the stored string or its default |
| AppConfig.SessionFrom | src/spirrow_prismind/config.py:121-124 | the session section is read exactly when the interval is an integer or absent and the user name a string or absent; the interval defaults to 20 |
| AppConfig.SectionTable | src/spirrow_prismind/config.py:98-124 | a section is readable exactly when it is a table or absent, and an absent one reads as an empty table |
| AppConfig.EmptyIsDefault | src/spirrow_prismind/config.py:49-55 | an empty document, or one of four empty sections, gives the dataclass defaults |
| AppConfig.FromDict | src/spirrow_prismind/config.py:95-125 | a document is read exactly when every known section and key has its field's type or is absent; unknown sections and keys are ignored |
| AppConfig.FieldsOrDefaults | src/spirrow_prismind/config.py:95-125 | every field is the document's value when given and its default when the key or the whole section is missing |
| AppConfig.Validate | src/spirrow_prismind/config.py:127-144 | at most three errors, one per check |
| AppConfig.ValidateReports | src/spirrow_prismind/config.py:127-144 | no errors exactly when the level is one of DEBUG, INFO, WARNING, ERROR, the format is text or json and the interval is at least 1; each error message appears exactly when its check fails |
| AppConfig.DefaultValid | src/spirrow_prismind/config.py:18-55 | the default configuration validates without errors |
| GoogleDocs.TextAppend | src/spirrow_prismind/integrations/google_docs.py:116-134 | the text of two element lists one after the other is the first's text followed by the second's |
| GoogleDocs.TextIgnoresOther | src/spirrow_prismind/integrations/google_docs.py:119-131 | an element that is neither a paragraph nor a table adds no text |
| GoogleDocs.RunsInOrder | src/spirrow_prismind/integrations/google_docs.py:121-124 | a paragraph's text is its text runs' contents in order, other paragraph elements adding nothing |
| GoogleDocs.TableRowText | src/spirrow_prismind/integrations/google_docs.py:125-131 | a table row gives each cell's text followed by a tab, then a newline |
| GoogleDocs.HeadingLine | src/spirrow_prismind/integrations/google_docs.py:304 | the heading text is kept as a prefix and ends with exactly one added newline unless it already ended with one |
| GoogleDocs.InsertHeading | src/spirrow_prismind/integrations/google_docs.py:281-336 | an insert of the heading line at the index, then a heading style over exactly the inserted characters, the level capped at 6 |
| GoogleDocs.ContentRequestsShape | src/spirrow_prismind/integrations/google_docs.py:356-390 | the request list is the heading's insert and level-1 style at index 1 when there is a non-empty heading, then the content's insert right after it when there is content |
| GoogleDocs.ContentLaidOut | src/spirrow_prismind/integrations/google_docs.py:356-396 | applied to a new body, the requests leave the heading line followed by the content ahead of the body |
| GoogleDocs.HeadingStyled | src/spirrow_prismind/integrations/google_docs.py:366-377 | the heading style spans exactly the heading line, and without content only the heading line is inserted |
| GoogleDocs.ApplyInsert | src/spirrow_prismind/integrations/google_docs.py:156-163 | an insert at a valid index puts the text before the character at that index |
| GoogleDocs.AppendBeforeNewline | src/spirrow_prismind/integrations/google_docs.py:190-197 | appended text lands just before the final newline of the body |
| Keywords.FirstWith | src/spirrow_prismind/tools/document_tools.py:464-471 | the first position whose element has the given key, every earlier element having another key |
| Keywords.DedupeBy | src/spirrow_prismind/tools/document_tools.py:464-471 | the kept words are words of the input whose keys were not yet seen, never more than the input |
| Keywords.DedupeFirst | src/spirrow_prismind/tools/document_tools.py:464-471 | each kept word is the first word of the input with its lower-cased form |
| Keywords.DedupeOrder | src/spirrow_prismind/tools/document_tools.py:464-471 | kept words appear in input order with pairwise different keys |
| Keywords.DedupeCovers | src/spirrow_prismind/tools/document_tools.py:464-471 | every input word whose key was not seen is represented by a kept word with the same key |
| Keywords.CappedDedupe | src/spirrow_prismind/tools/document_tools.py:464-473 | the first n kept words are distinct ignoring case, each the first spelling of its form, and every one of the first n input words is represented |
| Keywords.DropLeft | src/spirrow_prismind/tools/document_tools.py:458 | only leading characters of the set are dropped, and the rest does not start with one |
| Keywords.StripChars | src/spirrow_prismind/tools/knowledge_tools.py:292 | a slice of the word with no character of the set at either end, the word itself when it has none there |
| Keywords.HeadingLineWords | src/spirrow_prismind/tools/document_tools.py:455-460 | a line that does not start with '#' once stripped gives no words; otherwise only whitespace-free words of two or more characters |
| Keywords.KeywordCandidates | src/spirrow_prismind/tools/document_tools.py:442-462 | every candidate is the feature or a whitespace-free word of two or more characters |
| Keywords.GenerateKeywords | src/spirrow_prismind/tools/document_tools.py:426-473 | at most twenty keywords, distinct ignoring case, each shaped as above and taken from the candidates, and every one of the first twenty candidates represented |
| Keywords.KeywordsFromName | src/spirrow_prismind/tools/document_tools.py:442-473 | without a feature or heading lines the keywords are the first twenty distinct name words of two or more characters |
| Keywords.FeatureKept | src/spirrow_prismind/tools/document_tools.py:449-450 | a non-empty feature is always among the keywords, in some spelling, when the name has fewer than twenty words of two or more characters |
| Keywords.TagCandidatesSpec | src/spirrow_prismind/tools/knowledge_tools.py:288-316 | the candidates are exactly the stripped words of three or more characters that are not common words and look technical |
| Keywords.CandidatesShaped | src/spirrow_prismind/tools/knowledge_tools.py:288-316 | every candidate is non-empty, without whitespace and without punctuation at either end |
| Keywords.GenerateTags | src/spirrow_prismind/tools/knowledge_tools.py:276-331 | at most ten tags, distinct ignoring case, each a kept candidate, and every one of the first ten candidates represented |
| Keywords.SingleWordTag | src/spirrow_prismind/tools/knowledge_tools.py:276-331 | content that is one technical word without punctuation at its ends is tagged with exactly that word |
| GlobalDocTypes.Register | src/spirrow_prismind/tools/global_document_types.py:174-202 | refused exactly when the id is already stored, then nothing changes; otherwise the type is stored as global under its id, appended after the existing ids |
| GlobalDocTypes.Update | src/spirrow_prismind/tools/global_document_types.py:204-223 | succeeds exactly when the id is stored, then replaces that entry with the type marked global and keeps the ids; no other entry changes |
| GlobalDocTypes.Delete | src/spirrow_prismind/tools/global_document_types.py:225-246 | succeeds exactly when the id is stored; afterwards the id is absent and every other entry is unchanged |
| GlobalDocTypes.OperationsKeepKeyed | src/spirrow_prismind/tools/global_document_types.py:174-246 | register, update and delete keep every type filed under its own id |
| GlobalDocTypes.RegisterThenDelete | src/spirrow_prismind/tools/global_document_types.py:174-246 | deleting a type just registered under a fresh id restores the store and succeeds |
| GlobalDocTypes.Normalise | src/spirrow_prismind/tools/global_document_types.py:298 | the query keeps its length; each character is lower-cased, and '-' and ' ' become '_' |
| GlobalDocTypes.FirstMatch | src/spirrow_prismind/tools/global_document_types.py:305-320 | the first entry matching at a tier, every earlier entry not matching there |
| GlobalDocTypes.LocalFound | src/spirrow_prismind/tools/global_document_types.py:287-323 | a local match is a stored type whose id equals, prefixes, is prefixed by, contains or is contained in the normalised query, or whose lower-cased name equals it |
| GlobalDocTypes.LocalNone | src/spirrow_prismind/tools/global_document_types.py:287-323 | the local matcher finds nothing exactly when no stored entry is related to the normalised query |
| GlobalDocTypes.NameBeatsPrefix | src/spirrow_prismind/tools/global_document_types.py:305-314 | when the id tier misses, the first entry matching by name wins over any entry matching only by prefix |
| GlobalDocTypes.FoundById | src/spirrow_prismind/tools/global_document_types.py:300-302 | a type is found when the normalised query is its id |
| GlobalDocTypes.FindSimilarWithScore | src/spirrow_prismind/tools/global_document_types.py:325-357 | a semantic match naming a stored type is returned with its score; otherwise a local match scores 0.8 and no match is (None, 0.0) |
| GlobalDocTypes.FindSimilar | src/spirrow_prismind/tools/global_document_types.py:252-285 | a semantic match naming a stored type is returned; otherwise the local match |
| GlobalDocTypes.SimilarAgree | src/spirrow_prismind/tools/global_document_types.py:252-357 | both lookups return the same type, and nothing found always scores 0 |
| DocumentTools.ListTypes | src/spirrow_prismind/tools/document_tools.py:522-550 | corrected: the built-in types first, in order, then the project's custom types, in order |
| DocumentTools.FirstNamed | src/spirrow_prismind/tools/document_tools.py:781-785 | the first listed type whose id or name is the query, every earlier one answering to neither |
| DocumentTools.GetDocumentType | src/spirrow_prismind/tools/document_tools.py:763-785 | corrected: none exactly when no listed type has the query as id or name; otherwise a listed type answering to it |
| DocumentTools.BuiltinShadows | src/spirrow_prismind/tools/document_tools.py:781-785 | corrected: a built-in type answering to a query shadows every custom type answering to it |
| DocumentTools.WithoutUnderscores | src/spirrow_prismind/tools/document_tools.py:581 | the id with every underscore removed and every other character kept |
| DocumentTools.ValidTypeIdMeaning | src/spirrow_prismind/tools/document_tools.py:581 | an id is accepted exactly when it has a character other than '_' and every character is '_' or alphanumeric |
| DocumentTools.NewType | src/spirrow_prismind/tools/document_tools.py:616-624 | the new type carries the requested id, is neither built-in nor global, and absent optional fields default to empty |
| DocumentTools.RegisterType | src/spirrow_prismind/tools/document_tools.py:552-681 | corrected: refused as an invalid id, a reserved built-in id, no project, a duplicate or a failed save, each exactly under its condition and in that order; a registration appends the new type to the custom list and reports a folder created exactly when one was asked for, a root folder exists and none was found |
| DocumentTools.WithoutType | src/spirrow_prismind/tools/document_tools.py:719-721 | the custom list without the types of that id, every other type kept |
| DocumentTools.WithoutTypeLength | src/spirrow_prismind/tools/document_tools.py:719-723 | filtering keeps the length exactly when no type has that id, and then changes nothing |
| DocumentTools.DeleteType | src/spirrow_prismind/tools/document_tools.py:683-761 | corrected: refused as a built-in, no project, not found or a failed save, each exactly under its condition; a deletion leaves no type of that id and keeps every other |
| DocumentTools.RegisterThenDelete | src/spirrow_prismind/tools/document_tools.py:552-761 | corrected: a registration that succeeds is undone by deleting the same id |
| DocumentTools.RegisteredIsFound | src/spirrow_prismind/tools/document_tools.py:552-785 | corrected: once registered, the type is found by its id unless a listed type already uses that id as its name |
| DocumentTools.RegisterTwice | src/spirrow_prismind/tools/document_tools.py:606-613 | corrected: registering the same id again is a duplicate and stores nothing |
| DocumentTools.ListTypesAsWritten | src/spirrow_prismind/tools/document_tools.py:522-550 | as written: the listing fails exactly when a project is configured, and otherwise lists the built-in types alone |
| DocumentTools.GetDocumentTypeAsWritten | src/spirrow_prismind/tools/document_tools.py:763-785 | as written: the lookup fails exactly when a project is configured, and otherwise can only find a built-in type |
| DocumentTools.RegisterTypeAsWritten | src/spirrow_prismind/tools/document_tools.py:552-613 | as written: an invalid id, a reserved id and a missing project are refused as before, and every other registration fails on the missing attribute |
| DocumentTools.DeleteTypeAsWritten | src/spirrow_prismind/tools/document_tools.py:683-718 | as written: built-in ids and a missing project are refused as before, and every other deletion fails on the missing attribute |
| DocumentTools.CustomTypesUnreachable | src/spirrow_prismind/tools/document_tools.py:541-718 | for a configured project and a new valid id, all four as-written tools fail, while the corrected registration succeeds and lists the new type after the built-ins |
| DocumentTools.CatalogHit | src/spirrow_prismind/tools/document_tools.py:155-163 | a hit carries the requested doc_id |
| DocumentTools.CatalogHitIsFirst | src/spirrow_prismind/tools/document_tools.py:155-163 | the hit is the first stored document whose doc_id is the one asked for |
| DocumentTools.CatalogHitNone | src/spirrow_prismind/tools/document_tools.py:155-163 | there is no hit exactly when no stored document has that doc_id |
| DocumentTools.HitAt | src/spirrow_prismind/tools/document_tools.py:155-163 | in a well-formed store the hit sits at the first position with that doc_id and is the document stored under its own id |
| DocumentTools.FetchById | src/spirrow_prismind/tools/document_tools.py:143-195 | found exactly when Docs returns the content; the document then has the id, title, body text and source "Google Docs" and exactly the url, phase_task, feature and updated_at metadata, which are empty without a catalog entry |
| DocumentTools.FetchUsesFirstEntry | src/spirrow_prismind/tools/document_tools.py:160-176 | the fetched document carries the type and phase of the first stored document with that doc_id |
| DocumentTools.Refs | src/spirrow_prismind/tools/document_tools.py:127-133 | one candidate per hit, in hit order |
| DocumentTools.ResolveDocument | src/spirrow_prismind/tools/document_tools.py:66-141 | with a doc_id the document is fetched directly; with neither doc_id nor query nothing is found; candidates come only from a query search with two to ten hits, each reason starting with the type filter |
| DocumentTools.SearchResolution | src/spirrow_prismind/tools/document_tools.py:104-141 | no hit finds nothing, one hit is fetched by its metadata's doc_id, several hits give one candidate each and nothing found |
| DocumentTools.Merged | src/spirrow_prismind/tools/document_tools.py:385-386 | the merged metadata holds exactly the old keys, the caller's keys and updated_at; caller values win over old ones, and updated_at is the new stamp |
| DocumentTools.MergeStep | src/spirrow_prismind/tools/document_tools.py:376-400 | with metadata and a catalog entry, that entry's metadata becomes the merge and the caller's keys are reported; otherwise nothing changes; other entries never change |
| DocumentTools.Touch | src/spirrow_prismind/tools/document_tools.py:403-414 | with new content the catalog entry's updated_at is set again, nothing else changes, and without an entry the store is unchanged |
| DocumentTools.UpdateDoc | src/spirrow_prismind/tools/document_tools.py:342-424 | succeeds exactly when no content is given or the Docs edit succeeds; a failure changes nothing and reports nothing; success reports content when given, then the caller's metadata keys when an entry was merged |
| DocumentTools.UpdateBoth | src/spirrow_prismind/tools/document_tools.py:366-414 | content and metadata together leave the entry with the merged metadata and the later stamp, reporting content and the caller's keys |
| DocumentTools.UpdateContentOnly | src/spirrow_prismind/tools/document_tools.py:366-414 | content alone reports only content and gives the entry only a new updated_at |
| DocumentTools.CatalogRow | src/spirrow_prismind/tools/document_tools.py:500-514 | thirteen cells in header order: source "Google Docs", no related documents, no author, status active |
| DocumentTools.CatalogRowReadBack | src/spirrow_prismind/tools/document_tools.py:475-520 | reading the appended row back gives the entry meant: the keywords survive the join, the date is the day at midnight, status active |
| DocumentTools.KeywordsCell | src/spirrow_prismind/tools/document_tools.py:510 | keywords joined with ", " split back into the same list |
| KnowledgeTools.GetCategories | src/spirrow_prismind/tools/knowledge_tools.py:333-339 | a copy of the six categories, none repeated |
| KnowledgeTools.AddKnowledge | src/spirrow_prismind/tools/knowledge_tools.py:51-138 | succeeds exactly when the category is one of the six, and a refusal writes nothing; otherwise the entry is stored under knowledge:<stamp> with the content, type knowledge, the category, the given or generated tags (at most ten when generated) and the filed project, and no other entry changes |
| KnowledgeTools.AddedIsSearchable | src/spirrow_prismind/tools/knowledge_tools.py:51-233 | a stored entry matches a search with its category and filed project, with its category alone and with no filter, and carries every one of its tags |
| KnowledgeTools.ToEntry | src/spirrow_prismind/tools/knowledge_tools.py:193-226 | an entry keeps the hit's id, content and score, and its project is the stored one when present |
| KnowledgeTools.HitsFields | src/spirrow_prismind/tools/knowledge_tools.py:193-226 | every search hit keeps the requested category and carries every requested tag |
| KnowledgeTools.KeepProject | src/spirrow_prismind/tools/knowledge_tools.py:229-238 | exactly the entries of the filed project, and general ones when they are included, in order |
| KnowledgeTools.ProjectFilter | src/spirrow_prismind/tools/knowledge_tools.py:228-239 | with no filed project nothing is dropped; otherwise exactly the entries the project filter keeps, in order |
| KnowledgeTools.GeneralFilterKeepsAll | src/spirrow_prismind/tools/knowledge_tools.py:164-239 | with general knowledge included the post-filter drops nothing the project-scoped search returned |
| KnowledgeTools.OwnProjectOnly | src/spirrow_prismind/tools/knowledge_tools.py:236-238 | without general knowledge, of the project's and general hits exactly the project's are kept |
| KnowledgeTools.Admitted | src/spirrow_prismind/tools/knowledge_tools.py:241-264 | the cached entries taken are unseen, contain the query ignoring case, pass the category and tag filters, and have pairwise different ids |
| KnowledgeTools.MergeCached | src/spirrow_prismind/tools/knowledge_tools.py:241-264 | the admitted cached entries come first, latest first, followed by the filtered hits unchanged |
| KnowledgeTools.MergeComplete | src/spirrow_prismind/tools/knowledge_tools.py:245-264 | a cached entry that passes the filters and is the first of its id is taken |
| KnowledgeTools.MergeNoDuplicate | src/spirrow_prismind/tools/knowledge_tools.py:240-264 | a cached entry never duplicates a search hit |
| KnowledgeTools.MergedFields | src/spirrow_prismind/tools/knowledge_tools.py:241-264 | the category and tag guarantees carry over to the merged list |
| KnowledgeTools.SearchKnowledge | src/spirrow_prismind/tools/knowledge_tools.py:140-274 | the search succeeds, counts exactly what it returns, returns at most limit entries, and every entry has the requested category and tags |
| KnowledgeTools.SearchWithoutCache | src/spirrow_prismind/tools/knowledge_tools.py:164-266 | without cached entries the result is the project-filtered hits of the project-scoped search, cut at limit |
| KnowledgeTools.DeleteKnowledge | src/spirrow_prismind/tools/knowledge_tools.py:341-354 | true exactly when the entry existed; it is gone afterwards and every other entry is unchanged |
| KnowledgeTools.Entries | src/spirrow_prismind/tools/knowledge_tools.py:191-226 | one entry per search hit, in the hits' order |
| KnowledgeTools.HitFields | src/spirrow_prismind/tools/knowledge_tools.py:193-226 | a hit that satisfies the knowledge filter keeps the requested category and every requested tag |
| KnowledgeTools.FilterKeepsAll | src/spirrow_prismind/tools/knowledge_tools.py:229-238 | a project filter that every entry passes changes nothing |
| KnowledgeTools.Gathered | src/spirrow_prismind/tools/knowledge_tools.py:235-267 | every entry of the merged, capped list has the requested category and tags |
| SetupTools.LookupIn | src/spirrow_prismind/tools/setup_tools.py:34-119 | a registry entry is found only under its own dotted name, and nothing is found exactly when no entry has that name (also line 203 of the same file) |
| SetupTools.SettingNames | src/spirrow_prismind/tools/setup_tools.py:365-367 | one name per registry entry |
| SetupTools.AvailableAreKnown | src/spirrow_prismind/tools/setup_tools.py:310-367 | a setting is accepted by configure exactly when the list of available settings names it |
| SetupTools.SplitKey | src/spirrow_prismind/tools/setup_tools.py:173-183 | splitting a dotted name at its dots gives back its table and key when neither holds a dot |
| SetupTools.GetPathAppend | src/spirrow_prismind/tools/setup_tools.py:171-179 | walking a dotted path is walking its first part and then the rest from where that part ends |
| SetupTools.GetPathNone | src/spirrow_prismind/tools/setup_tools.py:171-179 | the nested read gives None exactly when some segment is missing or is reached through a value that is not a table |
| SetupTools.SetThenGet | src/spirrow_prismind/tools/setup_tools.py:171-190 | after a successful nested write the nested read of the same path returns the written value |
| SetupTools.SetKeepsOthers | src/spirrow_prismind/tools/setup_tools.py:181-190 | a nested write leaves every path that parts ways with the written one as it was |
| SetupTools.SetFails | src/spirrow_prismind/tools/setup_tools.py:181-190 | a nested write fails exactly when some proper prefix of the path already holds a value that is not a table |
| SetupTools.SetFreshSucceeds | src/spirrow_prismind/tools/setup_tools.py:181-190 | writing any path into an empty table succeeds |
| SetupTools.Mask | src/spirrow_prismind/tools/setup_tools.py:192-198 | the masked text keeps the length; a value not marked sensitive is shown as is; a sensitive value shows stars except the first and last two characters of a value longer than four |
| SetupTools.MaskIdempotent | src/spirrow_prismind/tools/setup_tools.py:192-198 | masking a masked value changes nothing |
| SetupTools.NothingMasked | src/spirrow_prismind/tools/setup_tools.py:34-119 | no registry entry is sensitive, so the status shows every value as is (also lines 264-266 of the same file) |
| SetupTools.CheckValue | src/spirrow_prismind/tools/setup_tools.py:200-237 | a string is never rejected by an exception; non_empty rejects falsy and blank values; url accepts a non-empty string only with an http or https scheme; log_level accepts a non-empty string only when its upper-case form is allowed; choice accepts a truthy value only when it is allowed; positive_int accepts exactly the values that convert to an integer of at least 1; path_exists and unchecked accept every string |
| SetupTools.ValidateIn | src/spirrow_prismind/tools/setup_tools.py:200-204 | a key outside the registry is never rejected; a registered key is judged by its entry's validator and allowed values |
| SetupTools.StatusOf | src/spirrow_prismind/tools/setup_tools.py:247-276 | a status carries the dotted name and required flag, and is configured exactly when the stored value exists and is not the empty string |
| SetupTools.GetSetupStatus | src/spirrow_prismind/tools/setup_tools.py:239-293 | every registry entry is reported once, the required ones under required and the rest under optional |
| SetupTools.StatusReady | src/spirrow_prismind/tools/setup_tools.py:252-293 | ready holds exactly when every required setting is configured, which is exactly when nothing is missing |
| SetupTools.StatusMissing | src/spirrow_prismind/tools/setup_tools.py:279-282 | the missing names are exactly the required settings left unconfigured |
| SetupTools.EmptyNotReady | src/spirrow_prismind/tools/setup_tools.py:34-119 | with no config file the setup is not ready and the credentials path is missing (also lines 239-293 of the same file) |
| SetupTools.Converted | src/spirrow_prismind/tools/setup_tools.py:333-338 | the stored value is the integer the text parses to for positive_int, the upper-cased text for log_level, and the text itself otherwise |
| SetupTools.ValidText | src/spirrow_prismind/tools/setup_tools.py:200-237 | what an accepted text means for the validators that convert it (also lines 321-331 of the same file) |
| SetupTools.ConvertedText | src/spirrow_prismind/tools/setup_tools.py:200-237 | a url, choice, path or unchecked setting stores its accepted text unchanged (also lines 333-338 of the same file) |
| SetupTools.Configure | src/spirrow_prismind/tools/setup_tools.py:295-363 | an unknown name changes nothing; a rejected value changes nothing and reports the validator's reason; a change happens only when the value passes and the save succeeds, stores the converted value under the name and reports the previous value; a failed save leaves the file as it was |
| SetupTools.HitStoredAt | src/spirrow_prismind/tools/setup_tools.py:340-345 | a successful nested write of a dotted key reads back through the same key |
| SetupTools.ConfigureKeepsOthers | src/spirrow_prismind/tools/setup_tools.py:340-345 | configure leaves every key that parts ways with the configured one as it was |
| SetupTools.EmptyCredentialsStayUnset | src/spirrow_prismind/tools/setup_tools.py:209-211 | configuring the credentials path with an empty text succeeds and still leaves the setup not ready (also lines 252-257, 295-363 of the same file) |
| SetupTools.ImportAll | src/spirrow_prismind/tools/setup_tools.py:853-893 | every key the import loop reports imported or skipped is one of the whitelisted keys |
| SetupTools.Names | src/spirrow_prismind/tools/setup_tools.py:858-891 | one dotted name per whitelisted pair, in order |
| SetupTools.ImportServerConfig | src/spirrow_prismind/tools/setup_tools.py:828-912 | a document that does not parse changes nothing; success holds exactly when something was imported; unless it succeeds the file is unchanged; only whitelisted keys are reported; a failed save is reported only when saving fails |
| SetupTools.DottedInjective | src/spirrow_prismind/tools/setup_tools.py:860-887 | two dot-free pairs with the same dotted name are the same pair |
| SetupTools.ImportKeysWellKeyed | src/spirrow_prismind/tools/setup_tools.py:858-886 | the import whitelist holds no dot and names each key once |
| SetupTools.StepClassifies | src/spirrow_prismind/tools/setup_tools.py:858-868 | one step of the import loop classifies its own key and keeps the classification of the keys before it |
| SetupTools.ImportAllClassifies | src/spirrow_prismind/tools/setup_tools.py:853-893 | every whitelisted key the loop visits ends up classified |
| SetupTools.ImportPartition | src/spirrow_prismind/tools/setup_tools.py:853-912 | every whitelisted key the document holds lands in exactly one of imported (when it validates) or skipped (when it is rejected), and a key the document lacks in neither |
| SetupTools.StepKeepsOthers | src/spirrow_prismind/tools/setup_tools.py:865-866 | one step of the import loop leaves every path apart from its key as it was |
| SetupTools.ImportAllKeepsOthers | src/spirrow_prismind/tools/setup_tools.py:853-893 | the import loop changes nothing outside the pairs it is given |
| SetupTools.ImportOnlyWhitelisted | src/spirrow_prismind/tools/setup_tools.py:828-912 | the import writes only whitelisted keys: every other path of the config file reads as before |
| SetupTools.ImportKeepsGoogle | src/spirrow_prismind/tools/setup_tools.py:853-893 | the import never touches the google table with the credentials path and projects folder |
| SetupTools.ImportKeepsUserName | src/spirrow_prismind/tools/setup_tools.py:883-893 | the import never touches the user name, which shares the session table with the imported interval |
| SetupTools.ImportAllStores | src/spirrow_prismind/tools/setup_tools.py:853-893 | after the loop each imported key holds the document's value |
| SetupTools.ImportStores | src/spirrow_prismind/tools/setup_tools.py:828-912 | after a successful import the config file holds, under each imported key, the value the shared document gave it |
| Strings.Strip | src/spirrow_prismind/tools/setup_tools.py:207 | `str.strip()`: the result has no surrounding whitespace, only characters of the input, and a trimmed text is returned unchanged |
| Strings.TrimLeft | src/spirrow_prismind/tools/setup_tools.py:207 | the leading whitespace removed: a suffix of the input whose first character is not whitespace |
| Strings.TrimRight | src/spirrow_prismind/tools/setup_tools.py:207 | the trailing whitespace removed: a prefix of the input whose last character is not whitespace |
| Strings.Split | src/spirrow_prismind/tools/setup_tools.py:173 | `str.split(sep)`: at least one piece, none holding the separator, and joining them with it gives the text back |
| Strings.Words | tests/mocks/mock_rag.py:157-158 | `str.split()`: non-empty pieces without whitespace, starting at the first character of a text that does not begin with whitespace |
| Strings.ParseInt | src/spirrow_prismind/tools/setup_tools.py:231 | `int(text)` succeeds only on a text that is not blank |
| Strings.ParseIntDecimal | src/spirrow_prismind/tools/setup_tools.py:231 | `int(str(n)) == n` (also line 334 of the same file) |
| Strings.ZeroPad | src/spirrow_prismind/models/summary.py:48 | a zero-padded field has exactly its width in digits |
| Strings.ZeroPadValue | src/spirrow_prismind/models/summary.py:48 | reading back a zero-padded number gives the number |
| Dict.Keys | tests/mocks/mock_rag.py:209 | the keys in insertion order, one per entry |
| Dict.Get | tests/mocks/mock_rag.py:145 | `d.get(k)` is None exactly when k is not a key, and otherwise a value stored under k |
| Dict.Put | tests/mocks/mock_rag.py:67 | after `d[k] = v`, k reads v and every other key reads as before |
| Dict.Remove | tests/mocks/mock_rag.py:123 | after `del d[k]`, k is absent and every other key reads as before |
| Dict.ToMap | tests/mocks/mock_rag.py:145 | the unordered view has exactly the dict's keys, each with the value the dict gives it |
| Sheet.Cell | src/spirrow_prismind/tools/progress_tools.py:290-291 | `row[i] if len(row) > i else default`: the cell when the row reaches it, the default otherwise |
| Sheet.SetCell | src/spirrow_prismind/tools/progress_tools.py:316-317 | writing one cell keeps the row length and every other cell |
| Json.StrList | src/spirrow_prismind/integrations/rag_client.py:629 | a list of strings stored as metadata has one item per string |
| Json.StrListRoundTrip | src/spirrow_prismind/integrations/rag_client.py:629-686 | the tag list reads back as the list written |

## Left out

- Transport and plumbing: the MCP tool schemas and dispatch of `server.py`, JSON serialisation of results, OAuth credential loading and the interactive authorisation script are not part of this model.
- The Google Sheets and Drive clients are abstract stores: a sheet range is a grid of string cells, and a Drive folder listing, a created folder or a created spreadsheet is a parameter; their HTTP calls are not modelled.
- HTTP in the RAG and Memory clients (`_make_request`, `_check_connection`, `_ensure_collection_exists`) is not modelled: each backing service is up, down at start-up or failing every request (ProjectRegistry), and the server-side distance-to-score conversion is replaced by the reference index's word-overlap score.
- The network probes of the setup tools (`check_services_status`, `get_connection_info` and their helpers) measure latency over HTTP and are not modelled; nor is `export_server_config`, which only renders the loaded file as text.
- File persistence is not modelled: the fallback JSON file of the project tools and the TOML load and save are values and flags (loading gives a value, saving a success flag), and the global document-type JSON file is a value whose save is assumed to succeed (see GlobalDocTypes.Register below); `setup_logging` and all logging calls are left out because they change no state the model observes.
- Messages: the Japanese and English message strings of results and errors are not modelled; results keep their flags, ids, counts and lists.
- Floats are modelled as exact `real` numbers (similarity scores, retry delays and jitter), so rounding of floating point is not modelled.
- Declaration-only modules (`models/document.py`, `models/setup.py`, `models/knowledge.py`) and the `__init__` files hold no logic beyond records; the records the tools use are declared where they are used.
- Concurrency: the code has none; the class-level fallback dictionaries are modelled as one shared value passed to and returned by every operation.
- Retry.Wrapper: the jitter fraction drawn from `random.random()` is a parameter per sleep and `time.sleep` is recorded rather than performed; the wrapped call is given as its sequence of outcomes.
- ProjectTools.SetupProject: in auto-create mode the code creates the Drive project folder and its spreadsheet before the duplicate-id, duplicate-name and similarity gates, so a registration stopped by a gate leaves those files behind in Drive; the model takes the created ids as a parameter and states only that the registry is unchanged.
- ProjectTools.SetupProject: the sheet templates the registration writes into the new spreadsheet are modelled by `Summary` alone; the writes themselves are Sheets calls and are not modelled.
- Exceptions: where the code lets an exception escape, the model returns `None` or `Err` without its type or message. This affects SetupTools.Configure, SetupTools.ImportServerConfig, SetupTools.CheckValue (the `Raises` verdict), ProjectModel.FromRagDocument, SessionModel.FromDict, CatalogRepository.UpdateEntry and CatalogRepository.DeleteEntry; Retry.Wrapper keeps the raised failure as a value. Exceptions the code catches and reports as failure are modelled only where listed; the lines below name the operations whose caught failures are not.
- CatalogTools.SyncIdempotent: stated only for stores holding at most 1000 catalog entries of the project, because `delete_catalog_entries_by_project` deletes at most the first 1000 matches; beyond that a re-sync leaves older entries behind.
- RagClient.DeleteCatalogEntriesByProject: the 1000-entry cap is modelled, and RagClient.DeleteCatalogEntriesEffect states that no entry of the project remains only under the same cap.
- Json.StrField: a metadata or dictionary value of another JSON type than string reads as the default, where Python would return the value itself; this affects ProjectModel.FromRagDocument, MemoryClient.FromDict, SessionModel.FromDict, KnowledgeTools.ToEntry, CatalogTools.SearchCatalogTool and the project summaries of ProjectTools.ListProjects.
- KnowledgeTools.ToEntry: tags stored as a string are read by the comma-separated fallback only (the `json.loads` attempt is not modelled), and a tag list holding non-string items reads as no tags, where Python keeps the list as it is.
- AppConfig.FromDict: a section or key holding a value of the wrong type is rejected, where Python would store the value as it is and fail later; the same holds for AppConfig.GoogleFrom, AppConfig.ServicesFrom, AppConfig.LogFrom and AppConfig.SessionFrom, whose "exactly when" clauses state the model's typing rule rather than Python's behaviour.
- One `now` per operation: where the code calls `datetime.now()` several times in one operation, the model uses one clock reading, so stamps taken microseconds apart are equal. This affects ProjectTools.SetupProject (the creation stamp, the save stamp and the switch stamp), ProjectTools.ListProjects (every summary without a stamp gets the same `now`), ProjectTools.UpdateProject, CatalogTools.SyncCatalog (every rebuilt entry gets the same stamp), SessionTools.StartSession and SessionTools.EndSession. DocumentTools.UpdateDoc takes its two readings as two parameters.
- Clock.ParseIso: reads the naive stamps the program writes (date, optional time, optional 3- or 6-digit fraction); a UTC offset reads as unparseable, where Python accepts it (and from Python 3.11 also a "Z" suffix and other fraction lengths). This affects CatalogModel.UpdatedAt, ProgressModel.CompletedAt, SessionModel.FromDict, ProjectModel.Timestamp and ProjectTools.Summarize on stamps written by other programs.
- Clock.ElapsedSeconds: computed exactly on microseconds; `total_seconds()` goes through a float, which truncates to the same whole number of seconds for durations under about a century.
- Strings.LowerChar, Strings.Upper, Strings.IsAlnum, Strings.IsDigit: ASCII only; Python's `lower`, `upper`, `isalnum` and `isdigit` also map and accept non-ASCII letters and digits (full-width digits, accented capitals).
- Strings.DigitsOf: keeps ASCII digits only, so SessionTools.PhaseTaskKey builds no key for a phase written with full-width digits such as "フェーズ１", where Python's `isdigit` accepts them.
- Strings.ParseInt: accepts ASCII digits with one sign and surrounding whitespace; Python's `int` also accepts underscores between digits and non-ASCII digits. This affects SetupTools.CheckValue, SetupTools.Converted and SetupTools.Configure for `positive_int` settings.
- CatalogRepository.Search: the case-insensitive keyword match folds ASCII letters only.
- RagIndex.Similarity: the query and content are lower-cased with ASCII folding before they are split into words.
- KnowledgeTools.QueryIn: the case-insensitive containment test of cached entries folds ASCII letters only.
- SetupTools.CheckValue: the `log_level` check upper-cases ASCII letters only.
- GlobalDocTypes.Normalise: lower-cases ASCII letters only.
- DocumentTools.ValidTypeIdMeaning: a type id is accepted when it is ASCII letters, digits and underscores; Python's `isalnum` also accepts other Unicode letters and digits.
- Keywords.IsUpper: ASCII capitals only, so Keywords.Technical sees CamelCase only in ASCII words, and the common-word test of Keywords.GenerateTags folds ASCII only.
- KnowledgeTools.AddKnowledge: the RAG write is assumed to succeed, and the read-back through `get_document` and the write to the recent-knowledge cache of the Memory server are not modelled; the cache contents a search merges are a parameter of KnowledgeTools.SearchKnowledge.
- GlobalDocTypes.FindSimilarWithScore: the semantic search through RAG is an oracle parameter (a match with its score, or none); only the local fallback is modelled, together with the choice between the two.
- GlobalDocTypes: `get`, `exists` and `get_all` are `Dict.Get`, key membership and the list of values of the store, and have no members of their own; the singleton construction, `reload` and the RAG sync are left out.
- DocumentTools: `create_document` (a Docs document, a Drive move and a catalog row), `get_documents_by_feature` and `get_document_by_phase_task` are not modelled beyond the catalog row (DocumentTools.CatalogRow) and the catalog search they use (RagClient.SearchCatalog); the Docs text edit of DocumentTools.UpdateDoc is a success flag; the Drive folder created for a new document type is a parameter of DocumentTools.RegisterType, and saving the project configuration is a flag.
- GoogleDocs.ApplyInsert: the Docs API is modelled only for `insertText` on the body text; `replace_all_text`, `update_title` and paragraph styling are not executed, and the heading style request is checked for its range and level only.
- MemoryClient: `get_all_sessions_for_project`, `delete_session_state` and `current_session_duration` of the session tools are not modelled; they read or delete one key the modelled operations already cover.
- ProgressRepository: `_ensure_project_sheet` is modelled by ProgressRepository.EnsureProjectSheet, but the spreadsheet id read from the `PROGRESS_SHEET_ID` environment variable is a parameter, and the repository's read and write operations take the sheets as given without creating a missing one first.
- MemoryClient.AsObj: a stored Memory value that is not a JSON object reads as the empty object, so MemoryClient.GetSessionState and MemoryClient.GetCurrentProject decode it to the all-defaults record (and the session scans of MemoryClient.SessionsForUserAsWritten likewise), where Python's `from_dict` would raise.
- CatalogTools.SyncCatalog: the RAG clear and the rebuild are taken to succeed; an exception raised inside the `try` is caught at src/spirrow_prismind/tools/catalog_tools.py:271-277 and reported as a failed sync with no count, and that path is not modelled.
- CatalogTools.SearchCatalogTool: RAG is taken to answer, so the failed-search result of src/spirrow_prismind/tools/catalog_tools.py:97-103 is not modelled; the same holds for KnowledgeTools.SearchKnowledge and its failed-search result at src/spirrow_prismind/tools/knowledge_tools.py:181.
- ProgressTools.UpdateTaskStatus: a Sheets read or write that raises inside the tool's `try` is not modelled, and neither is the failed result the `except` clause returns; the same holds for ProgressTools.GetProgress, ProgressTools.GetTask, ProgressTools.DeleteTask, ProgressTools.UpdateTask, ProgressTools.CompleteTask, ProgressTools.StartTask and ProgressTools.BlockTask. Only ProgressTools.AddTaskAsWritten yields that failure (`Raised`), because there the raise does not depend on the Sheets service.
- GlobalDocTypes.Register: the JSON save is assumed to succeed; Python's `_save` re-raises a failed write after the in-memory table has already changed (src/spirrow_prismind/tools/global_document_types.py:126-142), so a failed save leaves the change in memory and raises to the caller. The same holds for GlobalDocTypes.Update and GlobalDocTypes.Delete.

## Findings

| source | as written | input that shows it | evidently intended | confidence | as-written member | corrected member |
|---|---|---|---|---|---|---|
| src/spirrow_prismind/repositories/catalog_repository.py:117-123 | `update_entry` locates the row with `find_row_by_value` over the whole A:Z range, header row included (src/spirrow_prismind/integrations/google_sheets.py:273-277), and overwrites the first row whose column C equals the id; `delete_entry` goes through it | a catalog sheet `[headers, row]` whose data row has the document id "ID", the header's column-C label: updating or deleting that entry rewrites the header row and leaves the data row unchanged | only data rows below the header are candidates, so the entry's own row is rewritten and the header is kept | not executed; follows from the two functions as written for a document whose id is "ID" | CatalogRepository.UpdateEntryAsWritten, CatalogRepository.HeaderOverwritten, CatalogRepository.DeleteEntryAsWritten, CatalogRepository.DeleteOverwritesHeader | CatalogRepository.UpdateEntry, CatalogRepository.DeleteEntry |
| src/spirrow_prismind/integrations/memory_client.py:459-470 | `get_all_sessions_for_user` keeps every session key ending in `:{user}` | user "c" and a store holding the session of project "a" and user "b:c" under `prismind:session:a:b:c`: the suffix test passes and user "c" receives that session | only sessions that belong to the requested user are returned | not executed; needs a user name containing ':' | MemoryClient.SessionsForUserAsWritten, MemoryClient.SessionsForUserSuffixClash | MemoryClient.SessionsForUser |
| src/spirrow_prismind/tools/progress_tools.py:453-462 | `add_task` builds `TaskProgress(..., priority=..., category=..., blocked_by=...)`, but the dataclass declares no such fields (src/spirrow_prismind/models/progress.py:9-17), so the constructor raises `TypeError`; the `except` clause at lines 480-487 turns it into a failed result before anything is appended | any `add_task` call on a project whose progress sheet exists, such as adding task "T03" to "Phase 1" | the task is appended as a ten-cell A:J row carrying priority, category and blocked_by in columns H to J, and the tool reports success | not executed; follows from the dataclass declaration and the keyword arguments as written | ProgressTools.AddTaskAsWritten, ProgressTools.AddTaskNeverAppends | ProgressTools.AddTask, ProgressTools.AddedBook |
| src/spirrow_prismind/tools/document_tools.py:541-544 | `list_document_types` reads `config.document_types`, and `register_document_type` (line 607) and `delete_document_type` (line 718) do the same, but `ProjectConfig` declares no such attribute (src/spirrow_prismind/models/project.py:38-54), so each raises `AttributeError` once a project is configured; `get_document_type` goes through the listing | any configured current project: listing the types, looking one up, or registering or deleting a new valid id | the project configuration carries the list of custom types that registration appends to and saves under `document_types` | not executed; follows from the dataclass declaration and the attribute reads as written | DocumentTools.ListTypesAsWritten, DocumentTools.GetDocumentTypeAsWritten, DocumentTools.RegisterTypeAsWritten, DocumentTools.DeleteTypeAsWritten, DocumentTools.CustomTypesUnreachable | DocumentTools.ListTypes, DocumentTools.GetDocumentType, DocumentTools.RegisterType, DocumentTools.DeleteType |

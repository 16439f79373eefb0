# PostgresDB persistence core, in Dafny

This project models the persistence logic of `PostgresDB` in `src/pgdb.py`. That is the code which stores podcast
RSS entries in five PostgreSQL tables:

- `podcast_item`
- `podcast_author`
- `podcast_keyword`
- `podcast_author_map`
- `podcast_keyword_map`

The database is replaced by an in-memory store. Each SQL statement becomes a function giving its effect on the
tables, together with the constraint errors it can raise. The model proves what the code promises about these tables.

- `common.dfy`: `Option` and `Result`.
- `feed.dfy` (module `Feed`): the shape of a parsed feed entry, with every attribute optional as in `feedparser`.
  It also holds Python's `str.split` on `", "`: its round trip with `join`, and that no piece contains the separator.
- `schema.dfy` (module `Schema`): the five tables as one `State`.
  - The `podcast_item` rows live in a map keyed by the uuid guid. Authors and keywords live in maps keyed by their
    unique name. The link tables are sets of `(item id, target id)` pairs, which is their composite primary key.
  - `State` also records which tables exist and the three SERIAL counters.
  - The invariant `Valid` covers four things: ids unique and below their counter, every link naming an existing item
    and an existing author or keyword, empty missing tables, and link tables only where their referenced tables exist.
  - Each statement `insert_items`, `delete_item` and `create_cv_tables` issues is a function, with a lemma that it
    keeps `Valid` and says exactly what it changed.
- `ingest.dfy` (module `Ingest`): what `insert_items` does to the tables, as left folds.
  - `IngestAll` folds over the entries, `IngestEntry` handles one entry, and `LinkAll` does get-or-create plus link
    for the authors or tags.
  - The lemmas cover skipping stored guids, idempotent re-ingestion, get-or-create, when linking fails, and
    referential integrity.
- `store.dfy` (module `PgStore`): class `Store`, holding the committed tables and the open transaction.
  - Its methods issue the statements one by one.
  - `InsertItems` uses the entry loop and the nested author and keyword loops of the source. `DeleteItem` and
    `CreateCvTables` follow their source bodies.
  - Each method is proved against the specification functions above.
- `pool.dfy` (module `Pool`): the connection-borrowing wrapper `with_db_connection` as a state machine over an
  abstract pool.
  - `getconn` may fail. `putconn(close=True)` refuses a connection the pool did not lend. The probe and the reset
    probe are answered by a `Script`.
  - Both the wrapper as written and a corrected wrapper are modelled; see Findings.
- `postgres_db.dfy` (module `Database`): class `PostgresDB`. Its three operations run the store method under the
  corrected wrapper. Their contracts also state what the wrapper as written does: it raises the same way and leaves
  the same connections lent, and it makes the same pool calls except on the input of the finding. Putting a
  connection back closed discards any transaction it left open.

The library calls are parameters:

- `uuid.UUID` normalisation, `datetime.strptime`, and the database's text-to-uuid cast are abstract partial
  functions (`Parsers`, `castUuid`).
- The pool's answers and the probe results are a `Script`.

Where the code behaves in ways a reader may not expect, the model follows the code:

- An author field that is present but empty gives one author `""`, because Python's `"".split(", ")` is `[""]`
  (`Feed.SplitEmptyAuthor`). It does not give an empty list.
- Several problems raise inside the loop and so abort the whole batch instead of skipping one entry:
  - a missing `guid` or `title`;
  - a guid `uuid.UUID` rejects;
  - a `published` date that does not parse;
  - an empty `content` list;
  - a tag without `term`.
- `delete_item` compares uuid values, not exact text. The `guid` column is of type uuid, so PostgreSQL casts the
  argument. Text that is not a uuid is an error, which is rolled back and reported. The table is resolved before
  the literal is cast, so a missing `podcast_item` table is the fault reported even for such text.

## Model

| member | source | states |
|---|---|---|
| Feed.SplitJoin | src/pgdb.py:201 | splitting on a separator yields at least one piece, joining the pieces gives back the original text, and no piece contains the separator |
| Feed.SplitEmptyAuthor | src/pgdb.py:201 | a present but empty `author` field splits into the single name `""` |
| Feed.AuthorNames | src/pgdb.py:201 | no `author` attribute gives no authors; otherwise at least one name, no name contains `", "`, and the names joined by `", "` are the field |
| Ingest.ItemColumns | src/pgdb.py:177-193 | building the row fails exactly when the title is missing, a present `published` does not parse, or `content` is an empty list; otherwise every text column is its entry field or NULL when the field is absent, the date is the parsed `published`, the content is the first content value, the explicit flag is whether the field is `"true"`, and the enclosure columns are those of the first enclosure, all NULL when there is none |
| Ingest.AsNamesAt | src/pgdb.py:201-202 | the k-th name the author loop handles is the k-th split piece |
| Ingest.TermsAt | src/pgdb.py:213-215 | the k-th keyword the tag loop handles is the k-th tag's `term`, absent when the tag has none |
| Schema.InsertItemKeepsValid | src/pgdb.py:87-106 | a successful item insert adds one row under a guid not stored before, with a fresh id; nothing else changes and the invariant holds |
| Schema.InsertNameKeepsValid | src/pgdb.py:107-114 | `ON CONFLICT DO NOTHING RETURNING id` returns an id exactly when the name was new; the new name gets the counter's next value, which no other row has; an existing name is left as it is; the counter advances either way |
| Schema.InsertLinkKeepsValid | src/pgdb.py:115-124 | a successful link insert adds exactly that pair to its link table and keeps referential integrity |
| Schema.DeleteItemCascades | src/pgdb.py:116-122 | deleting by guid fails only when the item table is missing; otherwise it removes that item, reports 1 or 0 rows, removes exactly that item's author and keyword links, leaves authors and keywords alone, changes nothing for an absent guid, and keeps the invariant |
| Schema.CreateTablesKeepsValid | src/pgdb.py:78-127 | after `create_cv_tables` all five tables exist and the invariant holds |
| Schema.CreateWithoutDropKeepsRows | src/pgdb.py:86-126 | without `drop`, every existing row is left untouched |
| Schema.CreateWithDropEmpties | src/pgdb.py:80-126 | with `drop`, all five tables exist and are empty |
| Schema.CreateTablesIdempotent | src/pgdb.py:86-126 | creating the tables again without `drop` changes nothing |
| Ingest.LinkOneGetOrCreate | src/pgdb.py:147-157 | get-or-create for one name: the name table is unchanged if the name was present, or gains exactly that name with a fresh id; the link table gains exactly the link from the item to that name's id; the other facet is untouched |
| Ingest.LinkOneFailsIff | src/pgdb.py:202-223 | linking one name fails exactly when the name exists and the item is already linked to it, which is a primary key violation |
| Ingest.LinkAllEffect | src/pgdb.py:202-223 | after a successful author or tag loop every name in the list exists and is linked to the item; the only new links are the item's; no name was renamed or removed |
| Ingest.LinkAllNames | src/pgdb.py:202-223 | after a successful author or tag loop the names are exactly the old names plus the names in the list, so each absent name gets exactly one new row and no other name is added |
| Ingest.LinkAllHitsLinked | src/pgdb.py:202-223 | the loop raises when it meets a name the item is already linked to |
| Ingest.LinkAllSucceedsIff | src/pgdb.py:201-223 | for a fresh item the author or tag loop succeeds exactly when every name is present and no name repeats; a repeat violates the link table's primary key (lines 118 and 123) |
| Ingest.FreshIdUnlinked | src/pgdb.py:194-200 | an item id not yet stored has no links |
| Ingest.IngestEntrySkipsStored | src/pgdb.py:169-176 | an entry whose normalised guid is already stored changes nothing |
| Ingest.AddEntryEffect | src/pgdb.py:177-223 | a new entry adds one item with a fresh id and its columns, links it to every author and keyword of the entry, adds no other links, keeps the invariant, and only grows the tables |
| Ingest.AddEntryNames | src/pgdb.py:201-223 | a new entry leaves as authors exactly the old authors plus its split author names, and as keywords exactly the old keywords plus its tag terms |
| Ingest.AddEntrySucceedsIff | src/pgdb.py:194-223 | with all tables present and a valid row, storing a new entry succeeds exactly when its authors and tag terms are present and free of repeats |
| Ingest.IngestEntryEffect | src/pgdb.py:169-223 | after one entry succeeds its normalised guid is stored, the tables only grew, and the invariant holds |
| Ingest.IngestAllEffect | src/pgdb.py:169-225 | after a successful batch every entry's normalised guid is stored, the tables only grew, and the invariant holds |
| Ingest.AllStoredSkips | src/pgdb.py:169-176 | a batch whose guids are all stored changes nothing |
| Ingest.IngestTwiceAddsNothing | src/pgdb.py:169-176 | ingesting the same feed a second time adds nothing |
| Ingest.IngestAllAppend | src/pgdb.py:169-225 | the batch processes its entries in order and stops at the first that raises |
| Ingest.RepeatedGuidSkipped | src/pgdb.py:169-176 | a later entry repeating an earlier guid of the same feed changes nothing |
| Ingest.DeleteUndoesAddEntry | src/pgdb.py:229-237 | deleting an item just added removes exactly that item and its links; the author and keyword rows it created stay |
| PgStore.Store.InsertItem | src/pgdb.py:194-200 | the item insert statement, inside the open transaction |
| PgStore.Store.InsertName | src/pgdb.py:203-204 | the `ON CONFLICT DO NOTHING` insert of an author or keyword, inside the open transaction |
| PgStore.Store.InsertLink | src/pgdb.py:210 | the link insert statement, inside the open transaction |
| PgStore.Store.SelectItemId | src/pgdb.py:172-173 | the guid lookup returns the stored item's id, or none |
| PgStore.Store.SelectNameId | src/pgdb.py:206-207 | the name lookup returns the stored id, or none |
| PgStore.Store.LinkName | src/pgdb.py:203-210 | one turn of the author or keyword loop, with the effect `LinkOne` specifies |
| PgStore.Store.LinkAuthors | src/pgdb.py:201-210 | the author loop has the effect `LinkAll` specifies on the split names |
| PgStore.Store.LinkKeywords | src/pgdb.py:213-223 | the keyword loop has the effect `LinkAll` specifies on the tag terms |
| PgStore.Store.InsertItems | src/pgdb.py:130-226 | when the batch succeeds the committed tables become the fold's result; when any entry raises, its fault is returned and the committed tables are exactly as before |
| PgStore.Store.DeleteItem | src/pgdb.py:229-247 | a missing item table is reported first, then text that is not a uuid, and neither changes anything committed (the table is resolved before the literal is cast); otherwise the cascading delete is committed and reports deleted or not found; no transaction is left open |
| PgStore.Store.CreateCvTables | src/pgdb.py:78-127 | the committed tables become those of the optional drop followed by create-if-missing |
| PgStore.Store.Commit | src/pgdb.py:225 | `connection.commit()` makes the open transaction the committed state |
| PgStore.Store.Rollback | src/pgdb.py:244 | `connection.rollback()` discards the open transaction |
| Pool.BorrowReleasesEachOnce | src/pgdb.py:40-63 | whatever the pool, the probes and the body do, the corrected wrapper (connection cleared after the put at line 50) calls `getconn` at most twice, puts every connection it got back exactly once, puts nothing else, lends nothing out when done, and raises exactly when acquiring or the body raised |
| Pool.CallShapes | src/pgdb.py:40-63 | the four call sequences the wrapper can make are each balanced |
| Pool.BorrowAsWrittenDiffers | src/pgdb.py:49-63 | the wrapper as written raises exactly when the corrected one does and leaves the same connections lent; its pool calls are the same except when the probe finds the connection stale and the reset's `getconn` raises, where the stale connection is put back twice more and both puts are refused |
| Pool.StaleResetDoubleRelease | src/pgdb.py:49-63 | on a fresh pool that case makes the calls get, put, failed get, refused put, refused put |
| Pool.ConnectionPool.GetConn | src/pgdb.py:42 | `getconn` lends a new connection or raises |
| Pool.ConnectionPool.PutConn | src/pgdb.py:50 | `putconn(close=True)` takes back a lent connection and refuses any other |
| Pool.ConnectionPool.AcquireAsWritten | src/pgdb.py:40-53 | the `try` prefix as written, step by step |
| Pool.ConnectionPool.Acquire | src/pgdb.py:40-53 | the `try` prefix with the stale connection cleared after it is put back |
| Pool.ConnectionPool.Release | src/pgdb.py:55-63 | the pool and the raised flag after the handlers are those of `ReleaseSteps`, which on a raise puts the connection back and clears it only when the put is accepted, then puts back in `finally` whatever is still held, and raises when a put is refused |
| Database.PostgresDB.InsertItems | src/pgdb.py:130-226 | `insert_items` under the corrected wrapper, which agrees with lines 37-65 as written on raising and lent connections: the feed is committed only when a connection was obtained and every entry went through, otherwise the call raises and the tables are unchanged; the pool ends with the connections it had lent before |
| Database.PostgresDB.DeleteItem | src/pgdb.py:229-247 | `delete_item` under the corrected wrapper, which agrees with lines 37-65 as written on raising and lent connections: raises only when no connection could be had; otherwise a missing item table is reported before an invalid uuid, and the delete's result and committed effect are those of the store's delete; no connection leaks |
| Database.PostgresDB.CreateCvTables | src/pgdb.py:78-127 | `create_cv_tables` under the corrected wrapper, which agrees with lines 37-65 as written on raising and lent connections: the schema changes exactly when a connection was obtained; no connection leaks |

No two items can share a guid, and no two authors or keywords can share a non-NULL name: the tables are maps keyed
by those columns, so the UNIQUE constraints hold by construction. Ids are unique by the invariant `Schema.Valid`.
NULL names are not modelled; see below.

## Left out

- The psycopg2 `ThreadedConnectionPool` internals, threads, `_create_connection_pull` and `_close_connection_pull`
  (src/pgdb.py:251-285): foreign library code and environment configuration. The pool is the abstract `Pool` model.
- `ping`, logging and `print` (src/pgdb.py:70-75, src/pgdb.py:239-245): output only. The deleted and not-found
  messages become the `Deletion` result.
- `upload_all` (src/pgdb.py:288-300): orchestration of downloading, printing and storing.
- `src/downloader.py`, `src/feed_printer.py`, `src/logger.py` and `src/main.py` are not part of this model: network,
  disk and console I/O.
- Real uuid parsing, date parsing and the uuid cast: these are abstract partial functions.
- The column types BIGINT, INTERVAL, INT and TIMESTAMP: the database casts the stored text to these types. The model
  keeps the text. So a value the database would refuse to cast does not raise here. Also, the ISO date with its UTC
  offset (src/pgdb.py:179-180) is kept whole, although casting it to TIMESTAMP drops the offset.
- A tag whose `term` key is present but holds None: the source inserts a NULL keyword (src/pgdb.py:215-216). UNIQUE
  never matches NULLs, so every such tag adds a new `podcast_keyword` row and the loop goes on. The model's `Tag` only
  tells a term that is there from a missing key, which raises, so this case cannot be expressed.
- Database faults other than a missing table, a unique violation and a foreign-key violation: lost connections,
  disk errors and serialisation failures mid-statement are not modelled.
- The SERIAL counters roll back with the transaction. PostgreSQL sequences do not roll back, so the real ids may
  have gaps the model does not produce. The model does keep the gap left by `ON CONFLICT DO NOTHING`, which consumes
  a value.
- Concurrent calls on the same `PostgresDB` from several threads.
- Database.PostgresDB.InsertItems: runs under the corrected wrapper. On the input of the finding, the source instead
  makes two refused puts and raises PoolError. The contract states only that the call raises and leaves the same
  connections lent; `Pool.StaleResetDoubleRelease` gives the exact pool calls of that path.
- Database.PostgresDB.DeleteItem: the same as for `InsertItems`, on the same input.
- Database.PostgresDB.CreateCvTables: the same as for `InsertItems`, on the same input.

## Findings

| source | as written | input that shows it | evidently intended | confidence | as-written member | corrected member |
|---|---|---|---|---|---|---|
| src/pgdb.py:49-63 | after the stale connection is put back at line 50, `connection` still names it while `getconn` is called again at line 51 | the probe raises OperationalError and the second `getconn` raises: the `except` puts the stale connection back again, the pool refuses it with PoolError, `finally` puts it a third time, and the original error is replaced | clear `connection` once it is put back, so that only a connection still held is put back and the original error propagates | not executed | Pool.StaleResetDoubleRelease | Pool.BorrowReleasesEachOnce |

# Songs-log warehouse statement catalog, modelled in Dafny

The songs-log ETL loads JSON event logs and song metadata from object
storage into a Redshift star schema. Two staging tables (`staging_events`,
`staging_songs`) feed one fact table (`songplays`) and four dimension
tables (`users`, `songs`, `artists`, `time`). All of the warehouse logic
sits in `sql_queries.py`. It holds one SQL statement per table and per
phase (DROP, CREATE, COPY, INSERT ... SELECT) and four ordered lists that
fix the order of each phase.

This project models that catalog in five modules:

- `Relational` (`relational.dfy`): the projection of a row list through a
  select list, and `SELECT DISTINCT`.
- `Catalog` (`catalog.dfy`): the seven tables and the REFERENCES edges of
  `songplays`. It also holds one value per statement constant and the four
  lists as sequences, with lemmas about the orders the lists fix.
- `Transforms` (`transforms.dfy`): the row types and the five INSERT ...
  SELECT queries, as functions from staging rows to inserted rows.
  - `users`, `songs` and `artists` are DISTINCT projections.
  - `time` is the distinct start times `epoch + ts/1000 s`, with the
    seconds truncated toward zero as BIGINT division does.
  - `songplays` is the NextSong-filtered join on artist name and title,
    without DISTINCT.
- `Warehouse` (`warehouse.dfy`): an abstract warehouse: the set of
  existing tables and the rows of each. `Exec` runs one statement and
  `Run` folds a list of statements, stopping at the first failure. The
  engine rules the lists rely on are made explicit:
  - DROP TABLE IF EXISTS ignores an absent table. It refuses to drop a
    table that another existing table references; there is no CASCADE.
  - CREATE TABLE needs every table it references.
  - Without IF NOT EXISTS, CREATE TABLE refuses an existing table. The
    four dimension tables are created without it.
  - COPY appends the records its source yields.
  - INSERT appends the query's rows. It checks the REFERENCES columns of
    the rows but not PRIMARY KEY uniqueness. It refuses a string longer
    than its VARCHAR column unless everything past the width is blanks,
    which the engine cuts off. The only column narrower than its source is
    a user's first and last name, VARCHAR(256) in `staging_events` and
    VARCHAR(128) in `users`.
  - A statement that fails stops the run and nothing is rolled back: the
    failed outcome carries the warehouse as the earlier statements left it.
- `Pipeline` (`pipeline.dfy`): theorems about running the lists:
  - each phase's result;
  - exactly when a list of drops or creates succeeds;
  - that a full run from any state ends with the computed dimension and
    fact rows, with every fact row's keys present, as long as every staged
    user name fits VARCHAR(128), and stops at the users insert otherwise;
  - a worked example.

`songs.artist_id` is declared only `NOT NULL` (`sql_queries.py:116`),
with no REFERENCES clause. `songplays` is therefore the only table with
REFERENCES, and its four edges are the only dependency edges.

## Model

| member | source | states |
|---|---|---|
| Relational.Project | sql_queries.py:210-224 | `SELECT f(row)`: one output row per input row, the image of every input row present, every output row the image of some input row, and each row occurring exactly as often as there are input positions mapped to it |
| Relational.Distinct | sql_queries.py:175 | DISTINCT: the result has no duplicate rows, holds exactly the rows of the input, and is no longer than the input |
| Relational.SelectDistinct | sql_queries.py:175-181 | `SELECT DISTINCT f(row)`: no duplicates, every input row's image is present, every output row is the image of some input row |
| Relational.SelectDistinctOfOne | sql_queries.py:175-181 | over a single row, SELECT DISTINCT yields that row's image alone |
| Catalog.References | sql_queries.py:83-87 | no contract; songplays references time, users, songs and artists and no other table references anything; used by CreateListRespectsReferences, DropListDropsReferencingFirst and the create and drop theorems |
| Catalog.CreateListRespectsReferences | sql_queries.py:246 | in the create list every table comes after each table it references; songplays is last, and all four tables it references come before it |
| Catalog.DropListDropsReferencingFirst | sql_queries.py:247 | in the drop list every table comes before each table it references; the list holds only drops |
| Catalog.DropAndCreateListsCoverAllTables | sql_queries.py:246-247 | the drop list and the create list each name all seven tables, each exactly once |
| Catalog.CopyListTargets | sql_queries.py:248 | the copy list holds two COPY statements, to staging_songs and then staging_events, both staging tables |
| Catalog.InsertListTargets | sql_queries.py:249 | inserts fill only non-staging tables and read only staging tables; users, songs, artists and time come before songplays, which is last |
| Transforms.StartTime | sql_queries.py:221 | `ts/1000` truncates toward zero: for ts >= 0, 1000*s <= ts < 1000*s + 1000; for ts < 0, 1000*s - 1000 < ts <= 1000*s <= 0 |
| Transforms.UsersInsert | sql_queries.py:173-182 | users rows: no duplicates, every staging event's 5-column projection is present (no page filter), every row is some event's projection |
| Transforms.SongsInsert | sql_queries.py:184-193 | songs rows: no duplicates, every staging song's projection is present, nothing else |
| Transforms.ArtistsInsert | sql_queries.py:195-204 | artists rows: no duplicates, every staging song's artist projection is present, nothing else |
| Transforms.TrimTrailingBlanks | sql_queries.py:100-101 | the trimmed value is a prefix of the value, everything cut off is blanks, and it does not end in a blank |
| Transforms.TrailingBlankIgnored | sql_queries.py:100-101 | appending a blank leaves the trimmed value, and so whether a name fits, unchanged |
| Transforms.UsersFitIff | sql_queries.py:100-101 | the users rows fit VARCHAR(128) first_name and last_name exactly when every staging event's names do |
| Transforms.TimeInsert | sql_queries.py:210-224 | no contract; described by TimeInsertRows and TimeOfOneEvent |
| Transforms.TimeInsertRows | sql_queries.py:210-224 | time rows: start_time is unique, every event's `epoch + ts/1000` start time has its decomposed row, and every row comes from some event |
| Transforms.EventPlays | sql_queries.py:237-241 | one event's rows number at most the staged songs; described by EventPlaysRows, EventPlaysAppend and EventPlaysCount |
| Transforms.SongplaysInsert | sql_queries.py:226-242 | no contract; described by SongplaysInsertRows, SongplaysCount, SongplaysEventsAppend and SongplaysSongsAppend |
| Transforms.EventPlaysRows | sql_queries.py:237-241 | one event's rows are the plays of exactly the staged songs it matches on artist name and title, with page NextSong |
| Transforms.SongplaysInsertRows | sql_queries.py:226-242 | every songplays row is the play of a matching (event, song) pair, and every matching pair gives its row: start time, user and level from the event, song, artist and location (the song's artist_location) from the song |
| Transforms.SongplaysOfOnePair | sql_queries.py:237-241 | a single (event, song) pair gives one row if it matches and none otherwise |
| Transforms.EventPlaysAppend | sql_queries.py:237-240 | one event's rows over songs a + b are its rows over a followed by its rows over b |
| Transforms.SongplaysEventsAppend | sql_queries.py:237-240 | the join over events a + b is the join over a followed by the join over b |
| Transforms.SongplaysSongsAppend | sql_queries.py:237-240 | as a bag, the join over songs a + b is the join over a plus the join over b; with the two lemmas above, each matching pair gives exactly one row |
| Transforms.EventPlaysCount | sql_queries.py:237-241 | one event's rows hold a row once per staged song index that matches the event and plays as that row |
| Transforms.SongplaysCount | sql_queries.py:226-242 | the join holds each row exactly as many times as there are index pairs (i, j) whose event i and staged song j match and play as that row |
| Transforms.SongplaysKeepDuplicateSongs | sql_queries.py:228 | without DISTINCT, a song staged twice gives a matching event two identical rows |
| Transforms.NextSongEvents | sql_queries.py:241 | the NextSong events: an event is kept exactly when it is a staging event with page NextSong |
| Transforms.SongplaysOnlyNextSong | sql_queries.py:241 | the join gives the same rows, in the same order, as the join of the NextSong events alone |
| Transforms.NoPlaysForOtherPages | sql_queries.py:241 | an event whose page is not NextSong gives no rows |
| Transforms.UsersRepeatIdOnLevelChange | sql_queries.py:99 | two events of one user_id with different levels give two users rows with the same user_id, despite the PRIMARY KEY |
| Transforms.DimensionsOfOneRow | sql_queries.py:173-204 | over one event and one song, each dimension insert yields exactly that row's projection |
| Transforms.TimeOfOneEvent | sql_queries.py:210-224 | over one event, the time insert yields the one decomposed row of its start time |
| Transforms.UserIdPresent | sql_queries.py:176 | every event's user_id is a user_id of the users rows |
| Transforms.StartTimePresent | sql_queries.py:221 | every event's start time is a start_time of the time rows |
| Transforms.SongIdPresent | sql_queries.py:187 | every staged song's song_id is a song_id of the songs rows |
| Transforms.ArtistIdPresent | sql_queries.py:198 | every staged song's artist_id is an artist_id of the artists rows |
| Transforms.PlayKeysPresent | sql_queries.py:229-233 | the play of an event and a song finds its start_time, user_id, song_id and artist_id in the dimension rows computed from the same staging rows |
| Transforms.EmptyDimensionBlocksKeys | sql_queries.py:83-87 | while any one dimension is empty, the fact rows find their keys exactly when there are none |
| Transforms.SongplaysReferentialIntegrity | sql_queries.py:83-87 | every songplays row finds all four REFERENCES keys in the dimension rows computed from the same staging rows |
| Warehouse.Load | sql_queries.py:153-168 | no contract; COPY appends the parsed records of a readable source to its staging table and fails on an unreadable one; described by LoadFrame and CopyPhase |
| Warehouse.Insert | sql_queries.py:173-242 | no contract; INSERT appends the query's rows, refuses users names longer than VARCHAR(128) past their trailing blanks, and songplays rows whose REFERENCES keys are missing; described by InsertFrame, InsertKeepsIntact, UsersFitIff, LongNameStopsInserts, SongplaysBeforeDimensionsFails and the insert steps |
| Warehouse.Exec | sql_queries.py:8-242 | no contract; DROP TABLE IF EXISTS, CREATE TABLE [IF NOT EXISTS], COPY and INSERT under the engine rules above; described by ExecFrame, ExecKeepsIntact, DropAbsentIsNoOp, DropsSucceedIff, CreatesSucceedIff and CreateWithoutDropFails |
| Warehouse.KeysPresentGrow | sql_queries.py:83-87 | a row whose keys are present stays so when the dimension tables only gain rows |
| Warehouse.InsertKeepsIntact | sql_queries.py:83-87 | an INSERT that succeeds keeps every songplays row's referenced rows present |
| Warehouse.LoadFrame | sql_queries.py:158-168 | a COPY that succeeds changes no table but its target |
| Warehouse.InsertFrame | sql_queries.py:173-242 | an INSERT that succeeds changes no table but its target |
| Warehouse.MissingSource | sql_queries.py:237-238 | the table an INSERT reports missing is one of its FROM tables, and absent |
| Warehouse.ExecFrame | sql_queries.py:8-14 | a statement that succeeds leaves every table other than the one it acts on unchanged, both its existence and its rows |
| Warehouse.ExecKeepsIntact | sql_queries.py:80-92 | a statement that succeeds never leaves a songplays row without its referenced rows |
| Warehouse.Run | sql_queries.py:246-249 | a list that fails, fails at one of its own statements |
| Warehouse.RunStopsAtFailure | sql_queries.py:246-249 | a failed run stopped at its first failing statement, k: the statements before k ran to completion and left exactly the failed outcome's warehouse, and statement k fails there with the reported error |
| Warehouse.RunKeepsIntact | sql_queries.py:80-92 | a list keeps the referential invariant, both when it runs to completion and in the warehouse it leaves when it fails |
| Warehouse.RunAppend | sql_queries.py:246-249 | running a + b is running a, then b if a completed |
| Pipeline.DropAbsentIsNoOp | sql_queries.py:8-14 | DROP TABLE IF EXISTS of an absent table succeeds and changes nothing |
| Pipeline.DropPhaseIdempotent | sql_queries.py:247 | running the drop list twice gives the same outcome as running it once |
| Pipeline.DropsOfAbsent | sql_queries.py:8-14 | with no table present, any list of DROP TABLE IF EXISTS statements succeeds and changes nothing |
| Pipeline.DropsSucceedIff | sql_queries.py:247 | a list of drops of distinct tables succeeds exactly when every existing table that references an existing dropped table is dropped earlier |
| Pipeline.DropReferencedFirstFails | sql_queries.py:247 | dropping a table songplays references, before songplays and while it exists, fails |
| Pipeline.ReferencingFirstIsDroppable | sql_queries.py:247 | a drop list naming every table, referencing tables first, can be run whatever tables exist |
| Pipeline.DropsRemove | sql_queries.py:8-14 | a completed run of drops leaves exactly the existing tables it does not name |
| Pipeline.DropPhase | sql_queries.py:247 | the drop list succeeds from any warehouse state and leaves no table |
| Pipeline.CreatesSucceedIff | sql_queries.py:246 | a list of creates of distinct absent tables succeeds exactly when each referenced table exists or is created earlier |
| Pipeline.CreateBeforeReferenceFails | sql_queries.py:246 | against an empty schema, a create list that puts a table before one it references fails |
| Pipeline.ReferencedFirstIsCreatable | sql_queries.py:246 | a create list holding every table its tables reference, referenced tables first, meets the success condition whatever tables exist |
| Pipeline.CreateKeepsEmpty | sql_queries.py:26-148 | a create that succeeds keeps empty tables empty and creates its table empty |
| Pipeline.CreatesKeepEmpty | sql_queries.py:26-148 | a completed run of creates keeps an empty table empty |
| Pipeline.CreatesAdd | sql_queries.py:26-148 | a completed run of creates leaves exactly the existing tables plus the ones it names, each newly created one empty |
| Pipeline.CreateListMeetsConditions | sql_queries.py:246 | the create list holds only creates of seven distinct tables, names every table, and creates each table after the tables it references |
| Pipeline.CreatePhase | sql_queries.py:246 | after the drop phase, the create list creates all seven tables, empty |
| Pipeline.CreateWithoutDropFails | sql_queries.py:97-98 | rerunning the create list while users exists fails at CREATE TABLE users, which has no IF NOT EXISTS; the staging tables are then present and every other table is as it was |
| Pipeline.StagingCreates | sql_queries.py:26-60 | the two staging creates, with IF NOT EXISTS, always succeed, add the staging tables and change no other table |
| Pipeline.CopyPhase | sql_queries.py:248 | with both sources readable, the copy list appends each source's records to its staging table; the two copies commute |
| Pipeline.FilledDimensionsHoldKeys | sql_queries.py:83-87 | once the dimensions hold the rows computed from the staging tables, every songplays row passes its REFERENCES checks |
| Pipeline.SongplaysStep | sql_queries.py:226-242 | when its REFERENCES checks pass, the songplays insert fills the empty fact table with the join's rows |
| Pipeline.UsersAndSongsSteps | sql_queries.py:173-193 | when every staged name fits VARCHAR(128), the users and songs inserts fill their empty tables with the rows computed from the staging tables |
| Pipeline.ArtistsStep | sql_queries.py:195-204 | the artists insert fills its empty table with the rows computed from staging_songs |
| Pipeline.TimeStep | sql_queries.py:210-224 | the time insert fills its empty table with the rows computed from staging_events |
| Pipeline.InsertPhase | sql_queries.py:249 | with every table present, dimensions and facts empty and every staged name within VARCHAR(128), the insert list fills the four dimensions and then songplays, whose REFERENCES checks pass |
| Pipeline.LongNameStopsInserts | sql_queries.py:100-101 | a staged user name longer than VARCHAR(128) makes the insert list fail at the users insert, leaving the warehouse unchanged |
| Pipeline.SongplaysBeforeDimensionsFails | sql_queries.py:249 | while any one dimension is empty, the songplays insert fails exactly when the join yields a row |
| Pipeline.StagingRunSucceeds | sql_queries.py:246-248 | from any warehouse state, with both sources readable, the drop, create and copy lists leave the seven tables, empty but for the staged records |
| Pipeline.FullRunSucceeds | sql_queries.py:246-249 | from any warehouse state, with both sources readable and every staged user name within VARCHAR(128), the four lists run to completion; the warehouse then holds the staged records, the dimension and fact rows computed from them, and every fact row's keys |
| Pipeline.LongNameStopsFullRun | sql_queries.py:246-249 | with a staged user name longer than VARCHAR(128), the run stops at the users insert with the seven tables created and staged and every dimension and fact table empty |
| Pipeline.ExampleRun | sql_queries.py:173-242 | one NextSong event and the song it plays give one row in each dimension and the one joined songplays row, located at the song's artist location |

## Left out

- The configuration file read and the `.format` interpolation into the COPY statements (`sql_queries.py:4-5`, `sql_queries.py:158-168`). The source URIs, the IAM role and the JSONPaths location are opaque strings in a `Config` value.
- The bulk-load behaviour of COPY: JSON parsing, the JSONPaths mapping, `maxerror as 100` and the region. Each source URI instead maps to the parsed records in an `ObjectStore` parameter. The tolerated error count is recorded in the statement but has no effect.
- The EXTRACT calendar decomposition (`sql_queries.py:213-219`). It is a `Calendar` function parameter from a start time to its date parts.
- The IDENTITY columns `event_id` and `songplay_id`, whose values the engine generates.
- Storage hints (DISTSTYLE, DISTKEY, SORTKEY, BACKUP NO), which do not affect row contents.
- SQL NULL. Every column is a plain value, so NULL keys in joins and DISTINCT are not modelled.
- REAL, DOUBLE PRECISION and DECIMAL values are opaque `Float` values compared only by equality. The conversions from DOUBLE `duration` to REAL and from REAL latitude and longitude to `DECIMAL(8,5)` are not modelled; the value is carried unchanged.
- Row order. Tables are sequences, but the order in which the engine produces the rows of a query carries no meaning in the model.
- The program that connects to the cluster and runs the lists is not part of this model. `Run` stands for running each list in order and stopping at the first error.
- Exec: the engine checks REFERENCES on INSERT. Redshift treats foreign keys as informational and does not check them when rows are inserted; this check is an assumption of the model. Refusing to DROP a table another table's foreign key depends on, without CASCADE, is the engine's own behaviour.
- Exec: PRIMARY KEY uniqueness is not enforced. Transforms.UsersRepeatIdOnLevelChange shows the users insert can repeat a user_id.
- Column widths other than the users names. Every other INSERT column is at least as wide as the staging column it comes from, so no other INSERT can overflow; the widths of the staging columns themselves, which COPY enforces, are not modelled, so a staged string may be of any length.
- Transforms.UsersFit: a name's length is counted in characters, whereas VARCHAR(n) counts the bytes of its UTF-8 encoding; a name of at most 128 characters with multi-byte characters can still be too long.
- Transforms.StartTime: a TIMESTAMP is an unbounded count of seconds. The engine's TIMESTAMP only spans 4713 BC to 294276 AD, so an event whose `ts` lies outside that range (possible for a BIGINT) makes the time and songplays inserts fail where the model computes a start time; Pipeline.TimeStep, Pipeline.InsertPhase and Pipeline.FullRunSucceeds inherit this and do not require `ts` to be in range.
- Transforms.NameFits: a blank-padded name that fits is stored with its blanks, where the engine cuts the value to 128 characters; since the engine ignores trailing blanks when it compares values, the difference shows only in a value's length.
- Transforms.IsPlay: strings are compared exactly. The engine ignores trailing blanks when it compares VARCHAR values, so an event and a song whose artist name or title differ only in trailing blanks match in the engine but not in the model; the same holds for the DISTINCT of the dimension inserts.
- The cluster set-up and S3 listing scripts, which are cloud API calls and floating-point arithmetic.

/**
 * The statement catalog of `sql_queries.py`: the seven tables, the foreign-key
 * edges declared by their CREATE statements, one statement value per
 * statement constant, and the four ordered statement lists.
 */
module Catalog {

  datatype Option<T> = None | Some(value: T)

  datatype Table =
    | StagingEvents
    | StagingSongs
    | Songplays
    | Users
    | Songs
    | Artists
    | Time

  /** Landing tables filled by COPY; every other table is filled by INSERT ... SELECT. */
  predicate IsStaging(t: Table) {
    t == StagingEvents || t == StagingSongs
  }

  /** The tables named by the REFERENCES clauses of `t`'s CREATE statement. */
  function References(t: Table): set<Table> {
    if t == Songplays then {Time, Users, Songs, Artists} else {}
  }

  /** How COPY maps JSON records to columns: a JSONPaths file, or matching by name. */
  datatype JsonFormat = JsonPaths(path: string) | JsonAuto

  /**
   * A bulk load from object storage. The source URI, role and JSONPaths
   * location are opaque strings; `maxError` is the tolerated number of
   * malformed records when the statement states one.
   */
  datatype CopySpec = CopySpec(
    target: Table,
    source: string,
    iamRole: string,
    format: JsonFormat,
    region: string,
    maxError: Option<nat>)

  /** The SELECT part of each INSERT ... SELECT statement. */
  datatype Query =
    | SelectUsers
    | SelectSongs
    | SelectArtists
    | SelectTime
    | SelectSongplays

  /** The table named after INSERT INTO. */
  function Target(q: Query): Table {
    match q
    case SelectUsers => Users
    case SelectSongs => Songs
    case SelectArtists => Artists
    case SelectTime => Time
    case SelectSongplays => Songplays
  }

  /** The tables named in the FROM clause. */
  function Sources(q: Query): set<Table> {
    match q
    case SelectUsers => {StagingEvents}
    case SelectSongs => {StagingSongs}
    case SelectArtists => {StagingSongs}
    case SelectTime => {StagingEvents}
    case SelectSongplays => {StagingEvents, StagingSongs}
  }

  datatype Statement =
    | DropTable(table: Table)                        // DROP TABLE IF EXISTS
    | CreateTable(table: Table, ifNotExists: bool)    // CREATE TABLE [IF NOT EXISTS]
    | Copy(spec: CopySpec)                           // COPY ... FROM
    | InsertSelect(query: Query)                     // INSERT INTO ... SELECT

  /** The one table a statement acts on. */
  function TableOf(s: Statement): Table {
    match s
    case DropTable(t) => t
    case CreateTable(t, _) => t
    case Copy(c) => c.target
    case InsertSelect(q) => Target(q)
  }

  /** The configuration values interpolated into the COPY statements. */
  datatype Config = Config(logData: string, logJsonPath: string, songData: string, iamRoleArn: string)

  const Region: string := "us-west-2"

  // DROP TABLES
  const StagingEventsTableDrop: Statement := DropTable(StagingEvents)
  const StagingSongsTableDrop: Statement := DropTable(StagingSongs)
  const SongplayTableDrop: Statement := DropTable(Songplays)
  const UserTableDrop: Statement := DropTable(Users)
  const SongTableDrop: Statement := DropTable(Songs)
  const ArtistTableDrop: Statement := DropTable(Artists)
  const TimeTableDrop: Statement := DropTable(Time)

  // CREATE TABLES: the staging tables and songplays say IF NOT EXISTS, the
  // four dimension tables do not.
  const StagingEventsTableCreate: Statement := CreateTable(StagingEvents, true)
  const StagingSongsTableCreate: Statement := CreateTable(StagingSongs, true)
  const SongplayTableCreate: Statement := CreateTable(Songplays, true)
  const UserTableCreate: Statement := CreateTable(Users, false)
  const SongTableCreate: Statement := CreateTable(Songs, false)
  const ArtistTableCreate: Statement := CreateTable(Artists, false)
  const TimeTableCreate: Statement := CreateTable(Time, false)

  // STAGING TABLES
  function StagingEventsCopy(cfg: Config): Statement {
    Copy(CopySpec(StagingEvents, cfg.logData, cfg.iamRoleArn, JsonPaths(cfg.logJsonPath), Region, None))
  }

  function StagingSongsCopy(cfg: Config): Statement {
    Copy(CopySpec(StagingSongs, cfg.songData, cfg.iamRoleArn, JsonAuto, Region, Some(100)))
  }

  // FINAL TABLES
  const UserTableInsert: Statement := InsertSelect(SelectUsers)
  const SongTableInsert: Statement := InsertSelect(SelectSongs)
  const ArtistTableInsert: Statement := InsertSelect(SelectArtists)
  const TimeTableInsert: Statement := InsertSelect(SelectTime)
  const SongplayTableInsert: Statement := InsertSelect(SelectSongplays)

  // QUERY LISTS
  const CreateTableQueries: seq<Statement> := [StagingEventsTableCreate, StagingSongsTableCreate, UserTableCreate,
                                               SongTableCreate, ArtistTableCreate, TimeTableCreate, SongplayTableCreate]
  const DropTableQueries: seq<Statement> := [StagingEventsTableDrop, StagingSongsTableDrop, SongplayTableDrop,
                                             UserTableDrop, SongTableDrop, ArtistTableDrop, TimeTableDrop]
  function CopyTableQueries(cfg: Config): seq<Statement> {
    [StagingSongsCopy(cfg), StagingEventsCopy(cfg)]
  }
  const InsertTableQueries: seq<Statement> := [UserTableInsert, SongTableInsert, ArtistTableInsert,
                                               TimeTableInsert, SongplayTableInsert]

  /** The tables a statement list acts on, in list order. */
  function TablesOf(stmts: seq<Statement>): seq<Table> {
    seq(|stmts|, i requires 0 <= i < |stmts| => TableOf(stmts[i]))
  }

  /** Every table in `ts` comes after every table of `ts` it references. */
  predicate ReferencedFirst(ts: seq<Table>) {
    forall i, j :: 0 <= i < |ts| && 0 <= j < |ts| && ts[j] in References(ts[i]) ==> j < i
  }

  /** Every table in `ts` comes before every table of `ts` it references. */
  predicate ReferencingFirst(ts: seq<Table>) {
    forall i, j :: 0 <= i < |ts| && 0 <= j < |ts| && ts[j] in References(ts[i]) ==> i < j
  }

  /** `ts` names each of the seven tables exactly once. */
  predicate EachTableOnce(ts: seq<Table>) {
    |ts| == 7 && (forall t: Table :: t in ts) && (forall i, j :: 0 <= i < j < |ts| ==> ts[i] != ts[j])
  }

  /**
   * The create list creates every table after the tables it references;
   * songplays, the only table with REFERENCES, is created last, and every
   * table it references is created by the list.
   */
  lemma CreateListRespectsReferences()
    ensures ReferencedFirst(TablesOf(CreateTableQueries))
    ensures TablesOf(CreateTableQueries)[6] == Songplays
    ensures forall t :: t in References(Songplays) ==> t in TablesOf(CreateTableQueries)[..6]
    ensures forall s :: s in CreateTableQueries ==> s.CreateTable?
  {
    var ts := TablesOf(CreateTableQueries);
    assert ts == [StagingEvents, StagingSongs, Users, Songs, Artists, Time, Songplays];
    assert ts[..6] == [StagingEvents, StagingSongs, Users, Songs, Artists, Time];
  }

  /** The drop list removes songplays before every table it references. */
  lemma DropListDropsReferencingFirst()
    ensures ReferencingFirst(TablesOf(DropTableQueries))
    ensures forall s :: s in DropTableQueries ==> s.DropTable?
  {
  }

  /** The drop list and the create list each name all seven tables, once each. */
  lemma DropAndCreateListsCoverAllTables()
    ensures EachTableOnce(TablesOf(DropTableQueries))
    ensures EachTableOnce(TablesOf(CreateTableQueries))
  {
    var drops := TablesOf(DropTableQueries);
    var creates := TablesOf(CreateTableQueries);
    assert drops == [StagingEvents, StagingSongs, Songplays, Users, Songs, Artists, Time];
    assert creates == [StagingEvents, StagingSongs, Users, Songs, Artists, Time, Songplays];
    forall t: Table
      ensures t in drops && t in creates
    {
      match t
      case StagingEvents => assert drops[0] == t && creates[0] == t;
      case StagingSongs => assert drops[1] == t && creates[1] == t;
      case Songplays => assert drops[2] == t && creates[6] == t;
      case Users => assert drops[3] == t && creates[2] == t;
      case Songs => assert drops[4] == t && creates[3] == t;
      case Artists => assert drops[5] == t && creates[4] == t;
      case Time => assert drops[6] == t && creates[5] == t;
    }
  }

  /** The copy list loads the two staging tables, songs first, and nothing else. */
  lemma CopyListTargets(cfg: Config)
    ensures forall s :: s in CopyTableQueries(cfg) ==> s.Copy? && IsStaging(TableOf(s))
    ensures TablesOf(CopyTableQueries(cfg)) == [StagingSongs, StagingEvents]
  {
  }

  /**
   * Inserts fill only non-staging tables and read only staging tables; the
   * four dimension inserts come before the songplays insert.
   */
  lemma InsertListTargets()
    ensures forall s :: s in InsertTableQueries ==> s.InsertSelect? && !IsStaging(TableOf(s))
    ensures forall s, t :: s in InsertTableQueries && t in Sources(s.query) ==> IsStaging(t)
    ensures ReferencedFirst(TablesOf(InsertTableQueries))
    ensures forall t :: t in References(Songplays) ==> t in TablesOf(InsertTableQueries)[..4]
    ensures TablesOf(InsertTableQueries)[4] == Songplays
  {
    var ts := TablesOf(InsertTableQueries);
    assert ts == [Users, Songs, Artists, Time, Songplays];
    assert ts[..4] == [Users, Songs, Artists, Time];
  }
}

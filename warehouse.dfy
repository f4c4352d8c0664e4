/**
 * An abstract warehouse that runs catalog statements: the set of existing
 * tables and every table's rows, one statement after another, stopping at
 * the first failure. The engine rules are those the catalog relies on:
 * DROP TABLE IF EXISTS ignores an absent table and refuses to drop a table
 * that another existing table references; CREATE TABLE needs every table
 * it references, and without IF NOT EXISTS refuses an existing table;
 * COPY and INSERT need their tables; an INSERT checks the REFERENCES
 * columns of its rows (the PRIMARY KEY columns are not checked).
 */
module Warehouse {
  import opened Catalog
  import opened Transforms

  datatype Error =
    | MissingReference(table: Table)     // CREATE before a table it references exists
    | AlreadyExists(table: Table)        // CREATE without IF NOT EXISTS of an existing table
    | DependentObjects(table: Table)     // DROP of a table an existing table references
    | NoSuchTable(table: Table)          // COPY or INSERT with an absent target or source table
    | BulkLoadFailed(source: string)     // COPY from a source that cannot be loaded
    | ForeignKeyViolation(table: Table)  // INSERT of a row whose referenced key is missing
    | ValueTooLong(table: Table)         // INSERT of a string longer than its VARCHAR column

  /** What each COPY source URI yields once its JSON records are parsed. */
  datatype ObjectStore = ObjectStore(eventLogs: map<string, seq<StagingEvent>>, songData: map<string, seq<StagingSong>>)

  /** What a run depends on outside the catalog: object storage and the engine's calendar. */
  datatype Env = Env(store: ObjectStore, calendar: Calendar)

  /** The warehouse: which tables exist, and the rows of each. */
  datatype Db = Db(
    tables: set<Table>,
    stagingEvents: seq<StagingEvent>,
    stagingSongs: seq<StagingSong>,
    songplays: seq<SongplayRow>,
    users: seq<UserRow>,
    songs: seq<SongRow>,
    artists: seq<ArtistRow>,
    time: seq<TimeRow>)

  datatype StepResult = Ok(db: Db) | Err(error: Error)

  /**
   * The outcome of a statement list: the final warehouse, or the statement
   * that failed, why, and the warehouse as the statements before it left it
   * (nothing is rolled back).
   */
  datatype Outcome = Done(db: Db) | Failed(statement: Statement, error: Error, db: Db)

  /** `t` holds no rows. */
  predicate IsEmpty(db: Db, t: Table) {
    match t
    case StagingEvents => db.stagingEvents == []
    case StagingSongs => db.stagingSongs == []
    case Songplays => db.songplays == []
    case Users => db.users == []
    case Songs => db.songs == []
    case Artists => db.artists == []
    case Time => db.time == []
  }

  /** `a` and `b` agree on whether `t` exists and on its rows. */
  predicate SameTable(a: Db, b: Db, t: Table) {
    && (t in a.tables <==> t in b.tables)
    && match t
       case StagingEvents => a.stagingEvents == b.stagingEvents
       case StagingSongs => a.stagingSongs == b.stagingSongs
       case Songplays => a.songplays == b.songplays
       case Users => a.users == b.users
       case Songs => a.songs == b.songs
       case Artists => a.artists == b.artists
       case Time => a.time == b.time
  }

  /** The warehouse with the rows of `t` removed. */
  function Cleared(db: Db, t: Table): (d: Db)
    ensures IsEmpty(d, t) && d.tables == db.tables
    ensures forall u :: u != t ==> SameTable(db, d, u)
  {
    match t
    case StagingEvents => db.(stagingEvents := [])
    case StagingSongs => db.(stagingSongs := [])
    case Songplays => db.(songplays := [])
    case Users => db.(users := [])
    case Songs => db.(songs := [])
    case Artists => db.(artists := [])
    case Time => db.(time := [])
  }

  /**
   * The referential invariant: when songplays exists, so does every table
   * it references, and each of its rows finds its keys there.
   */
  predicate Intact(db: Db) {
    Songplays in db.tables ==>
      && References(Songplays) <= db.tables
      && AllKeysPresent(db.songplays, db.users, db.songs, db.artists, db.time)
  }

  lemma KeysPresentGrow(p: SongplayRow, db: Db, d: Db)
    requires KeysPresent(p, db.users, db.songs, db.artists, db.time)
    requires forall u :: u in db.users ==> u in d.users
    requires forall s :: s in db.songs ==> s in d.songs
    requires forall a :: a in db.artists ==> a in d.artists
    requires forall t :: t in db.time ==> t in d.time
    ensures KeysPresent(p, d.users, d.songs, d.artists, d.time)
  {
    var u :| u in db.users && u.userId == p.userId;
    var s :| s in db.songs && s.songId == p.songId;
    var a :| a in db.artists && a.artistId == p.artistId;
    var t :| t in db.time && t.startTime == p.startTime;
    assert u in d.users && s in d.songs && a in d.artists && t in d.time;
  }

  /** COPY: appends the records the source yields to a staging table. */
  function Load(db: Db, c: CopySpec, store: ObjectStore): StepResult {
    match c.target
    case StagingEvents =>
      if c.source in store.eventLogs then Ok(db.(stagingEvents := db.stagingEvents + store.eventLogs[c.source]))
      else Err(BulkLoadFailed(c.source))
    case StagingSongs =>
      if c.source in store.songData then Ok(db.(stagingSongs := db.stagingSongs + store.songData[c.source]))
      else Err(BulkLoadFailed(c.source))
    case _ => Err(BulkLoadFailed(c.source))
  }

  /** INSERT ... SELECT: appends the query's rows to its target table. */
  function Insert(db: Db, q: Query, cal: Calendar): StepResult {
    match q
    case SelectUsers =>
      var users := UsersInsert(db.stagingEvents);
      if UsersFit(users) then Ok(db.(users := db.users + users))
      else Err(ValueTooLong(Users))
    case SelectSongs => Ok(db.(songs := db.songs + SongsInsert(db.stagingSongs)))
    case SelectArtists => Ok(db.(artists := db.artists + ArtistsInsert(db.stagingSongs)))
    case SelectTime => Ok(db.(time := db.time + TimeInsert(db.stagingEvents, cal)))
    case SelectSongplays =>
      var plays := SongplaysInsert(db.stagingEvents, db.stagingSongs);
      if AllKeysPresent(plays, db.users, db.songs, db.artists, db.time)
      then Ok(db.(songplays := db.songplays + plays))
      else Err(ForeignKeyViolation(Songplays))
  }

  /** An insert that succeeds keeps the referential invariant. */
  lemma InsertKeepsIntact(db: Db, q: Query, cal: Calendar)
    ensures Intact(db) && Insert(db, q, cal).Ok? ==> Intact(Insert(db, q, cal).db)
  {
    var r := Insert(db, q, cal);
    if Intact(db) && r.Ok? && Songplays in db.tables && q != SelectSongplays {
      forall p | p in r.db.songplays
        ensures KeysPresent(p, r.db.users, r.db.songs, r.db.artists, r.db.time)
      {
        KeysPresentGrow(p, db, r.db);
      }
    }
  }

  /** The first source table of `q`, in FROM order, that does not exist. */
  function MissingSource(q: Query, tables: set<Table>): (t: Table)
    requires !(Sources(q) <= tables)
    ensures t in Sources(q) && t !in tables
  {
    if StagingEvents in Sources(q) && StagingEvents !in tables then StagingEvents else StagingSongs
  }

  /** One statement against the warehouse. */
  function Exec(db: Db, st: Statement, env: Env): StepResult {
    match st
    case DropTable(t) =>
      if t !in db.tables then Ok(db)
      else if exists u :: u in db.tables && t in References(u) then Err(DependentObjects(t))
      else Ok(Cleared(db, t).(tables := db.tables - {t}))
    case CreateTable(t, ifNotExists) =>
      if t in db.tables then (if ifNotExists then Ok(db) else Err(AlreadyExists(t)))
      else if !(References(t) <= db.tables) then Err(MissingReference(t))
      else Ok(Cleared(db, t).(tables := db.tables + {t}))
    case Copy(c) =>
      if c.target !in db.tables then Err(NoSuchTable(c.target))
      else Load(db, c, env.store)
    case InsertSelect(q) =>
      if Target(q) !in db.tables then Err(NoSuchTable(Target(q)))
      else if !(Sources(q) <= db.tables) then Err(NoSuchTable(MissingSource(q, db.tables)))
      else Insert(db, q, env.calendar)
  }

  /** A statement that succeeds changes nothing outside the table it acts on. */
  lemma ExecFrame(db: Db, st: Statement, env: Env)
    ensures Exec(db, st, env).Ok? ==> forall u :: u != TableOf(st) ==> SameTable(db, Exec(db, st, env).db, u)
  {
    var r := Exec(db, st, env);
    match st
    case DropTable(t) =>
      if r.Ok? {
        forall u | u != t
          ensures SameTable(db, r.db, u)
        {
          assert SameTable(db, Cleared(db, t), u);
        }
      }
    case CreateTable(t, _) =>
      if r.Ok? {
        forall u | u != t
          ensures SameTable(db, r.db, u)
        {
          assert SameTable(db, Cleared(db, t), u);
        }
      }
    case Copy(c) =>
      if r.Ok? {
        LoadFrame(db, c, env.store);
      }
    case InsertSelect(q) =>
      if r.Ok? {
        InsertFrame(db, q, env.calendar);
      }
  }

  lemma LoadFrame(db: Db, c: CopySpec, store: ObjectStore)
    ensures Load(db, c, store).Ok? ==> forall u :: u != c.target ==> SameTable(db, Load(db, c, store).db, u)
  {
  }

  lemma InsertFrame(db: Db, q: Query, cal: Calendar)
    ensures Insert(db, q, cal).Ok? ==> forall u :: u != Target(q) ==> SameTable(db, Insert(db, q, cal).db, u)
  {
    match q
    case SelectUsers =>
    case SelectSongs =>
    case SelectArtists =>
    case SelectTime =>
    case SelectSongplays =>
  }

  /** A statement that succeeds never leaves a songplays row without its referenced rows. */
  lemma ExecKeepsIntact(db: Db, st: Statement, env: Env)
    ensures Exec(db, st, env).Ok? && Intact(db) ==> Intact(Exec(db, st, env).db)
  {
    if st.InsertSelect? {
      InsertKeepsIntact(db, st.query, env.calendar);
    }
  }

  /** Runs `stmts` in order, stopping at the first statement that fails. */
  function Run(db: Db, stmts: seq<Statement>, env: Env): (o: Outcome)
    ensures o.Failed? ==> o.statement in stmts
    decreases |stmts|
  {
    if stmts == [] then Done(db)
    else
      match Exec(db, stmts[0], env)
      case Err(e) => Failed(stmts[0], e, db)
      case Ok(next) => Run(next, stmts[1..], env)
  }

  /**
   * A statement list keeps the referential invariant, whether it runs to
   * completion or stops at a failure.
   */
  lemma {:induction false} RunKeepsIntact(db: Db, stmts: seq<Statement>, env: Env)
    requires Intact(db)
    ensures Intact(Run(db, stmts, env).db)
    decreases |stmts|
  {
    if stmts != [] {
      ExecKeepsIntact(db, stmts[0], env);
      var r := Exec(db, stmts[0], env);
      if r.Ok? {
        RunKeepsIntact(r.db, stmts[1..], env);
      }
    }
  }

  /** Continues an outcome with more statements. */
  function Then(o: Outcome, stmts: seq<Statement>, env: Env): Outcome {
    match o
    case Done(db) => Run(db, stmts, env)
    case Failed(_, _, _) => o
  }

  /**
   * A run that fails stops at the first failing statement and keeps what the
   * statements before it did: the failed outcome's warehouse is the one the
   * prefix before that statement produced, and that statement fails there.
   */
  lemma {:induction false} RunStopsAtFailure(db: Db, stmts: seq<Statement>, env: Env)
    ensures var o := Run(db, stmts, env);
      o.Failed? ==>
        exists k :: 0 <= k < |stmts| && stmts[k] == o.statement &&
          Run(db, stmts[..k], env) == Done(o.db) && Exec(o.db, stmts[k], env) == Err(o.error)
    decreases |stmts|
  {
    var o := Run(db, stmts, env);
    if stmts != [] && o.Failed? {
      match Exec(db, stmts[0], env)
      case Err(e) =>
        assert stmts[..0] == [];
      case Ok(next) =>
        RunStopsAtFailure(next, stmts[1..], env);
        var k :| 0 <= k < |stmts[1..]| && stmts[1..][k] == o.statement &&
          Run(next, stmts[1..][..k], env) == Done(o.db) && Exec(o.db, stmts[1..][k], env) == Err(o.error);
        assert stmts[..k + 1][1..] == stmts[1..][..k];
    }
  }

  /** Running a + b is running a, then b if a succeeded. */
  lemma {:induction false} RunAppend(db: Db, a: seq<Statement>, b: seq<Statement>, env: Env)
    ensures Run(db, a + b, env) == Then(Run(db, a, env), b, env)
    decreases |a|
  {
    if a == [] {
      assert a + b == b;
    } else {
      assert (a + b)[0] == a[0];
      assert (a + b)[1..] == a[1..] + b;
      match Exec(db, a[0], env)
      case Err(e) =>
      case Ok(next) => RunAppend(next, a[1..], b, env);
    }
  }
}

/**
 * The four statement lists run in their phases (drop, create, copy,
 * insert) against the abstract warehouse: what a full run produces, and why
 * the orders fixed by the lists are the ones that work.
 */
module Pipeline {
  import opened Catalog
  import opened Transforms
  import opened Warehouse

  const AllTables: set<Table> := {StagingEvents, StagingSongs, Songplays, Users, Songs, Artists, Time}

  /** Every table exists and holds no rows. */
  const EmptySchema: Db := Db(AllTables, [], [], [], [], [], [], [])

  /** Every table exists; only the staging tables hold rows. */
  function Staged(events: seq<StagingEvent>, staged: seq<StagingSong>): Db {
    EmptySchema.(stagingEvents := events, stagingSongs := staged)
  }

  /** The warehouse a complete run leaves behind. */
  function Loaded(events: seq<StagingEvent>, staged: seq<StagingSong>, cal: Calendar): Db {
    Staged(events, staged).(
      users := UsersInsert(events),
      songs := SongsInsert(staged),
      artists := ArtistsInsert(staged),
      time := TimeInsert(events, cal),
      songplays := SongplaysInsert(events, staged))
  }

  /** The drop, create, copy and insert lists, one after another. */
  function FullRun(cfg: Config): seq<Statement> {
    DropTableQueries + CreateTableQueries + CopyTableQueries(cfg) + InsertTableQueries
  }

  lemma RunStep(db: Db, stmts: seq<Statement>, env: Env)
    requires stmts != [] && Exec(db, stmts[0], env).Ok?
    ensures Run(db, stmts, env) == Run(Exec(db, stmts[0], env).db, stmts[1..], env)
  {
  }

  // Drop phase.

  /** DROP TABLE IF EXISTS of an absent table succeeds and changes nothing. */
  lemma DropAbsentIsNoOp(db: Db, t: Table, env: Env)
    requires t !in db.tables
    ensures Exec(db, DropTable(t), env) == Ok(db)
  {
  }

  /** Running the drop list twice is the same as running it once. */
  lemma DropPhaseIdempotent(db: Db, env: Env)
    ensures Then(Run(db, DropTableQueries, env), DropTableQueries, env) == Run(db, DropTableQueries, env)
  {
    DropPhase(db, env);
    DropListDropsReferencingFirst();
    DropsOfAbsent(Run(db, DropTableQueries, env).db, DropTableQueries, env);
  }

  /** With no table present, a list of drops succeeds and changes nothing. */
  lemma {:induction false} DropsOfAbsent(d: Db, ds: seq<Statement>, env: Env)
    requires d.tables == {}
    requires forall s :: s in ds ==> s.DropTable?
    ensures Run(d, ds, env) == Done(d)
    decreases |ds|
  {
    if ds != [] {
      assert ds[0] in ds;
      DropAbsentIsNoOp(d, TableOf(ds[0]), env);
      assert forall s :: s in ds[1..] ==> s in ds;
      DropsOfAbsent(d, ds[1..], env);
    }
  }


  /** Every existing table that references an existing table the list drops is dropped earlier in the list. */
  predicate DroppableInOrder(existing: set<Table>, ds: seq<Statement>) {
    forall i, u :: 0 <= i < |ds| && u in existing && TableOf(ds[i]) in existing && TableOf(ds[i]) in References(u) ==>
      u in TablesOf(ds[..i])
  }

  lemma DroppableShift(existing: set<Table>, ds: seq<Statement>)
    requires ds != []
    requires TableOf(ds[0]) in existing ==> forall u :: u in existing ==> TableOf(ds[0]) !in References(u)
    ensures DroppableInOrder(existing, ds) <==> DroppableInOrder(existing - {TableOf(ds[0])}, ds[1..])
  {
    var t := TableOf(ds[0]);
    var rest := ds[1..];
    forall i | 1 <= i <= |ds|
      ensures TablesOf(ds[..i]) == [t] + TablesOf(rest[..i - 1])
    {
      assert ds[..i] == [ds[0]] + rest[..i - 1];
    }
    if DroppableInOrder(existing, ds) {
      forall i, u | 0 <= i < |rest| && u in existing - {t} && TableOf(rest[i]) in existing - {t} && TableOf(rest[i]) in References(u)
        ensures u in TablesOf(rest[..i])
      {
        assert TableOf(ds[i + 1]) == TableOf(rest[i]);
        assert u in TablesOf(ds[..i + 1]);
        assert TablesOf(ds[..i + 1]) == [t] + TablesOf(rest[..i]);
      }
    }
    if DroppableInOrder(existing - {t}, rest) {
      forall i, u | 0 <= i < |ds| && u in existing && TableOf(ds[i]) in existing && TableOf(ds[i]) in References(u)
        ensures u in TablesOf(ds[..i])
      {
        if i > 0 {
          if u == t {
            assert TablesOf(ds[..i])[0] == t;
          } else {
            assert TableOf(rest[i - 1]) == TableOf(ds[i]);
            assert u in TablesOf(rest[..i - 1]);
          }
        }
      }
    }
  }

  /**
   * A list of drops over distinct tables succeeds exactly when every table
   * it drops that exists is dropped after every existing table that
   * references it.
   */
  lemma {:induction false} DropsSucceedIff(db: Db, ds: seq<Statement>, env: Env)
    requires forall s :: s in ds ==> s.DropTable?
    requires forall i, j :: 0 <= i < j < |ds| ==> TableOf(ds[i]) != TableOf(ds[j])
    ensures Run(db, ds, env).Done? <==> DroppableInOrder(db.tables, ds)
    decreases |ds|
  {
    if ds != [] {
      var t := TableOf(ds[0]);
      var r := Exec(db, ds[0], env);
      assert ds[0] in ds;
      if t !in db.tables {
        assert r == Ok(db);
        DropsSucceedIff(db, ds[1..], env);
        assert db.tables - {t} == db.tables;
        DroppableShift(db.tables, ds);
      } else if exists u :: u in db.tables && t in References(u) {
        var u :| u in db.tables && t in References(u);
        assert r.Err?;
        assert TablesOf(ds[..0]) == [];
        assert !DroppableInOrder(db.tables, ds);
      } else {
        assert r.Ok? && r.db.tables == db.tables - {t};
        DropsSucceedIff(r.db, ds[1..], env);
        DroppableShift(db.tables, ds);
      }
    }
  }

  /** Dropping a table that songplays references while songplays exists fails. */
  lemma DropReferencedFirstFails(db: Db, ds: seq<Statement>, env: Env, i: nat, j: nat)
    requires forall s :: s in ds ==> s.DropTable?
    requires forall a, b :: 0 <= a < b < |ds| ==> TableOf(ds[a]) != TableOf(ds[b])
    requires Songplays in db.tables
    requires i < j < |ds| && TableOf(ds[j]) == Songplays
    requires TableOf(ds[i]) in References(Songplays) && TableOf(ds[i]) in db.tables
    ensures Run(db, ds, env).Failed?
  {
    DropsSucceedIff(db, ds, env);
    forall k | 0 <= k < i
      ensures TablesOf(ds[..i])[k] != Songplays
    {
      assert TableOf(ds[k]) != TableOf(ds[j]);
    }
  }

  /**
   * A drop list that names every table and drops each table before the
   * tables it references can be run against any set of existing tables.
   */
  lemma ReferencingFirstIsDroppable(existing: set<Table>, ds: seq<Statement>)
    requires ReferencingFirst(TablesOf(ds))
    requires forall t: Table :: t in TablesOf(ds)
    ensures DroppableInOrder(existing, ds)
  {
    var ts := TablesOf(ds);
    forall i, u | 0 <= i < |ds| && u in existing && TableOf(ds[i]) in existing && TableOf(ds[i]) in References(u)
      ensures u in TablesOf(ds[..i])
    {
      assert u in ts;
      var j :| 0 <= j < |ts| && ts[j] == u;
      assert ts[i] == TableOf(ds[i]);
      assert j < i;
      assert TablesOf(ds[..i])[j] == u;
    }
  }

  /** A run of drops that completes leaves exactly the existing tables it does not name. */
  lemma {:induction false} DropsRemove(db: Db, ds: seq<Statement>, env: Env)
    requires forall s :: s in ds ==> s.DropTable?
    ensures Run(db, ds, env).Done? ==>
      forall t :: t in Run(db, ds, env).db.tables <==> t in db.tables && t !in TablesOf(ds)
    decreases |ds|
  {
    if ds != [] {
      assert ds[0] in ds;
      assert TablesOf(ds) == [TableOf(ds[0])] + TablesOf(ds[1..]);
      var r := Exec(db, ds[0], env);
      if r.Ok? {
        assert r.db.tables == db.tables - {TableOf(ds[0])};
        assert forall s :: s in ds[1..] ==> s in ds;
        DropsRemove(r.db, ds[1..], env);
      }
    }
  }

  /** The drop list succeeds from any warehouse state and leaves no table behind. */
  lemma DropPhase(db: Db, env: Env)
    ensures Run(db, DropTableQueries, env).Done?
    ensures Run(db, DropTableQueries, env).db.tables == {}
  {
    var ds := DropTableQueries;
    DropListDropsReferencingFirst();
    DropAndCreateListsCoverAllTables();
    ReferencingFirstIsDroppable(db.tables, ds);
    DropsSucceedIff(db, ds, env);
    DropsRemove(db, ds, env);
  }

  // Create phase.

  /** Every table each create references already exists or is created earlier in the list. */
  predicate CreatableInOrder(existing: set<Table>, cs: seq<Statement>) {
    forall i, r :: 0 <= i < |cs| && r in References(TableOf(cs[i])) ==> r in existing || r in TablesOf(cs[..i])
  }

  lemma CreatableShift(existing: set<Table>, cs: seq<Statement>)
    requires cs != [] && References(TableOf(cs[0])) <= existing
    ensures CreatableInOrder(existing, cs) <==> CreatableInOrder(existing + {TableOf(cs[0])}, cs[1..])
  {
    var t := TableOf(cs[0]);
    var rest := cs[1..];
    forall i | 1 <= i <= |cs|
      ensures TablesOf(cs[..i]) == [t] + TablesOf(rest[..i - 1])
    {
      assert cs[..i] == [cs[0]] + rest[..i - 1];
    }
    if CreatableInOrder(existing, cs) {
      forall i, r | 0 <= i < |rest| && r in References(TableOf(rest[i]))
        ensures r in existing + {t} || r in TablesOf(rest[..i])
      {
        assert TableOf(cs[i + 1]) == TableOf(rest[i]);
        assert r in existing || r in TablesOf(cs[..i + 1]);
      }
    }
    if CreatableInOrder(existing + {t}, rest) {
      forall i, r | 0 <= i < |cs| && r in References(TableOf(cs[i]))
        ensures r in existing || r in TablesOf(cs[..i])
      {
        if i > 0 {
          assert TableOf(rest[i - 1]) == TableOf(cs[i]);
          assert r in existing + {t} || r in TablesOf(rest[..i - 1]);
          if r == t {
            assert TablesOf(cs[..i])[0] == t;
          }
        }
      }
    }
  }

  /**
   * A list of creates of distinct absent tables succeeds exactly when every
   * table is created after the tables it references, unless those exist
   * already.
   */
  lemma {:induction false} CreatesSucceedIff(db: Db, cs: seq<Statement>, env: Env)
    requires forall s :: s in cs ==> s.CreateTable?
    requires forall i :: 0 <= i < |cs| ==> TableOf(cs[i]) !in db.tables
    requires forall i, j :: 0 <= i < j < |cs| ==> TableOf(cs[i]) != TableOf(cs[j])
    ensures Run(db, cs, env).Done? <==> CreatableInOrder(db.tables, cs)
    decreases |cs|
  {
    if cs != [] {
      var t := TableOf(cs[0]);
      var r := Exec(db, cs[0], env);
      assert cs[0] in cs;
      if References(t) <= db.tables {
        assert r.Ok? && r.db.tables == db.tables + {t};
        CreatesSucceedIff(r.db, cs[1..], env);
        CreatableShift(db.tables, cs);
      } else {
        assert cs[0] in cs;
        assert r.Err?;
        assert TablesOf(cs[..0]) == [];
        assert !CreatableInOrder(db.tables, cs);
      }
    }
  }

  /**
   * Against a schema with no tables, a create list over distinct tables
   * that puts a table before one it references fails.
   */
  lemma CreateBeforeReferenceFails(db: Db, cs: seq<Statement>, env: Env, i: nat, j: nat)
    requires db.tables == {}
    requires forall s :: s in cs ==> s.CreateTable?
    requires forall a, b :: 0 <= a < b < |cs| ==> TableOf(cs[a]) != TableOf(cs[b])
    requires i < j < |cs| && TableOf(cs[j]) in References(TableOf(cs[i]))
    ensures Run(db, cs, env).Failed?
  {
    CreatesSucceedIff(db, cs, env);
    forall k | 0 <= k < i
      ensures TablesOf(cs[..i])[k] != TableOf(cs[j])
    {
      assert TableOf(cs[k]) != TableOf(cs[j]);
    }
  }

  /**
   * A create list that names every table each of its tables references,
   * and creates each table after the tables it references, can be run
   * whatever tables already exist.
   */
  lemma ReferencedFirstIsCreatable(existing: set<Table>, cs: seq<Statement>)
    requires ReferencedFirst(TablesOf(cs))
    requires forall i, r :: 0 <= i < |cs| && r in References(TableOf(cs[i])) ==> r in TablesOf(cs)
    ensures CreatableInOrder(existing, cs)
  {
    var ts := TablesOf(cs);
    forall i, r | 0 <= i < |cs| && r in References(TableOf(cs[i]))
      ensures r in existing || r in TablesOf(cs[..i])
    {
      assert r in ts;
      var j :| 0 <= j < |ts| && ts[j] == r;
      assert ts[i] == TableOf(cs[i]);
      assert j < i;
      assert TablesOf(cs[..i])[j] == r;
    }
  }

  /** A create that succeeds keeps every empty table empty, and the table it creates is empty. */
  lemma CreateKeepsEmpty(db: Db, st: Statement, env: Env, t: Table)
    requires st.CreateTable? && Exec(db, st, env).Ok?
    ensures IsEmpty(db, t) ==> IsEmpty(Exec(db, st, env).db, t)
    ensures st.table !in db.tables ==> IsEmpty(Exec(db, st, env).db, st.table)
  {
    ExecFrame(db, st, env);
  }

  lemma {:induction false} CreatesKeepEmpty(db: Db, cs: seq<Statement>, env: Env, t: Table)
    requires forall s :: s in cs ==> s.CreateTable?
    requires IsEmpty(db, t)
    ensures Run(db, cs, env).Done? ==> IsEmpty(Run(db, cs, env).db, t)
    decreases |cs|
  {
    if cs != [] {
      assert cs[0] in cs;
      var r := Exec(db, cs[0], env);
      if r.Ok? {
        CreateKeepsEmpty(db, cs[0], env, t);
        assert forall s :: s in cs[1..] ==> s in cs;
        CreatesKeepEmpty(r.db, cs[1..], env, t);
      }
    }
  }

  /**
   * A run of creates that completes leaves the existing tables and the
   * tables it names, and every table it names that did not exist is empty.
   */
  lemma {:induction false} CreatesAdd(db: Db, cs: seq<Statement>, env: Env)
    requires forall s :: s in cs ==> s.CreateTable?
    ensures Run(db, cs, env).Done? ==>
      forall t :: t in Run(db, cs, env).db.tables <==> t in db.tables || t in TablesOf(cs)
    ensures Run(db, cs, env).Done? ==>
      forall t :: t in TablesOf(cs) && t !in db.tables ==> IsEmpty(Run(db, cs, env).db, t)
    decreases |cs|
  {
    if cs != [] {
      assert cs[0] in cs;
      var c := TableOf(cs[0]);
      assert TablesOf(cs) == [c] + TablesOf(cs[1..]);
      var r := Exec(db, cs[0], env);
      if r.Ok? {
        assert r.db.tables == db.tables + {c};
        assert forall s :: s in cs[1..] ==> s in cs;
        CreatesAdd(r.db, cs[1..], env);
        if c !in db.tables {
          CreateKeepsEmpty(db, cs[0], env, c);
          CreatesKeepEmpty(r.db, cs[1..], env, c);
        }
      }
    }
  }

  /** Against a schema with no tables, the create list creates all seven tables, empty. */
  lemma CreatePhase(db: Db, env: Env)
    requires db.tables == {}
    ensures Run(db, CreateTableQueries, env) == Done(EmptySchema)
  {
    var cs := CreateTableQueries;
    CreateListMeetsConditions(db.tables);
    CreatesSucceedIff(db, cs, env);
    CreatesAdd(db, cs, env);
    EveryTableEmptyIsEmptySchema(Run(db, cs, env).db);
  }

  /** The create list meets the conditions of CreatesSucceedIff and CreatesAdd and names every table. */
  lemma CreateListMeetsConditions(existing: set<Table>)
    ensures forall s :: s in CreateTableQueries ==> s.CreateTable?
    ensures forall i, j :: 0 <= i < j < |CreateTableQueries| ==> TableOf(CreateTableQueries[i]) != TableOf(CreateTableQueries[j])
    ensures CreatableInOrder(existing, CreateTableQueries)
    ensures forall t: Table :: t in TablesOf(CreateTableQueries)
  {
    var cs := CreateTableQueries;
    CreateListRespectsReferences();
    DropAndCreateListsCoverAllTables();
    assert forall i :: 0 <= i < |cs| ==> TablesOf(cs)[i] == TableOf(cs[i]);
    ReferencedFirstIsCreatable(existing, cs);
  }

  lemma EveryTableEmptyIsEmptySchema(d: Db)
    requires forall t :: t in d.tables && IsEmpty(d, t)
    ensures d == EmptySchema
  {
    assert IsEmpty(d, StagingEvents) && IsEmpty(d, StagingSongs) && IsEmpty(d, Songplays) && IsEmpty(d, Users);
    assert IsEmpty(d, Songs) && IsEmpty(d, Artists) && IsEmpty(d, Time);
    forall t: Table
      ensures t in AllTables
    {
      match t
      case StagingEvents =>
      case StagingSongs =>
      case Songplays =>
      case Users =>
      case Songs =>
      case Artists =>
      case Time =>
    }
  }

  /**
   * Running the create list again without the drop list fails at the users
   * table, whose CREATE has no IF NOT EXISTS.
   */
  lemma CreateWithoutDropFails(db: Db, env: Env)
    requires Users in db.tables
    ensures var o := Run(db, CreateTableQueries, env);
      && o.Failed? && o.statement == UserTableCreate && o.error == AlreadyExists(Users)
      && o.db.tables == db.tables + {StagingEvents, StagingSongs}
      && forall t :: !IsStaging(t) ==> SameTable(db, o.db, t)
  {
    var cs := CreateTableQueries;
    assert cs == cs[..2] + cs[2..];
    RunAppend(db, cs[..2], cs[2..], env);
    StagingCreates(db, env);
    var d := Run(db, cs[..2], env).db;
    assert SameTable(db, d, Users);
    assert cs[2..][0] == UserTableCreate;
    assert Exec(d, cs[2..][0], env) == Err(AlreadyExists(Users));
  }

  /**
   * The two staging creates, which carry IF NOT EXISTS, always succeed, add
   * the staging tables and leave every other table as it was.
   */
  lemma StagingCreates(db: Db, env: Env)
    ensures var o := Run(db, CreateTableQueries[..2], env);
      && o.Done? && o.db.tables == db.tables + {StagingEvents, StagingSongs}
      && forall t :: !IsStaging(t) ==> SameTable(db, o.db, t)
  {
    var cs := [StagingEventsTableCreate, StagingSongsTableCreate];
    assert CreateTableQueries[..2] == cs;
    var r0 := Exec(db, cs[0], env);
    RunStep(db, cs, env);
    ExecFrame(db, cs[0], env);
    var r1 := Exec(r0.db, cs[1], env);
    RunStep(r0.db, cs[1..], env);
    ExecFrame(r0.db, cs[1], env);
    forall t | !IsStaging(t)
      ensures SameTable(db, r1.db, t)
    {
      assert SameTable(db, r0.db, t) && SameTable(r0.db, r1.db, t);
    }
  }

  // Copy phase.

  /**
   * With both staging tables present and both sources readable, the copy
   * list appends each source's records to its staging table, and the two
   * copies give the same warehouse in either order.
   */
  lemma CopyPhase(db: Db, cfg: Config, env: Env)
    requires StagingEvents in db.tables && StagingSongs in db.tables
    requires cfg.logData in env.store.eventLogs && cfg.songData in env.store.songData
    ensures Run(db, CopyTableQueries(cfg), env) ==
      Done(db.(stagingEvents := db.stagingEvents + env.store.eventLogs[cfg.logData],
               stagingSongs := db.stagingSongs + env.store.songData[cfg.songData]))
    ensures Run(db, [StagingEventsCopy(cfg), StagingSongsCopy(cfg)], env) == Run(db, CopyTableQueries(cfg), env)
  {
    var cp := CopyTableQueries(cfg);
    RunStep(db, cp, env);
    var d := Exec(db, cp[0], env).db;
    RunStep(d, cp[1..], env);
    var swapped := [StagingEventsCopy(cfg), StagingSongsCopy(cfg)];
    RunStep(db, swapped, env);
    var e := Exec(db, swapped[0], env).db;
    RunStep(e, swapped[1..], env);
  }

  // Insert phase.

  lemma AppendToEmpty<T>(s: seq<T>)
    ensures [] + s == s
  {
  }

  lemma InsertStep(d: Db, q: Query, rest: seq<Statement>, env: Env)
    requires Target(q) in d.tables && Sources(q) <= d.tables
    requires Insert(d, q, env.calendar).Ok?
    ensures Run(d, [InsertSelect(q)] + rest, env) == Run(Insert(d, q, env.calendar).db, rest, env)
  {
    assert ([InsertSelect(q)] + rest)[1..] == rest;
  }

  /** With the dimensions filled from the staged rows, every songplays row finds its keys. */
  lemma FilledDimensionsHoldKeys(d: Db, cal: Calendar)
    requires d.users == UsersInsert(d.stagingEvents) && d.songs == SongsInsert(d.stagingSongs)
    requires d.artists == ArtistsInsert(d.stagingSongs) && d.time == TimeInsert(d.stagingEvents, cal)
    ensures AllKeysPresent(SongplaysInsert(d.stagingEvents, d.stagingSongs), d.users, d.songs, d.artists, d.time)
  {
    SongplaysReferentialIntegrity(d.stagingEvents, d.stagingSongs, cal);
  }

  /** The songplays insert, when its REFERENCES checks pass, fills the empty fact table with the join's rows. */
  lemma SongplaysStep(d: Db, env: Env)
    requires d.tables == AllTables && d.songplays == []
    requires AllKeysPresent(SongplaysInsert(d.stagingEvents, d.stagingSongs), d.users, d.songs, d.artists, d.time)
    ensures Run(d, [SongplayTableInsert], env) == Done(d.(songplays := SongplaysInsert(d.stagingEvents, d.stagingSongs)))
  {
    var plays := SongplaysInsert(d.stagingEvents, d.stagingSongs);
    assert Insert(d, SelectSongplays, env.calendar) == Ok(d.(songplays := [] + plays));
    AppendToEmpty(plays);
    InsertStep(d, SelectSongplays, [], env);
    assert [SongplayTableInsert] == [SongplayTableInsert] + [];
  }

  /** The users and songs inserts fill their empty tables from the staged rows. */
  lemma UsersAndSongsSteps(d: Db, rest: seq<Statement>, env: Env)
    requires d.tables == AllTables && d.users == [] && d.songs == []
    requires NamesFit(d.stagingEvents)
    ensures Run(d, [UserTableInsert, SongTableInsert] + rest, env) ==
      Run(d.(users := UsersInsert(d.stagingEvents), songs := SongsInsert(d.stagingSongs)), rest, env)
  {
    var events, staged := d.stagingEvents, d.stagingSongs;
    var r1 := [SongTableInsert] + rest;
    assert [UserTableInsert, SongTableInsert] + rest == [UserTableInsert] + r1;
    UsersFitIff(events);
    AppendToEmpty(UsersInsert(events));
    InsertStep(d, SelectUsers, r1, env);
    AppendToEmpty(SongsInsert(staged));
    InsertStep(d.(users := UsersInsert(events)), SelectSongs, rest, env);
  }

  /** The artists insert fills its empty table from the staged songs. */
  lemma ArtistsStep(d: Db, rest: seq<Statement>, env: Env)
    requires d.tables == AllTables && d.artists == []
    ensures Run(d, [ArtistTableInsert] + rest, env) == Run(d.(artists := ArtistsInsert(d.stagingSongs)), rest, env)
  {
    AppendToEmpty(ArtistsInsert(d.stagingSongs));
    InsertStep(d, SelectArtists, rest, env);
  }

  /** The time insert fills its empty table from the staged events. */
  lemma TimeStep(d: Db, rest: seq<Statement>, env: Env)
    requires d.tables == AllTables && d.time == []
    ensures Run(d, [TimeTableInsert] + rest, env) == Run(d.(time := TimeInsert(d.stagingEvents, env.calendar)), rest, env)
  {
    AppendToEmpty(TimeInsert(d.stagingEvents, env.calendar));
    InsertStep(d, SelectTime, rest, env);
  }

  /**
   * With every table present and the dimension and fact tables empty, the
   * insert list fills the four dimensions from the staged rows and then
   * songplays; the songplays insert passes its REFERENCES checks because
   * the dimensions were filled first. Every staged user name must fit the
   * users table's VARCHAR(128) columns.
   */
  lemma InsertPhase(d: Db, env: Env)
    requires d.tables == AllTables
    requires NamesFit(d.stagingEvents)
    requires d.users == [] && d.songs == [] && d.artists == [] && d.time == [] && d.songplays == []
    ensures Run(d, InsertTableQueries, env) == Done(d.(
      users := UsersInsert(d.stagingEvents),
      songs := SongsInsert(d.stagingSongs),
      artists := ArtistsInsert(d.stagingSongs),
      time := TimeInsert(d.stagingEvents, env.calendar),
      songplays := SongplaysInsert(d.stagingEvents, d.stagingSongs)))
  {
    var d2 := d.(users := UsersInsert(d.stagingEvents), songs := SongsInsert(d.stagingSongs));
    var d4 := d2.(artists := ArtistsInsert(d.stagingSongs), time := TimeInsert(d.stagingEvents, env.calendar));
    assert InsertTableQueries == [UserTableInsert, SongTableInsert] + ([ArtistTableInsert] + ([TimeTableInsert] + [SongplayTableInsert]));
    UsersAndSongsSteps(d, [ArtistTableInsert] + ([TimeTableInsert] + [SongplayTableInsert]), env);
    ArtistsStep(d2, [TimeTableInsert] + [SongplayTableInsert], env);
    TimeStep(d2.(artists := ArtistsInsert(d.stagingSongs)), [SongplayTableInsert], env);
    FilledDimensionsHoldKeys(d4, env.calendar);
    SongplaysStep(d4, env);
  }

  /**
   * A staged user name longer than VARCHAR(128) makes the users insert, the
   * first of the insert list, fail, and the run stops there with the
   * warehouse unchanged.
   */
  lemma LongNameStopsInserts(d: Db, env: Env)
    requires Users in d.tables && StagingEvents in d.tables
    requires !NamesFit(d.stagingEvents)
    ensures Run(d, InsertTableQueries, env) == Failed(UserTableInsert, ValueTooLong(Users), d)
  {
    UsersFitIff(d.stagingEvents);
    assert Exec(d, InsertTableQueries[0], env) == Err(ValueTooLong(Users));
  }

  /**
   * The songplays insert cannot run before the dimensions are filled: while
   * any one of them is empty it fails exactly when the join yields a row.
   */
  lemma SongplaysBeforeDimensionsFails(d: Db, env: Env)
    requires Songplays in d.tables && StagingEvents in d.tables && StagingSongs in d.tables
    requires d.users == [] || d.songs == [] || d.artists == [] || d.time == []
    ensures Exec(d, SongplayTableInsert, env).Err? <==> SongplaysInsert(d.stagingEvents, d.stagingSongs) != []
  {
    EmptyDimensionBlocksKeys(SongplaysInsert(d.stagingEvents, d.stagingSongs), d.users, d.songs, d.artists, d.time);
  }

  // The whole run.

  /**
   * From any warehouse state, with both COPY sources readable, the drop,
   * create and copy lists leave exactly the seven tables, empty but for the
   * staged records.
   */
  lemma StagingRunSucceeds(db: Db, cfg: Config, env: Env)
    requires cfg.logData in env.store.eventLogs && cfg.songData in env.store.songData
    ensures Run(db, DropTableQueries + CreateTableQueries + CopyTableQueries(cfg), env) ==
      Done(Staged(env.store.eventLogs[cfg.logData], env.store.songData[cfg.songData]))
  {
    var events, staged := env.store.eventLogs[cfg.logData], env.store.songData[cfg.songData];
    RunAppend(db, DropTableQueries + CreateTableQueries, CopyTableQueries(cfg), env);
    RunAppend(db, DropTableQueries, CreateTableQueries, env);
    DropPhase(db, env);
    var dropped := Run(db, DropTableQueries, env).db;
    CreatePhase(dropped, env);
    CopyPhase(EmptySchema, cfg, env);
    assert EmptySchema.(stagingEvents := [] + events, stagingSongs := [] + staged) == Staged(events, staged);
  }

  /**
   * From any warehouse state, with both COPY sources readable and every
   * staged user name within VARCHAR(128), the four lists run to completion
   * and leave exactly the seven tables, the staged records, and the
   * dimension and fact rows computed from them, with every songplays row's
   * keys present in the dimensions.
   */
  lemma FullRunSucceeds(db: Db, cfg: Config, env: Env)
    requires cfg.logData in env.store.eventLogs && cfg.songData in env.store.songData
    requires NamesFit(env.store.eventLogs[cfg.logData])
    ensures Run(db, FullRun(cfg), env) ==
      Done(Loaded(env.store.eventLogs[cfg.logData], env.store.songData[cfg.songData], env.calendar))
    ensures Intact(Run(db, FullRun(cfg), env).db)
  {
    var events, staged := env.store.eventLogs[cfg.logData], env.store.songData[cfg.songData];
    RunAppend(db, DropTableQueries + CreateTableQueries + CopyTableQueries(cfg), InsertTableQueries, env);
    StagingRunSucceeds(db, cfg, env);
    InsertPhase(Staged(events, staged), env);
    SongplaysReferentialIntegrity(events, staged, env.calendar);
  }

  /**
   * A staged user name longer than VARCHAR(128) stops the run at the users
   * insert, which leaves the warehouse as the copy list did: the tables
   * created and staged, and every dimension and fact table empty.
   */
  lemma LongNameStopsFullRun(db: Db, cfg: Config, env: Env)
    requires cfg.logData in env.store.eventLogs && cfg.songData in env.store.songData
    requires !NamesFit(env.store.eventLogs[cfg.logData])
    ensures Run(db, FullRun(cfg), env) ==
      Failed(UserTableInsert, ValueTooLong(Users), Staged(env.store.eventLogs[cfg.logData], env.store.songData[cfg.songData]))
  {
    var events, staged := env.store.eventLogs[cfg.logData], env.store.songData[cfg.songData];
    RunAppend(db, DropTableQueries + CreateTableQueries + CopyTableQueries(cfg), InsertTableQueries, env);
    StagingRunSucceeds(db, cfg, env);
    LongNameStopsInserts(Staged(events, staged), env);
  }

  // A worked example: one NextSong event and the one song it plays.

  const ExampleEvent: StagingEvent :=
    StagingEvent("X", "Logged In", "Ann", "F", 0, "Lee", Float("200.0"), "free", "LA", "PUT", "NextSong",
                 "1540000000000", 5, "Y", 200, 1541121934796, "UA", "10")

  const ExampleSong: StagingSong :=
    StagingSong("S1", 1, "A1", Float(""), Float(""), "LA", "X", "Y", Float("200.0"), 2000)

  /**
   * After a full run over that data, users, songs, artists and time each
   * hold one row, and songplays holds the one row joining them.
   */
  lemma ExampleRun(db: Db, cfg: Config, env: Env)
    requires env.store.eventLogs == map[cfg.logData := [ExampleEvent]]
    requires env.store.songData == map[cfg.songData := [ExampleSong]]
    ensures Run(db, FullRun(cfg), env).Done?
    ensures Run(db, FullRun(cfg), env).db.users == [UserRow("10", "Ann", "Lee", "F", "free")]
    ensures Run(db, FullRun(cfg), env).db.songs == [SongRow("S1", "Y", "A1", 2000, Float("200.0"))]
    ensures Run(db, FullRun(cfg), env).db.artists == [ArtistRow("A1", "X", "LA", Float(""), Float(""))]
    ensures Run(db, FullRun(cfg), env).db.time == [TimeRowOf(Timestamp(1541121934), env.calendar)]
    ensures Run(db, FullRun(cfg), env).db.songplays ==
      [SongplayRow(Timestamp(1541121934), "10", "free", "S1", "A1", 5, "LA", "UA")]
  {
    assert NamesFit([ExampleEvent]);
    FullRunSucceeds(db, cfg, env);
    DimensionsOfOneRow(ExampleEvent, ExampleSong, env.calendar);
    SongplaysOfOnePair(ExampleEvent, ExampleSong);
    assert IsPlay(ExampleEvent, ExampleSong);
    assert StartTime(ExampleEvent.ts) == Timestamp(1541121934);
  }
}

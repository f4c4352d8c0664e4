/**
 * The rows of the warehouse tables and the SELECT part of the five
 * INSERT ... SELECT statements, as functions from staging rows to the rows
 * they insert. Columns are plain values (no SQL NULL); REAL and DOUBLE
 * columns are opaque values compared only by equality.
 */
module Transforms {
  import opened Relational

  /** A REAL or DOUBLE PRECISION value, compared only by equality. */
  datatype Float = Float(text: string)

  /** A TIMESTAMP: whole seconds since `TIMESTAMP 'epoch'`. */
  datatype Timestamp = Timestamp(epochSeconds: int)

  /** A row of staging_events (the IDENTITY column event_id is not modelled). */
  datatype StagingEvent = StagingEvent(
    artistName: string,
    auth: string,
    userFirstName: string,
    userGender: string,
    itemInSession: int,
    userLastName: string,
    songLength: Float,
    userLevel: string,
    location: string,
    httpMethod: string,
    page: string,
    registration: string,
    sessionId: int,
    songTitle: string,
    status: int,
    ts: int,
    userAgent: string,
    userId: string)

  /** A row of staging_songs. */
  datatype StagingSong = StagingSong(
    songId: string,
    numSongs: int,
    artistId: string,
    artistLatitude: Float,
    artistLongitude: Float,
    artistLocation: string,
    artistName: string,
    title: string,
    duration: Float,
    year: int)

  datatype UserRow = UserRow(userId: string, firstName: string, lastName: string, gender: string, level: string)

  datatype SongRow = SongRow(songId: string, title: string, artistId: string, year: int, duration: Float)

  datatype ArtistRow = ArtistRow(artistId: string, name: string, location: string, latitude: Float, longitude: Float)

  /** The EXTRACT(hr/d/w/mon/yr/dw ...) parts of a timestamp, as the engine computes them. */
  datatype DateParts = DateParts(hour: int, day: int, week: int, month: int, year: int, weekday: int)

  datatype TimeRow = TimeRow(startTime: Timestamp, hour: int, day: int, week: int, month: int, year: int, weekday: int)

  /** A row of songplays (the IDENTITY column songplay_id is not modelled). */
  datatype SongplayRow = SongplayRow(
    startTime: Timestamp,
    userId: string,
    level: string,
    songId: string,
    artistId: string,
    sessionId: int,
    location: string,
    userAgent: string)

  /** The engine's calendar decomposition, supplied by the caller. */
  type Calendar = Timestamp -> DateParts

  /** BIGINT division `a / b` for b > 0: the quotient truncated toward zero. */
  function TruncDiv(a: int, b: int): int
    requires b > 0
  {
    if a >= 0 then a / b else -((-a) / b)
  }

  /**
   * `TIMESTAMP 'epoch' + (ts / 1000) * INTERVAL '1 second'`: the millisecond
   * count `ts` cut to whole seconds toward zero.
   */
  function StartTime(ts: int): (t: Timestamp)
    ensures 0 <= ts ==> 0 <= 1000 * t.epochSeconds <= ts < 1000 * t.epochSeconds + 1000
    ensures ts < 0 ==> 1000 * t.epochSeconds - 1000 < ts <= 1000 * t.epochSeconds <= 0
  {
    Timestamp(TruncDiv(ts, 1000))
  }

  // The select lists of the INSERT statements.

  function UserOf(e: StagingEvent): UserRow {
    UserRow(e.userId, e.userFirstName, e.userLastName, e.userGender, e.userLevel)
  }

  function SongOf(s: StagingSong): SongRow {
    SongRow(s.songId, s.title, s.artistId, s.year, s.duration)
  }

  function ArtistOf(s: StagingSong): ArtistRow {
    ArtistRow(s.artistId, s.artistName, s.artistLocation, s.artistLatitude, s.artistLongitude)
  }

  function EventStartTime(e: StagingEvent): Timestamp {
    StartTime(e.ts)
  }

  function TimeRowOf(t: Timestamp, cal: Calendar): TimeRow {
    var p := cal(t);
    TimeRow(t, p.hour, p.day, p.week, p.month, p.year, p.weekday)
  }

  /** The join condition and the WHERE filter of the songplays insert. */
  predicate IsPlay(e: StagingEvent, s: StagingSong) {
    e.page == "NextSong" && e.artistName == s.artistName && e.songTitle == s.title
  }

  /** Level, session and agent come from the event; location from the song. */
  function PlayOf(e: StagingEvent, s: StagingSong): SongplayRow {
    SongplayRow(StartTime(e.ts), e.userId, e.userLevel, s.songId, s.artistId, e.sessionId, s.artistLocation, e.userAgent)
  }

  // The five transforms.

  /**
   * users: the distinct 5-column projections of all staging events, with no
   * page filter.
   */
  function UsersInsert(events: seq<StagingEvent>): (users: seq<UserRow>)
    ensures NoDuplicates(users)
    ensures forall e {:trigger UserOf(e)} :: e in events ==> UserOf(e) in users
    ensures forall u :: u in users ==> exists e :: e in events && UserOf(e) == u
  {
    SelectDistinct(UserOf, events)
  }

  /** songs: the distinct 5-column projections of the staging songs. */
  function SongsInsert(staged: seq<StagingSong>): (songs: seq<SongRow>)
    ensures NoDuplicates(songs)
    ensures forall s {:trigger SongOf(s)} :: s in staged ==> SongOf(s) in songs
    ensures forall r :: r in songs ==> exists s :: s in staged && SongOf(s) == r
  {
    SelectDistinct(SongOf, staged)
  }

  /** artists: the distinct 5-column projections of the staging songs. */
  function ArtistsInsert(staged: seq<StagingSong>): (artists: seq<ArtistRow>)
    ensures NoDuplicates(artists)
    ensures forall s {:trigger ArtistOf(s)} :: s in staged ==> ArtistOf(s) in artists
    ensures forall r :: r in artists ==> exists s :: s in staged && ArtistOf(s) == r
  {
    SelectDistinct(ArtistOf, staged)
  }

  /** time: one row per distinct start time of the staging events, decomposed by the engine's calendar. */
  function TimeInsert(events: seq<StagingEvent>, cal: Calendar): seq<TimeRow> {
    Project(t => TimeRowOf(t, cal), SelectDistinct(EventStartTime, events))
  }

  /**
   * The time rows: no two share a start time, every event's start time has
   * its row, and every row is the decomposition of some event's start time.
   */
  lemma TimeInsertRows(events: seq<StagingEvent>, cal: Calendar)
    ensures var times := TimeInsert(events, cal);
      && (forall i, j :: 0 <= i < j < |times| ==> times[i].startTime != times[j].startTime)
      && (forall e {:trigger StartTime(e.ts)} :: e in events ==> TimeRowOf(StartTime(e.ts), cal) in times)
      && (forall r :: r in times ==> exists e :: e in events && r == TimeRowOf(StartTime(e.ts), cal))
  {
    var f := t => TimeRowOf(t, cal);
    var starts := SelectDistinct(EventStartTime, events);
    forall e | e in events
      ensures TimeRowOf(StartTime(e.ts), cal) in TimeInsert(events, cal)
    {
      assert EventStartTime(e) in starts;
      assert f(EventStartTime(e)) in Project(f, starts);
    }
  }

  /** The songplays rows one event yields: one per matching staging song, in order. */
  function EventPlays(e: StagingEvent, staged: seq<StagingSong>): (plays: seq<SongplayRow>)
    ensures |plays| <= |staged|
    decreases |staged|
  {
    if staged == [] then []
    else
      var init, last := staged[..|staged| - 1], staged[|staged| - 1];
      EventPlays(e, init) + (if IsPlay(e, last) then [PlayOf(e, last)] else [])
  }

  /**
   * songplays: the join of staging_events and staging_songs on artist name
   * and song title, restricted to NextSong events, without DISTINCT.
   */
  function SongplaysInsert(events: seq<StagingEvent>, staged: seq<StagingSong>): seq<SongplayRow>
    decreases |events|
  {
    if events == [] then []
    else
      var init, last := events[..|events| - 1], events[|events| - 1];
      SongplaysInsert(init, staged) + EventPlays(last, staged)
  }

  /** One event's rows are the plays of exactly the staged songs it matches. */
  lemma {:induction false} EventPlaysRows(e: StagingEvent, staged: seq<StagingSong>)
    ensures forall p :: p in EventPlays(e, staged) ==> exists s :: s in staged && IsPlay(e, s) && p == PlayOf(e, s)
    ensures forall s {:trigger PlayOf(e, s)} :: s in staged && IsPlay(e, s) ==> PlayOf(e, s) in EventPlays(e, staged)
    decreases |staged|
  {
    if staged != [] {
      var init, last := staged[..|staged| - 1], staged[|staged| - 1];
      assert staged == init + [last];
      EventPlaysRows(e, init);
    }
  }

  /**
   * The songplays rows are the plays of exactly the matching (event, song)
   * pairs: each row comes from one, and each one gives a row.
   */
  lemma {:induction false} SongplaysInsertRows(events: seq<StagingEvent>, staged: seq<StagingSong>)
    ensures forall p :: p in SongplaysInsert(events, staged) ==>
      exists e, s :: e in events && s in staged && IsPlay(e, s) && p == PlayOf(e, s)
    ensures forall e, s {:trigger PlayOf(e, s)} :: e in events && s in staged && IsPlay(e, s) ==>
      PlayOf(e, s) in SongplaysInsert(events, staged)
    decreases |events|
  {
    if events != [] {
      var init, last := events[..|events| - 1], events[|events| - 1];
      assert events == init + [last];
      SongplaysInsertRows(init, staged);
      EventPlaysRows(last, staged);
    }
  }

  /** Over one event and one staged song, each dimension insert yields exactly that row's projection. */
  lemma DimensionsOfOneRow(e: StagingEvent, s: StagingSong, cal: Calendar)
    ensures UsersInsert([e]) == [UserOf(e)]
    ensures SongsInsert([s]) == [SongOf(s)]
    ensures ArtistsInsert([s]) == [ArtistOf(s)]
    ensures TimeInsert([e], cal) == [TimeRowOf(StartTime(e.ts), cal)]
  {
    SelectDistinctOfOne(UserOf, e);
    SelectDistinctOfOne(SongOf, s);
    SelectDistinctOfOne(ArtistOf, s);
    TimeOfOneEvent(e, cal);
  }

  lemma TimeOfOneEvent(e: StagingEvent, cal: Calendar)
    ensures TimeInsert([e], cal) == [TimeRowOf(StartTime(e.ts), cal)]
  {
    var f := t => TimeRowOf(t, cal);
    SelectDistinctOfOne(EventStartTime, e);
    assert Project(f, [StartTime(e.ts)]) == [f(StartTime(e.ts))];
  }

  // Properties of the songplays join.

  /** A single (event, song) pair yields one row when it matches and none otherwise. */
  lemma SongplaysOfOnePair(e: StagingEvent, s: StagingSong)
    ensures SongplaysInsert([e], [s]) == if IsPlay(e, s) then [PlayOf(e, s)] else []
  {
    assert [e][..0] == [];
    assert [s][..0] == [];
  }

  lemma {:induction false} EventPlaysAppend(e: StagingEvent, a: seq<StagingSong>, b: seq<StagingSong>)
    ensures EventPlays(e, a + b) == EventPlays(e, a) + EventPlays(e, b)
    decreases |b|
  {
    if b == [] {
      assert a + b == a;
    } else {
      var init, last := b[..|b| - 1], b[|b| - 1];
      assert a + b == (a + init) + [last];
      assert (a + b)[..|a + b| - 1] == a + init;
      EventPlaysAppend(e, a, init);
    }
  }

  /** The join is additive in the events: the rows of a + b are the rows of a, then of b. */
  lemma {:induction false} SongplaysEventsAppend(a: seq<StagingEvent>, b: seq<StagingEvent>, staged: seq<StagingSong>)
    ensures SongplaysInsert(a + b, staged) == SongplaysInsert(a, staged) + SongplaysInsert(b, staged)
    decreases |b|
  {
    if b == [] {
      assert a + b == a;
    } else {
      var init, last := b[..|b| - 1], b[|b| - 1];
      assert (a + b)[..|a + b| - 1] == a + init;
      assert (a + b)[|a + b| - 1] == last;
      SongplaysEventsAppend(a, init, staged);
      var tail := EventPlays(last, staged);
      assert SongplaysInsert(a + b, staged) == SongplaysInsert(a + init, staged) + tail;
      assert SongplaysInsert(b, staged) == SongplaysInsert(init, staged) + tail;
      assert (SongplaysInsert(a, staged) + SongplaysInsert(init, staged)) + tail ==
        SongplaysInsert(a, staged) + (SongplaysInsert(init, staged) + tail);
    }
  }

  /**
   * The join is additive in the songs: as a bag, the rows for songs a + b
   * are the rows for a plus the rows for b. With SongplaysOfOnePair and
   * SongplaysEventsAppend this says there is exactly one row per matching
   * (event, song) pair.
   */
  lemma {:induction false} SongplaysSongsAppend(events: seq<StagingEvent>, a: seq<StagingSong>, b: seq<StagingSong>)
    ensures multiset(SongplaysInsert(events, a + b)) == multiset(SongplaysInsert(events, a)) + multiset(SongplaysInsert(events, b))
    decreases |events|
  {
    if events != [] {
      var init, last := events[..|events| - 1], events[|events| - 1];
      SongplaysSongsAppend(init, a, b);
      EventPlaysAppend(last, a, b);
    }
  }

  /** The index pairs (i, j) of a matching event and staged song whose play is the row `p`. */
  function MatchingPairs(events: seq<StagingEvent>, staged: seq<StagingSong>, p: SongplayRow): set<(int, int)> {
    set i, j | 0 <= i < |events| && 0 <= j < |staged| && IsPlay(events[i], staged[j]) && PlayOf(events[i], staged[j]) == p :: (i, j)
  }

  /** The pairs (i, j) for the one event `e`, standing at index i, that match staged song j and play as `p`. */
  function MatchingSongs(i: int, e: StagingEvent, staged: seq<StagingSong>, p: SongplayRow): set<(int, int)> {
    set j | 0 <= j < |staged| && IsPlay(e, staged[j]) && PlayOf(e, staged[j]) == p :: (i, j)
  }

  /** One event's rows hold `p` once per staged song it matches with that play. */
  lemma {:induction false} EventPlaysCount(i: int, e: StagingEvent, staged: seq<StagingSong>, p: SongplayRow)
    ensures multiset(EventPlays(e, staged))[p] == |MatchingSongs(i, e, staged, p)|
    decreases |staged|
  {
    if staged == [] {
      assert MatchingSongs(i, e, staged, p) == {};
    } else {
      var n := |staged|;
      var init, last := staged[..n - 1], staged[n - 1];
      EventPlaysCount(i, e, init, p);
      MatchingSongsSplit(i, e, staged, p);
      var before := MatchingSongs(i, e, init, p);
      var tail := if IsPlay(e, last) then [PlayOf(e, last)] else [];
      assert EventPlays(e, staged) == EventPlays(e, init) + tail;
      assert multiset(EventPlays(e, staged)) == multiset(EventPlays(e, init)) + multiset(tail);
      if IsPlay(e, last) && PlayOf(e, last) == p {
        assert multiset(tail)[p] == 1;
        DisjointCard(before, {(i, n - 1)});
      } else {
        assert multiset(tail)[p] == 0;
        assert MatchingSongs(i, e, staged, p) == before;
      }
    }
  }

  lemma MatchingSongsSplit(i: int, e: StagingEvent, staged: seq<StagingSong>, p: SongplayRow)
    requires staged != []
    ensures var n := |staged|;
      && MatchingSongs(i, e, staged, p) ==
        MatchingSongs(i, e, staged[..n - 1], p) + (if IsPlay(e, staged[n - 1]) && PlayOf(e, staged[n - 1]) == p then {(i, n - 1)} else {})
      && (i, n - 1) !in MatchingSongs(i, e, staged[..n - 1], p)
  {
    var n := |staged|;
    var init := staged[..n - 1];
    forall x | x in MatchingSongs(i, e, staged, p) && x.1 < n - 1
      ensures x in MatchingSongs(i, e, init, p)
    {
      assert init[x.1] == staged[x.1];
    }
    forall x | x in MatchingSongs(i, e, init, p)
      ensures x in MatchingSongs(i, e, staged, p)
    {
      assert staged[x.1] == init[x.1];
    }
  }

  lemma DisjointCard<T>(a: set<T>, b: set<T>)
    requires a * b == {}
    ensures |a + b| == |a| + |b|
  {
  }

  /**
   * Row by row, the songplays insert holds each row as many times as there
   * are index pairs (i, j) whose event i and staged song j match and play
   * as that row: the join is the bag of plays over all matching pairs.
   */
  lemma {:induction false} SongplaysCount(events: seq<StagingEvent>, staged: seq<StagingSong>, p: SongplayRow)
    ensures multiset(SongplaysInsert(events, staged))[p] == |MatchingPairs(events, staged, p)|
    decreases |events|
  {
    if events == [] {
      assert MatchingPairs(events, staged, p) == {};
    } else {
      var n := |events|;
      var init, last := events[..n - 1], events[n - 1];
      SongplaysCount(init, staged, p);
      EventPlaysCount(n - 1, last, staged, p);
      MatchingPairsSplit(events, staged, p);
      DisjointCard(MatchingPairs(init, staged, p), MatchingSongs(n - 1, last, staged, p));
    }
  }

  lemma MatchingPairsSplit(events: seq<StagingEvent>, staged: seq<StagingSong>, p: SongplayRow)
    requires events != []
    ensures var n := |events|;
      && MatchingPairs(events, staged, p) == MatchingPairs(events[..n - 1], staged, p) + MatchingSongs(n - 1, events[n - 1], staged, p)
      && MatchingPairs(events[..n - 1], staged, p) * MatchingSongs(n - 1, events[n - 1], staged, p) == {}
  {
    var n := |events|;
    var init, last := events[..n - 1], events[n - 1];
    forall x | x in MatchingPairs(events, staged, p) && x.0 < n - 1
      ensures x in MatchingPairs(init, staged, p)
    {
      assert init[x.0] == events[x.0];
    }
    forall x | x in MatchingPairs(init, staged, p)
      ensures x in MatchingPairs(events, staged, p)
    {
      assert events[x.0] == init[x.0];
    }
  }

  /** Without DISTINCT, a song staged twice gives every matching event two plays. */
  lemma SongplaysKeepDuplicateSongs(e: StagingEvent, s: StagingSong)
    requires IsPlay(e, s)
    ensures SongplaysInsert([e], [s, s]) == [PlayOf(e, s), PlayOf(e, s)]
  {
    EventPlaysAppend(e, [s], [s]);
    assert [s, s] == [s] + [s];
    assert [s][..0] == [];
    assert [e][..0] == [];
  }

  /** The staging events whose page is NextSong, in order. */
  function NextSongEvents(events: seq<StagingEvent>): (r: seq<StagingEvent>)
    ensures forall e :: e in r <==> e in events && e.page == "NextSong"
    decreases |events|
  {
    if events == [] then []
    else
      var init, last := events[..|events| - 1], events[|events| - 1];
      assert events == init + [last];
      NextSongEvents(init) + (if last.page == "NextSong" then [last] else [])
  }

  /**
   * The WHERE filter drops exactly the non-NextSong events: the insert gives
   * the same rows, in the same order, as the join of the NextSong events alone.
   */
  lemma {:induction false} SongplaysOnlyNextSong(events: seq<StagingEvent>, staged: seq<StagingSong>)
    ensures SongplaysInsert(events, staged) == SongplaysInsert(NextSongEvents(events), staged)
    decreases |events|
  {
    if events != [] {
      var init, last := events[..|events| - 1], events[|events| - 1];
      var kept := NextSongEvents(init);
      SongplaysOnlyNextSong(init, staged);
      assert SongplaysInsert(events, staged) == SongplaysInsert(kept, staged) + EventPlays(last, staged);
      if last.page == "NextSong" {
        assert NextSongEvents(events) == kept + [last];
        assert (kept + [last])[..|kept + [last]| - 1] == kept;
      } else {
        assert NextSongEvents(events) == kept;
        NoPlaysForOtherPages(last, staged);
      }
    }
  }

  lemma {:induction false} NoPlaysForOtherPages(e: StagingEvent, staged: seq<StagingSong>)
    requires e.page != "NextSong"
    ensures EventPlays(e, staged) == []
    decreases |staged|
  {
    if staged != [] {
      NoPlaysForOtherPages(e, staged[..|staged| - 1]);
    }
  }

  // Properties of the users insert.

  /** users.first_name and users.last_name are VARCHAR(128), half the width of their staging columns. */
  const NameWidth := 128

  /** `s` without its trailing blanks, which the engine neither counts against a VARCHAR width nor compares. */
  function TrimTrailingBlanks(s: string): (r: string)
    ensures |r| <= |s| && r == s[..|r|]
    ensures forall i :: |r| <= i < |s| ==> s[i] == ' '
    ensures r == [] || r[|r| - 1] != ' '
    decreases |s|
  {
    if s != [] && s[|s| - 1] == ' ' then TrimTrailingBlanks(s[..|s| - 1]) else s
  }

  /** Appending a blank changes nothing the engine looks at: the trimmed value stays the same. */
  lemma TrailingBlankIgnored(s: string)
    ensures TrimTrailingBlanks(s + [' ']) == TrimTrailingBlanks(s)
  {
    assert (s + [' '])[..|s|] == s;
  }

  /**
   * A value fits VARCHAR(128) when it is at most 128 characters long once
   * trailing blanks are set aside: excess that is all blanks is cut off,
   * any other excess is refused.
   */
  predicate NameFits(name: string) {
    |TrimTrailingBlanks(name)| <= NameWidth
  }

  /** Every user row's names fit their VARCHAR(128) columns. */
  predicate UsersFit(users: seq<UserRow>) {
    forall u :: u in users ==> NameFits(u.firstName) && NameFits(u.lastName)
  }

  /** Every staging event's user names fit VARCHAR(128). */
  predicate NamesFit(events: seq<StagingEvent>) {
    forall e :: e in events ==> NameFits(e.userFirstName) && NameFits(e.userLastName)
  }

  /** The users insert fits its columns exactly when every staging event's names do. */
  lemma UsersFitIff(events: seq<StagingEvent>)
    ensures UsersFit(UsersInsert(events)) <==> NamesFit(events)
  {
    if UsersFit(UsersInsert(events)) {
      forall e | e in events
        ensures NameFits(e.userFirstName) && NameFits(e.userLastName)
      {
        assert UserOf(e) in UsersInsert(events);
      }
    }
  }

  /**
   * The users insert does not enforce its PRIMARY KEY: two events of one
   * user with different levels give two rows with the same user_id.
   */
  lemma UsersRepeatIdOnLevelChange(events: seq<StagingEvent>, i: nat, j: nat)
    requires i < |events| && j < |events|
    requires events[i].userId == events[j].userId && events[i].userLevel != events[j].userLevel
    ensures exists a, b :: 0 <= a < b < |UsersInsert(events)| && UsersInsert(events)[a].userId == UsersInsert(events)[b].userId
  {
    var users := UsersInsert(events);
    assert events[i] in events && events[j] in events;
    var a :| 0 <= a < |users| && users[a] == UserOf(events[i]);
    var b :| 0 <= b < |users| && users[b] == UserOf(events[j]);
    assert a != b;
    if a < b {
      assert users[a].userId == users[b].userId;
    } else {
      assert users[b].userId == users[a].userId;
    }
  }

  // Referential integrity of the fact rows.

  function UserIds(users: seq<UserRow>): set<string> {
    set u | u in users :: u.userId
  }

  function SongIds(songs: seq<SongRow>): set<string> {
    set s | s in songs :: s.songId
  }

  function ArtistIds(artists: seq<ArtistRow>): set<string> {
    set a | a in artists :: a.artistId
  }

  function StartTimes(times: seq<TimeRow>): set<Timestamp> {
    set t | t in times :: t.startTime
  }

  /** Every REFERENCES column of a songplays row has a matching row in its dimension. */
  predicate KeysPresent(p: SongplayRow, users: seq<UserRow>, songs: seq<SongRow>, artists: seq<ArtistRow>, times: seq<TimeRow>) {
    && p.startTime in StartTimes(times)
    && p.userId in UserIds(users)
    && p.songId in SongIds(songs)
    && p.artistId in ArtistIds(artists)
  }

  /** Every row of `plays` finds its keys in the given dimension rows. */
  predicate AllKeysPresent(plays: seq<SongplayRow>, users: seq<UserRow>, songs: seq<SongRow>, artists: seq<ArtistRow>, times: seq<TimeRow>) {
    forall p :: p in plays ==> KeysPresent(p, users, songs, artists, times)
  }

  /** While any one dimension is empty, fact rows find their keys only if there are none. */
  lemma EmptyDimensionBlocksKeys(plays: seq<SongplayRow>, users: seq<UserRow>, songs: seq<SongRow>, artists: seq<ArtistRow>, times: seq<TimeRow>)
    requires users == [] || songs == [] || artists == [] || times == []
    ensures AllKeysPresent(plays, users, songs, artists, times) <==> plays == []
  {
    if plays != [] {
      var p := plays[0];
      assert p in plays;
      if users == [] {
        assert UserIds(users) == {};
      } else if songs == [] {
        assert SongIds(songs) == {};
      } else if artists == [] {
        assert ArtistIds(artists) == {};
      } else {
        assert StartTimes(times) == {};
      }
      assert !KeysPresent(p, users, songs, artists, times);
    }
  }

  lemma UserIdPresent(events: seq<StagingEvent>, e: StagingEvent)
    requires e in events
    ensures e.userId in UserIds(UsersInsert(events))
  {
    var u := UserOf(e);
    assert u in UsersInsert(events);
  }

  lemma StartTimePresent(events: seq<StagingEvent>, cal: Calendar, e: StagingEvent)
    requires e in events
    ensures StartTime(e.ts) in StartTimes(TimeInsert(events, cal))
  {
    TimeInsertRows(events, cal);
    var t := TimeRowOf(StartTime(e.ts), cal);
    assert t in TimeInsert(events, cal);
  }

  lemma SongIdPresent(staged: seq<StagingSong>, s: StagingSong)
    requires s in staged
    ensures s.songId in SongIds(SongsInsert(staged))
  {
    var so := SongOf(s);
    assert so in SongsInsert(staged);
  }

  lemma ArtistIdPresent(staged: seq<StagingSong>, s: StagingSong)
    requires s in staged
    ensures s.artistId in ArtistIds(ArtistsInsert(staged))
  {
    var a := ArtistOf(s);
    assert a in ArtistsInsert(staged);
  }

  lemma PlayKeysPresent(events: seq<StagingEvent>, staged: seq<StagingSong>, cal: Calendar, e: StagingEvent, s: StagingSong)
    requires e in events && s in staged
    ensures KeysPresent(PlayOf(e, s), UsersInsert(events), SongsInsert(staged), ArtistsInsert(staged), TimeInsert(events, cal))
  {
    UserIdPresent(events, e);
    StartTimePresent(events, cal, e);
    SongIdPresent(staged, s);
    ArtistIdPresent(staged, s);
  }

  /**
   * Every songplays row finds its start time, user, song and artist in the
   * dimension rows computed from the same staging data, because both sides
   * use the same source columns.
   */
  lemma SongplaysReferentialIntegrity(events: seq<StagingEvent>, staged: seq<StagingSong>, cal: Calendar)
    ensures AllKeysPresent(SongplaysInsert(events, staged), UsersInsert(events), SongsInsert(staged), ArtistsInsert(staged), TimeInsert(events, cal))
  {
    SongplaysInsertRows(events, staged);
    forall p | p in SongplaysInsert(events, staged)
      ensures KeysPresent(p, UsersInsert(events), SongsInsert(staged), ArtistsInsert(staged), TimeInsert(events, cal))
    {
      var e, s :| e in events && s in staged && IsPlay(e, s) && p == PlayOf(e, s);
      PlayKeysPresent(events, staged, cal, e, s);
    }
  }
}

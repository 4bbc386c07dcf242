/**
 * The database open helper: the statements that create a fresh schema, the ladder of
 * upgrade steps an existing database runs from its stored version, and the pragmas
 * set on every open. Each SQL statement is an opaque label appended to a log.
 */
module Database {
  const DATABASE_NAME := "tachiyomi.db"
  const DATABASE_VERSION := 17

  datatype Table = Mangas | Chapters | Tracks | Categories | MangasCategories | History

  datatype Index = MangaUrl | MangaLibrary | ChapterMangaId | ChapterUnread | HistoryChapterId

  /** The table each index is built on. */
  function IndexedTable(i: Index): Table {
    match i
    case MangaUrl => Mangas
    case MangaLibrary => Mangas
    case ChapterMangaId => Chapters
    case ChapterUnread => Chapters
    case HistoryChapterId => History
  }

  /** The statements the helper issues, named after the query constants they stand for. */
  datatype Sql =
    | CreateTable(table: Table)
    | CreateIndex(index: Index)
    | ChapterSourceOrderUpdate
    | KissmangaCoverFix
    | ChapterBookmarkUpdate
    | ChapterAddScanlator
    | TrackAddTrackingUrl
    | TrackAddLibraryId
    | DropFavoriteIndex
    | MangaAddHideTitle
    | CategoryAddMangaOrder
    | ChapterPagesLeft
    | MangaAddDateAdded
    | TrackAddStartDate
    | TrackAddFinishDate
    | MangaAddFilteredScanlators
    | TrackRenameTableToTemp
    | TrackInsertFromTempTable
    | TrackDropTempTable
    | MangaAddUpdateStrategy
    | TrackUpdateMangaUpdatesScore

  /** What reaches the database: an `execSQL`, a `query` or the foreign-key switch. */
  datatype Statement = Exec(sql: Sql) | Query(text: string) | EnableForeignKeyConstraints

  /** The database connection, seen as the log of what was sent to it. */
  class Db {
    var log: seq<Statement>

    constructor ()
      ensures log == []
    {
      log := [];
    }

    method ExecSql(sql: Sql)
      modifies this
      ensures log == old(log) + [Exec(sql)]
    {
      log := log + [Exec(sql)];
    }

    method RunQuery(text: string)
      modifies this
      ensures log == old(log) + [Query(text)]
    {
      log := log + [Query(text)];
    }

    method SetForeignKeyConstraintsEnabled()
      modifies this
      ensures log == old(log) + [EnableForeignKeyConstraints]
    {
      log := log + [EnableForeignKeyConstraints];
    }
  }

  // ---------------------------------------------------------------------------
  // onOpen / onConfigure
  // ---------------------------------------------------------------------------

  /** The three pragma settings, in the order they are set. */
  function OpenPragmas(): seq<string> {
    ["foreign_keys = ON", "journal_mode = WAL", "synchronous = NORMAL"]
  }

  /** `setPragma(db, pragma)`: a query of `PRAGMA <pragma>`. */
  method SetPragma(db: Db, pragma: string)
    modifies db
    ensures db.log == old(db.log) + [Query("PRAGMA " + pragma)]
  {
    db.RunQuery("PRAGMA " + pragma);
  }

  /** `onOpen`: one pragma query per setting, in order, and nothing else. */
  method OnOpen(db: Db)
    modifies db
    ensures |db.log| == |old(db.log)| + |OpenPragmas()|
    ensures db.log[..|old(db.log)|] == old(db.log)
    ensures forall i :: 0 <= i < |OpenPragmas()| ==>
              db.log[|old(db.log)| + i] == Query("PRAGMA " + OpenPragmas()[i])
  {
    SetPragma(db, "foreign_keys = ON");
    SetPragma(db, "journal_mode = WAL");
    SetPragma(db, "synchronous = NORMAL");
  }

  /** `onConfigure`: foreign-key constraints are switched on. */
  method OnConfigure(db: Db)
    modifies db
    ensures db.log == old(db.log) + [EnableForeignKeyConstraints]
  {
    db.SetForeignKeyConstraintsEnabled();
  }

  // ---------------------------------------------------------------------------
  // onCreate
  // ---------------------------------------------------------------------------

  /** The fresh-schema statements: the six tables, then the five indexes. */
  function CreatePlan(): seq<Statement> {
    [ Exec(CreateTable(Mangas)), Exec(CreateTable(Chapters)), Exec(CreateTable(Tracks)),
      Exec(CreateTable(Categories)), Exec(CreateTable(MangasCategories)), Exec(CreateTable(History)),
      Exec(CreateIndex(MangaUrl)), Exec(CreateIndex(MangaLibrary)), Exec(CreateIndex(ChapterMangaId)),
      Exec(CreateIndex(ChapterUnread)), Exec(CreateIndex(HistoryChapterId)) ]
  }

  predicate IsCreateTable(s: Statement) {
    s.Exec? && s.sql.CreateTable?
  }

  predicate IsCreateIndex(s: Statement) {
    s.Exec? && s.sql.CreateIndex?
  }

  /** In a statement list, every index comes after the creation of the table it is built on. */
  predicate IndexesFollowTables(plan: seq<Statement>) {
    forall i :: 0 <= i < |plan| && IsCreateIndex(plan[i]) ==>
      exists j :: 0 <= j < i && plan[j] == Exec(CreateTable(IndexedTable(plan[i].sql.index)))
  }

  /** The fresh schema creates every table and every index. */
  lemma CreatePlanCoversSchema()
    ensures forall t: Table :: Exec(CreateTable(t)) in CreatePlan()
    ensures forall x: Index :: Exec(CreateIndex(x)) in CreatePlan()
  {
    forall t: Table
      ensures Exec(CreateTable(t)) in CreatePlan()
    {
      CreatesTable(t);
    }
    forall x: Index
      ensures Exec(CreateIndex(x)) in CreatePlan()
    {
      CreatesIndex(x);
    }
  }

  lemma CreatesTable(t: Table)
    ensures Exec(CreateTable(t)) in CreatePlan()
  {
    var p := CreatePlan();
    match t
    case Mangas => assert p[0] == Exec(CreateTable(t));
    case Chapters => assert p[1] == Exec(CreateTable(t));
    case Tracks => assert p[2] == Exec(CreateTable(t));
    case Categories => assert p[3] == Exec(CreateTable(t));
    case MangasCategories => assert p[4] == Exec(CreateTable(t));
    case History => assert p[5] == Exec(CreateTable(t));
  }

  lemma CreatesIndex(x: Index)
    ensures Exec(CreateIndex(x)) in CreatePlan()
  {
    var p := CreatePlan();
    match x
    case MangaUrl => assert p[6] == Exec(CreateIndex(x));
    case MangaLibrary => assert p[7] == Exec(CreateIndex(x));
    case ChapterMangaId => assert p[8] == Exec(CreateIndex(x));
    case ChapterUnread => assert p[9] == Exec(CreateIndex(x));
    case HistoryChapterId => assert p[10] == Exec(CreateIndex(x));
  }

  /** The first six statements create tables and the last five create indexes. */
  lemma CreatePlanTablesFirst()
    ensures |CreatePlan()| == 11
    ensures forall i :: 0 <= i < |CreatePlan()| ==> (IsCreateTable(CreatePlan()[i]) <==> i < 6)
    ensures forall i :: 0 <= i < |CreatePlan()| ==> (IsCreateIndex(CreatePlan()[i]) <==> 6 <= i)
  {
  }

  /** So each index is created after the table it is built on. */
  lemma CreatePlanIndexesFollowTables()
    ensures IndexesFollowTables(CreatePlan())
  {
    var p := CreatePlan();
    forall i | 0 <= i < |p| && IsCreateIndex(p[i])
      ensures exists j :: 0 <= j < i && p[j] == Exec(CreateTable(IndexedTable(p[i].sql.index)))
    {
      CreatePlanTablesFirst();
      match IndexedTable(p[i].sql.index)
      case Mangas => assert p[0] == Exec(CreateTable(Mangas));
      case Chapters => assert p[1] == Exec(CreateTable(Chapters));
      case History => assert p[5] == Exec(CreateTable(History));
      case _ => assert false;
    }
  }

  /** `onCreate`. */
  method OnCreate(db: Db)
    modifies db
    ensures db.log == old(db.log) + CreatePlan()
  {
    ghost var start := db.log;
    db.ExecSql(CreateTable(Mangas));
    db.ExecSql(CreateTable(Chapters));
    db.ExecSql(CreateTable(Tracks));
    db.ExecSql(CreateTable(Categories));
    db.ExecSql(CreateTable(MangasCategories));
    db.ExecSql(CreateTable(History));
    assert db.log == start + CreatePlan()[..6];

    db.ExecSql(CreateIndex(MangaUrl));
    db.ExecSql(CreateIndex(MangaLibrary));
    db.ExecSql(CreateIndex(ChapterMangaId));
    db.ExecSql(CreateIndex(ChapterUnread));
    db.ExecSql(CreateIndex(HistoryChapterId));
    assert CreatePlan() == CreatePlan()[..6] + CreatePlan()[6..];
  }

  // ---------------------------------------------------------------------------
  // onUpgrade
  // ---------------------------------------------------------------------------

  /** The statements of the upgrade step to version `v` (2..17); no other version has a step. */
  function Step(v: int): seq<Statement> {
    if v == 2 then [Exec(ChapterSourceOrderUpdate), Exec(KissmangaCoverFix)]
    else if v == 3 then [Exec(CreateTable(History)), Exec(CreateIndex(HistoryChapterId))]
    else if v == 4 then [Exec(ChapterBookmarkUpdate)]
    else if v == 5 then [Exec(ChapterAddScanlator)]
    else if v == 6 then [Exec(TrackAddTrackingUrl)]
    else if v == 7 then [Exec(TrackAddLibraryId)]
    else if v == 8 then [Exec(DropFavoriteIndex), Exec(CreateIndex(MangaLibrary)), Exec(CreateIndex(ChapterUnread))]
    else if v == 9 then [Exec(MangaAddHideTitle)]
    else if v == 10 then [Exec(CategoryAddMangaOrder)]
    else if v == 11 then [Exec(ChapterPagesLeft)]
    else if v == 12 then [Exec(MangaAddDateAdded)]
    else if v == 13 then [Exec(TrackAddStartDate), Exec(TrackAddFinishDate)]
    else if v == 14 then [Exec(MangaAddFilteredScanlators)]
    else if v == 15 then [Exec(TrackRenameTableToTemp), Exec(CreateTable(Tracks)), Exec(TrackInsertFromTempTable), Exec(TrackDropTempTable)]
    else if v == 16 then [Exec(MangaAddUpdateStrategy)]
    else if v == 17 then [Exec(TrackUpdateMangaUpdatesScore)]
    else []
  }

  /** The statements the if-chain has issued once it has passed the test for version `v`. */
  function Ladder(oldVersion: int, v: int): seq<Statement>
    decreases v
  {
    if v < 2 then [] else Ladder(oldVersion, v - 1) + Guarded(oldVersion, v)
  }

  /** What the test for version `v` issues: its step when the database is older, else nothing. */
  function Guarded(oldVersion: int, v: int): seq<Statement> {
    if oldVersion < v then Step(v) else []
  }

  /** The whole upgrade from `oldVersion`. */
  function UpgradePlan(oldVersion: int): seq<Statement> {
    Ladder(oldVersion, DATABASE_VERSION)
  }

  /** The statements of steps `lo` to `hi` of a ladder `f`, in increasing order. */
  function Runs(f: int -> seq<Statement>, lo: int, hi: int): seq<Statement>
    decreases hi - lo
  {
    if lo > hi then [] else Runs(f, lo, hi - 1) + f(hi)
  }

  /** The upgrade steps for versions `lo` to `hi`, in increasing order. */
  function Range(lo: int, hi: int): seq<Statement> {
    Runs(Step, lo, hi)
  }

  function Max(a: int, b: int): int {
    if a >= b then a else b
  }

  /** The if-chain up to `v` has run exactly the steps from `oldVersion + 1` (at least 2) to `v`. */
  lemma {:induction false} LadderIsRange(oldVersion: int, v: int)
    ensures Ladder(oldVersion, v) == Range(Max(oldVersion + 1, 2), v)
    decreases v
  {
    if v >= 2 {
      LadderIsRange(oldVersion, v - 1);
      if oldVersion >= v {
        assert Range(Max(oldVersion + 1, 2), v - 1) == [];
      }
    }
  }

  /** The upgrade runs the steps from `oldVersion + 1` to 17, in increasing order. */
  lemma UpgradePlanIsRange(oldVersion: int)
    ensures UpgradePlan(oldVersion) == Range(Max(oldVersion + 1, 2), 17)
  {
    LadderIsRange(oldVersion, 17);
  }

  /** A database already at version 17 (or newer) runs no statement. */
  lemma NothingToUpgrade(oldVersion: int)
    requires oldVersion >= DATABASE_VERSION
    ensures UpgradePlan(oldVersion) == []
  {
    UpgradePlanIsRange(oldVersion);
  }

  lemma {:induction false} RunsSplit(f: int -> seq<Statement>, lo: int, m: int, hi: int)
    requires lo <= m <= hi
    ensures Runs(f, lo, hi) == Runs(f, lo, m - 1) + f(m) + Runs(f, m + 1, hi)
    decreases hi - m
  {
    if m < hi {
      RunsSplit(f, lo, m, hi - 1);
      assert Runs(f, m + 1, hi) == Runs(f, m + 1, hi - 1) + f(hi);
    } else {
      assert Runs(f, m + 1, hi) == [];
    }
  }

  /** A run of steps splits around any step inside it. */
  lemma RangeSplit(lo: int, m: int, hi: int)
    requires lo <= m <= hi
    ensures Range(lo, hi) == Range(lo, m - 1) + Step(m) + Range(m + 1, hi)
  {
    RunsSplit(Step, lo, m, hi);
  }

  /** The first statement of step `v` is issued by no other step. */
  lemma LeaderIsUnique(v: int, u: int)
    requires 2 <= v <= 17 && 2 <= u <= 17 && u != v
    ensures Step(v)[0] !in Step(u)
  {
  }

  /** The first statement of step `v` is in the run `lo..hi` exactly when `v` is in it. */
  lemma {:induction false} LeaderInRange(v: int, lo: int, hi: int)
    requires 2 <= v <= 17 && 2 <= lo
    ensures Step(v)[0] in Range(lo, hi) <==> lo <= v <= hi
    decreases hi - lo
  {
    if lo <= hi {
      LeaderInRange(v, lo, hi - 1);
      assert Range(lo, hi) == Range(lo, hi - 1) + Step(hi);
      if hi != v && hi <= 17 {
        LeaderIsUnique(v, hi);
      }
    }
  }

  /** The step to version `v` runs exactly when the database is older than `v`. */
  lemma StepRunsIff(oldVersion: int, v: int)
    requires 2 <= v <= 17
    ensures Step(v)[0] in UpgradePlan(oldVersion) <==> oldVersion < v
  {
    UpgradePlanIsRange(oldVersion);
    LeaderInRange(v, Max(oldVersion + 1, 2), 17);
  }

  /** When steps `v < w` both run, all of step `v` comes before all of step `w`. */
  lemma StepsInOrder(oldVersion: int, v: int, w: int)
    requires oldVersion < v < w <= 17 && 2 <= v
    ensures UpgradePlan(oldVersion) ==
      Range(Max(oldVersion + 1, 2), v - 1) + Step(v) + Range(v + 1, w - 1) + Step(w) + Range(w + 1, 17)
  {
    UpgradePlanIsRange(oldVersion);
    RangeSplit(Max(oldVersion + 1, 2), w, 17);
    RangeSplit(Max(oldVersion + 1, 2), v, w - 1);
  }

  /** The step to version 15 rebuilds the track table: rename, create, copy back, drop, back to back. */
  lemma TrackTableRebuilt(oldVersion: int)
    requires oldVersion < 15
    ensures UpgradePlan(oldVersion) ==
      Range(Max(oldVersion + 1, 2), 14)
      + [Exec(TrackRenameTableToTemp), Exec(CreateTable(Tracks)), Exec(TrackInsertFromTempTable), Exec(TrackDropTempTable)]
      + Range(16, 17)
  {
    UpgradePlanIsRange(oldVersion);
    RangeSplit(Max(oldVersion + 1, 2), 15, 17);
  }

  lemma AppendAssoc(a: seq<Statement>, b: seq<Statement>, c: seq<Statement>)
    ensures (a + b) + c == a + (b + c)
  {
  }

  /** The if-chain written out: each of the sixteen tests in turn. */
  lemma LadderUnrolled(oldVersion: int)
    ensures UpgradePlan(oldVersion) == (((((((((((((((([] + Guarded(oldVersion, 2)) + Guarded(oldVersion, 3)) + Guarded(oldVersion, 4)) + Guarded(oldVersion, 5)) + Guarded(oldVersion, 6)) + Guarded(oldVersion, 7)) + Guarded(oldVersion, 8)) + Guarded(oldVersion, 9)) + Guarded(oldVersion, 10)) + Guarded(oldVersion, 11)) + Guarded(oldVersion, 12)) + Guarded(oldVersion, 13)) + Guarded(oldVersion, 14)) + Guarded(oldVersion, 15)) + Guarded(oldVersion, 16)) + Guarded(oldVersion, 17))
  {
    assert Ladder(oldVersion, 1) == [];
    assert Ladder(oldVersion, 2) == Ladder(oldVersion, 1) + Guarded(oldVersion, 2);
    assert Ladder(oldVersion, 3) == Ladder(oldVersion, 2) + Guarded(oldVersion, 3);
    assert Ladder(oldVersion, 4) == Ladder(oldVersion, 3) + Guarded(oldVersion, 4);
    assert Ladder(oldVersion, 5) == Ladder(oldVersion, 4) + Guarded(oldVersion, 5);
    assert Ladder(oldVersion, 6) == Ladder(oldVersion, 5) + Guarded(oldVersion, 6);
    assert Ladder(oldVersion, 7) == Ladder(oldVersion, 6) + Guarded(oldVersion, 7);
    assert Ladder(oldVersion, 8) == Ladder(oldVersion, 7) + Guarded(oldVersion, 8);
    assert Ladder(oldVersion, 9) == Ladder(oldVersion, 8) + Guarded(oldVersion, 9);
    assert Ladder(oldVersion, 10) == Ladder(oldVersion, 9) + Guarded(oldVersion, 10);
    assert Ladder(oldVersion, 11) == Ladder(oldVersion, 10) + Guarded(oldVersion, 11);
    assert Ladder(oldVersion, 12) == Ladder(oldVersion, 11) + Guarded(oldVersion, 12);
    assert Ladder(oldVersion, 13) == Ladder(oldVersion, 12) + Guarded(oldVersion, 13);
    assert Ladder(oldVersion, 14) == Ladder(oldVersion, 13) + Guarded(oldVersion, 14);
    assert Ladder(oldVersion, 15) == Ladder(oldVersion, 14) + Guarded(oldVersion, 15);
    assert Ladder(oldVersion, 16) == Ladder(oldVersion, 15) + Guarded(oldVersion, 16);
    assert Ladder(oldVersion, 17) == Ladder(oldVersion, 16) + Guarded(oldVersion, 17);
  }

  /**
   * `onUpgrade(db, oldVersion, newVersion)`: the sixteen version tests in increasing
   * order; `newVersion` plays no part.
   */
  method OnUpgrade(db: Db, oldVersion: int, newVersion: int)
    modifies db
    ensures db.log == old(db.log) + UpgradePlan(oldVersion)
  {
    ghost var start := db.log;
    ghost var issued: seq<Statement> := [];
    assert db.log == start + issued;
    UpgradeTo2(db, oldVersion);
    AppendAssoc(start, issued, Guarded(oldVersion, 2));
    issued := issued + Guarded(oldVersion, 2);
    UpgradeTo3(db, oldVersion);
    AppendAssoc(start, issued, Guarded(oldVersion, 3));
    issued := issued + Guarded(oldVersion, 3);
    UpgradeTo4(db, oldVersion);
    AppendAssoc(start, issued, Guarded(oldVersion, 4));
    issued := issued + Guarded(oldVersion, 4);
    UpgradeTo5(db, oldVersion);
    AppendAssoc(start, issued, Guarded(oldVersion, 5));
    issued := issued + Guarded(oldVersion, 5);
    UpgradeTo6(db, oldVersion);
    AppendAssoc(start, issued, Guarded(oldVersion, 6));
    issued := issued + Guarded(oldVersion, 6);
    UpgradeTo7(db, oldVersion);
    AppendAssoc(start, issued, Guarded(oldVersion, 7));
    issued := issued + Guarded(oldVersion, 7);
    UpgradeTo8(db, oldVersion);
    AppendAssoc(start, issued, Guarded(oldVersion, 8));
    issued := issued + Guarded(oldVersion, 8);
    UpgradeTo9(db, oldVersion);
    AppendAssoc(start, issued, Guarded(oldVersion, 9));
    issued := issued + Guarded(oldVersion, 9);
    UpgradeTo10(db, oldVersion);
    AppendAssoc(start, issued, Guarded(oldVersion, 10));
    issued := issued + Guarded(oldVersion, 10);
    UpgradeTo11(db, oldVersion);
    AppendAssoc(start, issued, Guarded(oldVersion, 11));
    issued := issued + Guarded(oldVersion, 11);
    UpgradeTo12(db, oldVersion);
    AppendAssoc(start, issued, Guarded(oldVersion, 12));
    issued := issued + Guarded(oldVersion, 12);
    UpgradeTo13(db, oldVersion);
    AppendAssoc(start, issued, Guarded(oldVersion, 13));
    issued := issued + Guarded(oldVersion, 13);
    UpgradeTo14(db, oldVersion);
    AppendAssoc(start, issued, Guarded(oldVersion, 14));
    issued := issued + Guarded(oldVersion, 14);
    UpgradeTo15(db, oldVersion);
    AppendAssoc(start, issued, Guarded(oldVersion, 15));
    issued := issued + Guarded(oldVersion, 15);
    UpgradeTo16(db, oldVersion);
    AppendAssoc(start, issued, Guarded(oldVersion, 16));
    issued := issued + Guarded(oldVersion, 16);
    UpgradeTo17(db, oldVersion);
    AppendAssoc(start, issued, Guarded(oldVersion, 17));
    issued := issued + Guarded(oldVersion, 17);
    LadderUnrolled(oldVersion);
  }

  /** The test for version 2. */
  method UpgradeTo2(db: Db, oldVersion: int)
    modifies db
    ensures db.log == old(db.log) + Guarded(oldVersion, 2)
  {
    if oldVersion < 2 {
      db.ExecSql(ChapterSourceOrderUpdate);
      db.ExecSql(KissmangaCoverFix);
    }
  }

  /** The test for version 3. */
  method UpgradeTo3(db: Db, oldVersion: int)
    modifies db
    ensures db.log == old(db.log) + Guarded(oldVersion, 3)
  {
    if oldVersion < 3 {
      db.ExecSql(CreateTable(History));
      db.ExecSql(CreateIndex(HistoryChapterId));
    }
  }

  /** The test for version 4. */
  method UpgradeTo4(db: Db, oldVersion: int)
    modifies db
    ensures db.log == old(db.log) + Guarded(oldVersion, 4)
  {
    if oldVersion < 4 {
      db.ExecSql(ChapterBookmarkUpdate);
    }
  }

  /** The test for version 5. */
  method UpgradeTo5(db: Db, oldVersion: int)
    modifies db
    ensures db.log == old(db.log) + Guarded(oldVersion, 5)
  {
    if oldVersion < 5 {
      db.ExecSql(ChapterAddScanlator);
    }
  }

  /** The test for version 6. */
  method UpgradeTo6(db: Db, oldVersion: int)
    modifies db
    ensures db.log == old(db.log) + Guarded(oldVersion, 6)
  {
    if oldVersion < 6 {
      db.ExecSql(TrackAddTrackingUrl);
    }
  }

  /** The test for version 7. */
  method UpgradeTo7(db: Db, oldVersion: int)
    modifies db
    ensures db.log == old(db.log) + Guarded(oldVersion, 7)
  {
    if oldVersion < 7 {
      db.ExecSql(TrackAddLibraryId);
    }
  }

  /** The test for version 8. */
  method UpgradeTo8(db: Db, oldVersion: int)
    modifies db
    ensures db.log == old(db.log) + Guarded(oldVersion, 8)
  {
    if oldVersion < 8 {
      db.ExecSql(DropFavoriteIndex);
      db.ExecSql(CreateIndex(MangaLibrary));
      db.ExecSql(CreateIndex(ChapterUnread));
    }
  }

  /** The test for version 9. */
  method UpgradeTo9(db: Db, oldVersion: int)
    modifies db
    ensures db.log == old(db.log) + Guarded(oldVersion, 9)
  {
    if oldVersion < 9 {
      db.ExecSql(MangaAddHideTitle);
    }
  }

  /** The test for version 10. */
  method UpgradeTo10(db: Db, oldVersion: int)
    modifies db
    ensures db.log == old(db.log) + Guarded(oldVersion, 10)
  {
    if oldVersion < 10 {
      db.ExecSql(CategoryAddMangaOrder);
    }
  }

  /** The test for version 11. */
  method UpgradeTo11(db: Db, oldVersion: int)
    modifies db
    ensures db.log == old(db.log) + Guarded(oldVersion, 11)
  {
    if oldVersion < 11 {
      db.ExecSql(ChapterPagesLeft);
    }
  }

  /** The test for version 12. */
  method UpgradeTo12(db: Db, oldVersion: int)
    modifies db
    ensures db.log == old(db.log) + Guarded(oldVersion, 12)
  {
    if oldVersion < 12 {
      db.ExecSql(MangaAddDateAdded);
    }
  }

  /** The test for version 13. */
  method UpgradeTo13(db: Db, oldVersion: int)
    modifies db
    ensures db.log == old(db.log) + Guarded(oldVersion, 13)
  {
    if oldVersion < 13 {
      db.ExecSql(TrackAddStartDate);
      db.ExecSql(TrackAddFinishDate);
    }
  }

  /** The test for version 14. */
  method UpgradeTo14(db: Db, oldVersion: int)
    modifies db
    ensures db.log == old(db.log) + Guarded(oldVersion, 14)
  {
    if oldVersion < 14 {
      db.ExecSql(MangaAddFilteredScanlators);
    }
  }

  /** The test for version 15. */
  method UpgradeTo15(db: Db, oldVersion: int)
    modifies db
    ensures db.log == old(db.log) + Guarded(oldVersion, 15)
  {
    if oldVersion < 15 {
      db.ExecSql(TrackRenameTableToTemp);
      db.ExecSql(CreateTable(Tracks));
      db.ExecSql(TrackInsertFromTempTable);
      db.ExecSql(TrackDropTempTable);
    }
  }

  /** The test for version 16. */
  method UpgradeTo16(db: Db, oldVersion: int)
    modifies db
    ensures db.log == old(db.log) + Guarded(oldVersion, 16)
  {
    if oldVersion < 16 {
      db.ExecSql(MangaAddUpdateStrategy);
    }
  }

  /** The test for version 17. */
  method UpgradeTo17(db: Db, oldVersion: int)
    modifies db
    ensures db.log == old(db.log) + Guarded(oldVersion, 17)
  {
    if oldVersion < 17 {
      db.ExecSql(TrackUpdateMangaUpdatesScore);
    }
  }
}

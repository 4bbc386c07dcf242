/**
 * The behaviour every tracker shares: the status transition run on each update,
 * the reconciliation of a track against the local library (start date, finish
 * date, last chapter read, forced status), and the stored credentials.
 *
 * The three database reads the reconciler makes (the manga, its chapters, its
 * reading history) are one `LibrarySnapshot` parameter.
 */
module Tracking {
  import opened Wrappers
  import opened Chapters

  /** The fields of a track, as stored locally and pushed to a tracker. */
  datatype TrackRecord = TrackRecord(
    mangaId: int,
    syncId: int,
    mediaId: int,
    libraryId: Option<int>,
    title: string,
    coverUrl: string,
    trackingUrl: string,
    status: int,
    score: real,
    lastChapterRead: real,
    totalChapters: int,
    startedReadingDate: int,
    finishedReadingDate: int)

  /** A track as the mutable object the services update in place. */
  class Track {
    var mangaId: int
    var syncId: int
    var mediaId: int
    var libraryId: Option<int>
    var title: string
    var coverUrl: string
    var trackingUrl: string
    var status: int
    var score: real
    var lastChapterRead: real
    var totalChapters: int
    var startedReadingDate: int
    var finishedReadingDate: int

    function Record(): TrackRecord
      reads this
    {
      TrackRecord(mangaId, syncId, mediaId, libraryId, title, coverUrl, trackingUrl, status, score,
                  lastChapterRead, totalChapters, startedReadingDate, finishedReadingDate)
    }

    constructor FromRecord(r: TrackRecord)
      ensures Record() == r
    {
      mangaId, syncId, mediaId, libraryId := r.mangaId, r.syncId, r.mediaId, r.libraryId;
      title, coverUrl, trackingUrl := r.title, r.coverUrl, r.trackingUrl;
      status, score, lastChapterRead, totalChapters := r.status, r.score, r.lastChapterRead, r.totalChapters;
      startedReadingDate, finishedReadingDate := r.startedReadingDate, r.finishedReadingDate;
    }

    /** `copyPersonalFrom(other)`: the user's own fields are taken from `other`, the rest kept. */
    method CopyPersonalFrom(other: TrackRecord)
      modifies this
      ensures Record() == PersonalFrom(old(Record()), other)
    {
      lastChapterRead, score, status := other.lastChapterRead, other.score, other.status;
      startedReadingDate, finishedReadingDate := other.startedReadingDate, other.finishedReadingDate;
    }
  }

  function PersonalFrom(t: TrackRecord, other: TrackRecord): TrackRecord {
    t.(lastChapterRead := other.lastChapterRead, score := other.score, status := other.status,
       startedReadingDate := other.startedReadingDate, finishedReadingDate := other.finishedReadingDate)
  }

  /**
   * What a tracking service declares about itself and the shared logic consults:
   * its id, its planning, reading and completed status codes, and whether it
   * supports reading dates.
   */
  datatype ServicePolicy = ServicePolicy(
    id: int,
    planningStatus: int,
    readingStatus: int,
    completedStatus: int,
    supportsReadingDates: bool)

  predicate DistinctStatuses(p: ServicePolicy) {
    p.planningStatus != p.readingStatus && p.readingStatus != p.completedStatus
      && p.planningStatus != p.completedStatus
  }

  /** `Float.toInt()`: rounds toward zero. */
  function Truncate(x: real): (n: int)
    ensures x >= 0.0 ==> n >= 0 && n as real <= x < n as real + 1.0
    ensures x < 0.0 ==> n <= 0 && n as real - 1.0 < x <= n as real
  {
    if x >= 0.0 then x.Floor else -((-x).Floor)
  }

  // ---------------------------------------------------------------------------
  // Status transition (updateTrackStatus)
  // ---------------------------------------------------------------------------

  /** The first rule: a planned track with some progress becomes a reading one. */
  function ReadStatusStep(p: ServicePolicy, status: int, lastChapterRead: real, setToReadStatus: bool): int {
    if setToReadStatus && status == p.planningStatus && lastChapterRead != 0.0 then p.readingStatus else status
  }

  /** The second rule's condition, on the status left by the first rule. */
  predicate CompletionFires(p: ServicePolicy, status: int, lastChapterRead: real, totalChapters: int,
                            setToComplete: bool, mustReadToComplete: bool) {
    && setToComplete
    && (!mustReadToComplete || status == p.readingStatus)
    && totalChapters != 0
    && Truncate(lastChapterRead) == totalChapters
  }

  /** The status `updateTrackStatus` leaves on a track. */
  function NextStatus(p: ServicePolicy, status: int, lastChapterRead: real, totalChapters: int,
                      setToReadStatus: bool, setToComplete: bool, mustReadToComplete: bool): (r: int)
    ensures r == status || r == p.readingStatus || r == p.completedStatus
    ensures !setToReadStatus && !setToComplete ==> r == status
  {
    var mid := ReadStatusStep(p, status, lastChapterRead, setToReadStatus);
    if CompletionFires(p, mid, lastChapterRead, totalChapters, setToComplete, mustReadToComplete)
    then p.completedStatus
    else mid
  }

  /** `updateTrackStatus(track, setToReadStatus, setToComplete, mustReadToComplete)`: only the status changes. */
  method UpdateTrackStatus(p: ServicePolicy, track: Track, setToReadStatus: bool,
                           setToComplete: bool := false, mustReadToComplete: bool := false)
    modifies track`status
    ensures track.status == NextStatus(p, old(track.status), track.lastChapterRead, track.totalChapters,
                                       setToReadStatus, setToComplete, mustReadToComplete)
  {
    if setToReadStatus && track.status == p.planningStatus && track.lastChapterRead != 0.0 {
      track.status := p.readingStatus;
    }
    if setToComplete && (!mustReadToComplete || track.status == p.readingStatus)
       && track.totalChapters != 0 && Truncate(track.lastChapterRead) == track.totalChapters
    {
      track.status := p.completedStatus;
    }
  }

  /** A track becomes reading exactly when it was planned, the caller asks for it, and some progress exists. */
  lemma ReadingTransition(p: ServicePolicy, status: int, lastChapterRead: real, totalChapters: int,
                          setToReadStatus: bool, setToComplete: bool, mustReadToComplete: bool)
    requires DistinctStatuses(p)
    ensures var r := NextStatus(p, status, lastChapterRead, totalChapters, setToReadStatus, setToComplete, mustReadToComplete);
      (r == p.readingStatus && status != p.readingStatus)
      <==> (setToReadStatus && status == p.planningStatus && lastChapterRead != 0.0
            && !CompletionFires(p, p.readingStatus, lastChapterRead, totalChapters, setToComplete, mustReadToComplete))
  {
  }

  /**
   * A track becomes completed exactly when the caller asks for it, the total is
   * known, the truncated progress equals it, and either reading is not required
   * or the track is reading (possibly by the first rule in the same call).
   */
  lemma CompletionTransition(p: ServicePolicy, status: int, lastChapterRead: real, totalChapters: int,
                             setToReadStatus: bool, setToComplete: bool, mustReadToComplete: bool)
    requires DistinctStatuses(p)
    ensures var r := NextStatus(p, status, lastChapterRead, totalChapters, setToReadStatus, setToComplete, mustReadToComplete);
      (r == p.completedStatus && status != p.completedStatus)
      <==> (status != p.completedStatus && setToComplete && totalChapters != 0
            && Truncate(lastChapterRead) == totalChapters
            && (!mustReadToComplete || status == p.readingStatus
                || (setToReadStatus && status == p.planningStatus && lastChapterRead != 0.0)))
  {
  }

  /** A completed track whose total is known has read at least that many chapters. */
  lemma CompletionImpliesFloor(p: ServicePolicy, status: int, lastChapterRead: real, totalChapters: int,
                               setToReadStatus: bool, setToComplete: bool, mustReadToComplete: bool)
    requires DistinctStatuses(p)
    requires status != p.completedStatus && totalChapters > 0
    requires NextStatus(p, status, lastChapterRead, totalChapters, setToReadStatus, setToComplete, mustReadToComplete)
             == p.completedStatus
    ensures lastChapterRead >= totalChapters as real
  {
  }

  /** With reading required, a planned track at 24 of 24 chapters is not completed without the first rule. */
  lemma CompletionBlockedWhilePlanning(p: ServicePolicy)
    requires DistinctStatuses(p)
    ensures NextStatus(p, p.planningStatus, 24.0, 24, false, true, true) == p.planningStatus
  {
  }

  /** A planned track can pass through reading to completed in one call. */
  lemma PlanningToCompletedInOneCall(p: ServicePolicy)
    requires DistinctStatuses(p)
    ensures NextStatus(p, p.planningStatus, 24.5, 24, true, true, true) == p.completedStatus
  {
  }

  // ---------------------------------------------------------------------------
  // Reconciliation against the library (updateNewTrackInfo and its queries)
  // ---------------------------------------------------------------------------

  /** A reading-history row: when a chapter was last read (0 or less when never). */
  datatype HistoryRecord = HistoryRecord(chapterId: int, lastRead: int)

  /**
   * What the reconciler reads from the library: whether the manga exists and is
   * a one-shot or completed, its chapters and its reading history.
   */
  datatype LibrarySnapshot = LibrarySnapshot(
    oneShotOrCompleted: bool,
    chapters: seq<ChapterRecord>,
    history: seq<HistoryRecord>)

  predicate AllChaptersRead(chapters: seq<ChapterRecord>) {
    forall i :: 0 <= i < |chapters| ==> chapters[i].read
  }

  predicate AnyChapterRead(chapters: seq<ChapterRecord>) {
    exists i :: 0 <= i < |chapters| && chapters[i].read
  }

  /** The manga is finished and every chapter of it is read (vacuously so when it has none). */
  predicate AllRead(lib: LibrarySnapshot) {
    lib.oneShotOrCompleted && AllChaptersRead(lib.chapters)
  }

  /** `minOfOrNull`. */
  function MinOf(xs: seq<int>): (m: Option<int>)
    ensures m.None? <==> |xs| == 0
    ensures m.Some? ==> m.value in xs && forall i :: 0 <= i < |xs| ==> m.value <= xs[i]
  {
    if |xs| == 0 then None
    else
      match MinOf(xs[..|xs| - 1])
      case None => Some(xs[|xs| - 1])
      case Some(m) => Some(if xs[|xs| - 1] < m then xs[|xs| - 1] else m)
  }

  /** `maxOfOrNull`. */
  function MaxOf(xs: seq<int>): (m: Option<int>)
    ensures m.None? <==> |xs| == 0
    ensures m.Some? ==> m.value in xs && forall i :: 0 <= i < |xs| ==> xs[i] <= m.value
  {
    if |xs| == 0 then None
    else
      match MaxOf(xs[..|xs| - 1])
      case None => Some(xs[|xs| - 1])
      case Some(m) => Some(if m < xs[|xs| - 1] then xs[|xs| - 1] else m)
  }

  /** `history.map { it.last_read }`. */
  function LastReads(history: seq<HistoryRecord>): (r: seq<int>)
    ensures |r| == |history| && forall i :: 0 <= i < |r| ==> r[i] == history[i].lastRead
  {
    if |history| == 0 then [] else LastReads(history[..|history| - 1]) + [history[|history| - 1].lastRead]
  }

  /** `history.filter { it.last_read > 0 }.map { it.last_read }`. */
  function PositiveLastReads(history: seq<HistoryRecord>): (r: seq<int>)
    ensures forall x :: x in r <==> x > 0 && exists i :: 0 <= i < |history| && history[i].lastRead == x
  {
    if |history| == 0 then []
    else
      var h := history[|history| - 1];
      var init := PositiveLastReads(history[..|history| - 1]);
      assert forall i :: 0 <= i < |history| - 1 ==> history[..|history| - 1][i] == history[i];
      if h.lastRead > 0 then init + [h.lastRead] else init
  }

  /**
   * `getStartDate`: when some chapter is read, the earliest positive history
   * timestamp, else 0.
   */
  function StartDate(lib: LibrarySnapshot): int {
    if AnyChapterRead(lib.chapters) then
      match MinOf(PositiveLastReads(lib.history))
      case None => 0
      case Some(date) => if date <= 0 then 0 else date
    else 0
  }

  /** `getCompletedDate`: when all is read, the latest history timestamp, clamped at 0; else 0. */
  function CompletedDate(lib: LibrarySnapshot, allRead: bool): int {
    if allRead then
      match MaxOf(LastReads(lib.history))
      case None => 0
      case Some(date) => if date <= 0 then 0 else date
    else 0
  }

  /**
   * `chapters.filter { it.read }.minByOrNull { it.source_order }` as an index:
   * the first read chapter whose source order is the least among read chapters.
   */
  function FirstLeastOrderRead(chapters: seq<ChapterRecord>): (k: Option<nat>)
    ensures k.None? <==> !AnyChapterRead(chapters)
    ensures k.Some? ==> k.value < |chapters| && chapters[k.value].read
    ensures k.Some? ==> forall j :: 0 <= j < |chapters| && chapters[j].read
                          ==> chapters[k.value].sourceOrder <= chapters[j].sourceOrder
    ensures k.Some? ==> forall j :: 0 <= j < k.value && chapters[j].read
                          ==> chapters[k.value].sourceOrder < chapters[j].sourceOrder
  {
    if |chapters| == 0 then None
    else
      var n := |chapters| - 1;
      var init := chapters[..n];
      assert forall j :: 0 <= j < n ==> init[j] == chapters[j];
      match FirstLeastOrderRead(init)
      case None => if chapters[n].read then Some(n) else None
      case Some(k) =>
        if chapters[n].read && chapters[n].sourceOrder < chapters[k].sourceOrder then Some(n) else Some(k)
  }

  /**
   * `getLastChapterRead`: the number of the read chapter with the least source
   * order, when that number is recognized; otherwise 0.
   */
  function LastChapterRead(chapters: seq<ChapterRecord>): (r: real)
    ensures r >= 0.0
  {
    match FirstLeastOrderRead(chapters)
    case None => 0.0
    case Some(k) => if IsRecognizedNumber(chapters[k]) then chapters[k].chapterNumber else 0.0
  }

  /** The track `updateNewTrackInfo` leaves behind, given the library. */
  function Reconcile(p: ServicePolicy, t: TrackRecord, lib: LibrarySnapshot): (r: TrackRecord)
    ensures AllRead(lib) ==> r.status == p.completedStatus && r.lastChapterRead != 0.0
    ensures !AllRead(lib) && r.lastChapterRead == 0.0 ==> r.status == p.planningStatus
    ensures !AllRead(lib) && r.lastChapterRead != 0.0 ==> r.status == t.status
    ensures r.lastChapterRead >= 0.0
    ensures r.lastChapterRead == (if LastChapterRead(lib.chapters) == 0.0 && AllRead(lib) then 1.0
                                  else LastChapterRead(lib.chapters))
    ensures p.supportsReadingDates ==> r.startedReadingDate == StartDate(lib)
                                       && r.finishedReadingDate == CompletedDate(lib, AllRead(lib))
    ensures !p.supportsReadingDates ==> r.startedReadingDate == t.startedReadingDate
                                        && r.finishedReadingDate == t.finishedReadingDate
    ensures r.(status := t.status, lastChapterRead := t.lastChapterRead,
               startedReadingDate := t.startedReadingDate, finishedReadingDate := t.finishedReadingDate) == t
  {
    var allRead := AllRead(lib);
    var dated :=
      if p.supportsReadingDates
      then t.(startedReadingDate := StartDate(lib), finishedReadingDate := CompletedDate(lib, allRead))
      else t;
    var found := LastChapterRead(lib.chapters);
    var last := if found == 0.0 && allRead then 1.0 else found;
    var forced := if last == 0.0 then p.planningStatus else t.status;
    dated.(lastChapterRead := last, status := if allRead then p.completedStatus else forced)
  }

  /** `updateNewTrackInfo(track)`: dates (when supported), last chapter read and status, from the library. */
  method UpdateNewTrackInfo(p: ServicePolicy, track: Track, lib: LibrarySnapshot)
    modifies track`startedReadingDate, track`finishedReadingDate, track`lastChapterRead, track`status
    ensures track.Record() == Reconcile(p, old(track.Record()), lib)
  {
    var allRead := lib.oneShotOrCompleted && AllChaptersRead(lib.chapters);
    if p.supportsReadingDates {
      track.startedReadingDate := StartDate(lib);
      track.finishedReadingDate := CompletedDate(lib, allRead);
    }
    var found := LastChapterRead(lib.chapters);
    track.lastChapterRead := if found == 0.0 && allRead then 1.0 else found;
    if track.lastChapterRead == 0.0 {
      track.status := p.planningStatus;
    }
    if allRead {
      track.status := p.completedStatus;
    }
  }

  /** Reconciling twice against the same library changes nothing the second time. */
  lemma ReconcileIdempotent(p: ServicePolicy, t: TrackRecord, lib: LibrarySnapshot)
    ensures Reconcile(p, Reconcile(p, t, lib), lib) == Reconcile(p, t, lib)
  {
  }

  /** With reading dates supported, a finish date is only ever written together with the completed status. */
  lemma FinishedDateImpliesCompleted(p: ServicePolicy, t: TrackRecord, lib: LibrarySnapshot)
    requires p.supportsReadingDates
    ensures Reconcile(p, t, lib).finishedReadingDate != 0 ==> Reconcile(p, t, lib).status == p.completedStatus
  {
  }

  /** The start date is 0 when nothing is read, else the earliest positive history timestamp (0 if none). */
  lemma StartDateSpec(lib: LibrarySnapshot)
    ensures StartDate(lib) >= 0
    ensures !AnyChapterRead(lib.chapters) ==> StartDate(lib) == 0
    ensures StartDate(lib) > 0 ==>
      (exists i :: 0 <= i < |lib.history| && lib.history[i].lastRead == StartDate(lib))
      && forall i :: 0 <= i < |lib.history| && lib.history[i].lastRead > 0 ==> StartDate(lib) <= lib.history[i].lastRead
    ensures AnyChapterRead(lib.chapters) && (exists i :: 0 <= i < |lib.history| && lib.history[i].lastRead > 0) ==>
      StartDate(lib) > 0
  {
    var xs := PositiveLastReads(lib.history);
    if AnyChapterRead(lib.chapters) && |xs| > 0 {
      forall i | 0 <= i < |lib.history| && lib.history[i].lastRead > 0
        ensures StartDate(lib) <= lib.history[i].lastRead
      {
        assert lib.history[i].lastRead in xs;
      }
    }
    if AnyChapterRead(lib.chapters) && exists i :: 0 <= i < |lib.history| && lib.history[i].lastRead > 0 {
      var i :| 0 <= i < |lib.history| && lib.history[i].lastRead > 0;
      assert lib.history[i].lastRead in xs;
    }
  }

  /** The finish date is 0 unless all is read, else the latest history timestamp clamped at 0. */
  lemma CompletedDateSpec(lib: LibrarySnapshot, allRead: bool)
    ensures CompletedDate(lib, allRead) >= 0
    ensures !allRead ==> CompletedDate(lib, allRead) == 0
    ensures allRead && |lib.history| > 0 ==>
      forall i :: 0 <= i < |lib.history| ==> lib.history[i].lastRead <= CompletedDate(lib, allRead)
    ensures CompletedDate(lib, allRead) > 0 ==>
      exists i :: 0 <= i < |lib.history| && lib.history[i].lastRead == CompletedDate(lib, allRead)
  {
    var xs := LastReads(lib.history);
    if allRead && |lib.history| > 0 {
      forall i | 0 <= i < |lib.history| ensures lib.history[i].lastRead <= CompletedDate(lib, allRead) {
        assert xs[i] == lib.history[i].lastRead;
      }
    }
    if CompletedDate(lib, allRead) > 0 {
      var m := MaxOf(xs).value;
      var i :| 0 <= i < |xs| && xs[i] == m;
      assert lib.history[i].lastRead == m;
    }
  }

  /**
   * A nonzero last chapter read is the recognized number of a read chapter whose
   * source order is the least among the read chapters.
   */
  lemma LastChapterReadSpec(chapters: seq<ChapterRecord>)
    ensures LastChapterRead(chapters) != 0.0 ==>
      exists k :: 0 <= k < |chapters| && chapters[k].read && IsRecognizedNumber(chapters[k])
        && chapters[k].chapterNumber == LastChapterRead(chapters)
        && forall j :: 0 <= j < |chapters| && chapters[j].read ==> chapters[k].sourceOrder <= chapters[j].sourceOrder
    ensures !AnyChapterRead(chapters) ==> LastChapterRead(chapters) == 0.0
    ensures forall k :: 0 <= k < |chapters| && chapters[k].read
                        && (forall j :: 0 <= j < |chapters| && chapters[j].read ==> chapters[k].sourceOrder <= chapters[j].sourceOrder)
                        && (forall j :: 0 <= j < k && chapters[j].read ==> chapters[k].sourceOrder < chapters[j].sourceOrder)
                        ==> LastChapterRead(chapters) == (if IsRecognizedNumber(chapters[k]) then chapters[k].chapterNumber else 0.0)
  {
    forall k | 0 <= k < |chapters| && chapters[k].read
               && (forall j :: 0 <= j < |chapters| && chapters[j].read ==> chapters[k].sourceOrder <= chapters[j].sourceOrder)
               && (forall j :: 0 <= j < k && chapters[j].read ==> chapters[k].sourceOrder < chapters[j].sourceOrder)
      ensures FirstLeastOrderRead(chapters) == Some(k)
    {
    }
  }

  /**
   * Marking one more chapter read can lower the last chapter read: the rule picks
   * the least source order, not the highest number.
   */
  lemma LastChapterReadNotMonotone()
    ensures var c1 := ChapterRecord(None, None, true, false, 0, 0, 0, 1, "", "c5", 0, 5.0, None);
      var c0 := ChapterRecord(None, None, false, false, 0, 0, 0, 0, "", "c2", 0, 2.0, None);
      LastChapterRead([c0, c1]) == 5.0 && LastChapterRead([c0.(read := true), c1]) == 2.0
  {
    var c1 := ChapterRecord(None, None, true, false, 0, 0, 0, 1, "", "c5", 0, 5.0, None);
    var c0 := ChapterRecord(None, None, false, false, 0, 0, 0, 0, "", "c2", 0, 2.0, None);
    assert [c0, c1][..1] == [c0];
    assert FirstLeastOrderRead([c0]) == None;
    assert FirstLeastOrderRead([c0, c1]) == Some(1);
    assert [c0.(read := true), c1][..1] == [c0.(read := true)];
    assert FirstLeastOrderRead([c0.(read := true)]) == Some(0);
    assert FirstLeastOrderRead([c0.(read := true), c1]) == Some(0);
  }

  /**
   * A finished manga whose only chapters are read, with one history entry at
   * 1000 and no recognized chapter number: started and finished at 1000,
   * completed, last chapter read 1.
   */
  lemma FullyReadScenario(p: ServicePolicy, t: TrackRecord)
    requires p.supportsReadingDates
    ensures var c := ChapterRecord(None, None, true, false, 0, 0, 0, 0, "", "Oneshot", 0, -1.0, None);
      var lib := LibrarySnapshot(true, [c, c.(sourceOrder := 1)], [HistoryRecord(7, 1000)]);
      var r := Reconcile(p, t, lib);
      r.startedReadingDate == 1000 && r.finishedReadingDate == 1000
        && r.status == p.completedStatus && r.lastChapterRead == 1.0
  {
    var c := ChapterRecord(None, None, true, false, 0, 0, 0, 0, "", "Oneshot", 0, -1.0, None);
    var lib := LibrarySnapshot(true, [c, c.(sourceOrder := 1)], [HistoryRecord(7, 1000)]);
    assert AnyChapterRead(lib.chapters) by { assert lib.chapters[0].read; }
    assert AllRead(lib);
    SingleHistoryDates(lib);
    UnrecognizedLastChapterRead(lib.chapters);
    var r := Reconcile(p, t, lib);
    assert r.lastChapterRead == 1.0;
  }

  /** With one history row at 1000 and something read, both dates are 1000. */
  lemma SingleHistoryDates(lib: LibrarySnapshot)
    requires AnyChapterRead(lib.chapters) && lib.history == [HistoryRecord(7, 1000)]
    ensures StartDate(lib) == 1000 && CompletedDate(lib, true) == 1000
  {
    assert PositiveLastReads(lib.history) == [1000];
    assert LastReads(lib.history) == [1000];
  }

  /** Without a recognized chapter number, the last chapter read is 0. */
  lemma UnrecognizedLastChapterRead(chapters: seq<ChapterRecord>)
    requires forall i :: 0 <= i < |chapters| ==> !IsRecognizedNumber(chapters[i])
    ensures LastChapterRead(chapters) == 0.0
  {
  }

  // ---------------------------------------------------------------------------
  // Credentials
  // ---------------------------------------------------------------------------

  /** The per-service credential store: username, password and token, keyed by service id. */
  class TrackPreferences {
    var usernames: map<int, string>
    var passwords: map<int, string>
    var tokens: map<int, string>

    constructor ()
      ensures usernames == map[] && passwords == map[] && tokens == map[]
    {
      usernames, passwords, tokens := map[], map[], map[];
    }

    /** A stored username, "" when none was stored. */
    function Username(id: int): string
      reads this
    {
      if id in usernames then usernames[id] else ""
    }

    function Password(id: int): string
      reads this
    {
      if id in passwords then passwords[id] else ""
    }

    method SetCredentials(id: int, username: string, password: string)
      modifies this`usernames, this`passwords
      ensures usernames == old(usernames)[id := username]
      ensures passwords == old(passwords)[id := password]
    {
      usernames := usernames[id := username];
      passwords := passwords[id := password];
    }

    method SetToken(id: int, token: string)
      modifies this`tokens
      ensures tokens == old(tokens)[id := token]
    {
      tokens := tokens[id := token];
    }

    method DeleteToken(id: int)
      modifies this`tokens
      ensures tokens == old(tokens) - {id}
    {
      tokens := tokens - {id};
    }
  }

  /** `isLogged`: both the username and the password are non-empty. */
  predicate IsLogged(prefs: TrackPreferences, id: int)
    reads prefs
  {
    prefs.Username(id) != "" && prefs.Password(id) != ""
  }

  /** `saveCredentials(username, password)`. */
  method SaveCredentials(p: ServicePolicy, prefs: TrackPreferences, username: string, password: string)
    modifies prefs`usernames, prefs`passwords
    ensures prefs.usernames == old(prefs.usernames)[p.id := username]
    ensures prefs.passwords == old(prefs.passwords)[p.id := password]
    ensures IsLogged(prefs, p.id) <==> username != "" && password != ""
  {
    prefs.SetCredentials(p.id, username, password);
  }

  /** `logout()`: the service's credentials become empty, so it is no longer logged in. */
  method Logout(p: ServicePolicy, prefs: TrackPreferences)
    modifies prefs`usernames, prefs`passwords
    ensures prefs.usernames == old(prefs.usernames)[p.id := ""]
    ensures prefs.passwords == old(prefs.passwords)[p.id := ""]
    ensures !IsLogged(prefs, p.id)
    ensures forall id :: id != p.id ==> (IsLogged(prefs, id) <==> old(IsLogged(prefs, id)))
  {
    prefs.SetCredentials(p.id, "", "");
  }
}

# TachiyomiJ2K core, modelled in Dafny

This project models the core of TachiyomiJ2K, an Android manga reader.

- **Tracking.** The progress tracking shared by every tracker:
  - the status transition run on each update;
  - the reconciliation of a track against the local library: start and finish dates, last chapter read, and the forced planning or completed status;
  - the stored credentials.
- **Trackers.** Two concrete trackers:
  - MyAnimeList: status and score vocabulary, search prefixes, add/update/bind/refresh, and OAuth login/logout.
  - The Kavita API client: URL surgery, the total-chapter count, the series status, and the response-code handling.
- **Registries.** The tracker registry, and the source registry:
  - the id → source map rebuilt from extensions;
  - the stub-source cache;
  - the four delegated sources.
- **Downloads.** The download directory scheme: names, lookups, the unmatched-directory filter, and the legacy rename pass.
- **Database.** The database open helper's create, upgrade, open and configure statement sequences.
- **Chapters.** The chapter object's copy operations.

There is one module per core file. A Kotlin object whose fields are updated in place is a Dafny `class`. Its methods are proved against specification functions on a value view of that object:

- `Chapters.Chapter` is viewed through `ChapterRecord`.
- `Tracking.Track` is viewed through `TrackRecord`.
- `Tracking.TrackPreferences`, `MyAnimeList.Interceptor`, `Sources.SourceManager`, `Downloads.DownloadProvider` and `Database.Db` are classes too.

Pure logic is functions with lemmas. Remote APIs, the database reads and the file-name sanitiser are function-valued parameters (oracles):

- `MalApi`, `KavitaServer`, `LibrarySnapshot`, `Naming`;
- the file system is a `Node` tree.

Support modules:

- `Wrappers` holds Option/Result.
- `Strings` holds the Kotlin string operations the core uses. Examples are `split`/`joinToString`, `substringAfter(Last)`, `toIntOrNull` and `Int.toString`.
- `Collections` holds `distinct` and `mapNotNull`.

Constants the core reads from files outside this model are set to assumed values:

- `Kavita.UNREAD/READING/COMPLETED` = 1/2/3.
- `Downloader.TMP_DIR_SUFFIX` = `"_tmp"`.
- `LocalSource.ID` = 0.
- The fields `Track.copyPersonalFrom` copies. These are taken to be status, score, last chapter read, started and finished dates.
- The fields `SChapter.copyFrom` copies.

The assumption is stated once, in the module where each constant lives.

Three properties one might expect of the code do not hold, and the model proves so:

- **Last chapter read is not monotone.** The code takes the read chapter of least `source_order`, so marking one more chapter read can lower it (`Tracking.LastChapterReadNotMonotone`).
- **The Kavita API base is not idempotent.** `getApiFromUrl` has no fixed point, because every result gains another "/api" (`Kavita.ApiFromUrlNoFixedPoint`).
- **Equal stub hash codes do not mean equal stubs.** Equal stubs have equal hash codes, but `Long.hashCode` folds 64 bits into 32, so different ids can share one (`Sources.StubHashCollides`).

The MyAnimeList request interceptor's own source is outside this model. Its behaviour is assumed:

- it is built with the stored password as its token and no authorisation;
- `setAuth(oauth)` sets its token to the access token (or none) and its authorisation to `oauth`, and saves `oauth` through `saveOAuth`.

## Model

| member | source | states |
|---|---|---|
| Chapters.Chapter.Create | app/src/main/java/eu/kanade/tachiyomi/data/database/models/Chapter.kt:29-32 | a new chapter has number -1, so its number counts as unrecognised, and it is unread and not bookmarked |
| Chapters.Chapter.CopyFrom | app/src/main/java/eu/kanade/tachiyomi/data/database/models/Chapter.kt:42-51 | afterwards every field, own and inherited, equals the other chapter's field as it was before the call |
| Chapters.CopyList | app/src/main/java/eu/kanade/tachiyomi/data/database/models/Chapter.kt:34-39 | the copy has the same length, every element is a fresh object, and each copy's fields equal the original's |
| Tracking.Track.CopyPersonalFrom | app/src/main/java/eu/kanade/tachiyomi/data/track/myanimelist/MyAnimeList.kt:92 | only the personal fields are taken from the remote record; identity fields stay |
| Tracking.Truncate | app/src/main/java/eu/kanade/tachiyomi/data/track/TrackService.kt:94 | Float.toInt rounds toward zero: n <= x < n+1 for x >= 0, and n-1 < x <= n for x < 0 |
| Tracking.NextStatus | app/src/main/java/eu/kanade/tachiyomi/data/track/TrackService.kt:82-98 | the status only ever becomes reading or completed; with neither flag set it is unchanged |
| Tracking.UpdateTrackStatus | app/src/main/java/eu/kanade/tachiyomi/data/track/TrackService.kt:82-98 | only the track's status field changes, and it becomes NextStatus of the old status |
| Tracking.ReadingTransition | app/src/main/java/eu/kanade/tachiyomi/data/track/TrackService.kt:88-90 | the status moves to reading iff reading was requested, it was planning, progress is non-zero and completion does not fire next |
| Tracking.CompletionTransition | app/src/main/java/eu/kanade/tachiyomi/data/track/TrackService.kt:91-97 | the status moves to completed iff completion was asked for, the total is non-zero, truncated progress equals the total, and must-read is off or the status is (or just became) reading |
| Tracking.CompletionImpliesFloor | app/src/main/java/eu/kanade/tachiyomi/data/track/TrackService.kt:91-97 | completing a track with a positive total requires last chapter read >= total |
| Tracking.CompletionBlockedWhilePlanning | app/src/main/java/eu/kanade/tachiyomi/data/track/TrackService.kt:92 | with must-read on, a planning track at the last chapter is not completed unless reading is also requested |
| Tracking.PlanningToCompletedInOneCall | app/src/main/java/eu/kanade/tachiyomi/data/track/TrackService.kt:88-97 | the two rules chain: a planning track at chapter 24.5 of 24 ends completed in one call |
| Tracking.MinOf | app/src/main/java/eu/kanade/tachiyomi/data/track/TrackService.kt:145 | minOfOrNull: None iff empty, else a member no larger than any element |
| Tracking.MaxOf | app/src/main/java/eu/kanade/tachiyomi/data/track/TrackService.kt:157 | maxOfOrNull: None iff empty, else a member no smaller than any element |
| Tracking.LastReads | app/src/main/java/eu/kanade/tachiyomi/data/track/TrackService.kt:156-157 | the history's last-read times, element by element |
| Tracking.PositiveLastReads | app/src/main/java/eu/kanade/tachiyomi/data/track/TrackService.kt:144 | exactly the positive last-read times of the history |
| Tracking.StartDateSpec | app/src/main/java/eu/kanade/tachiyomi/data/track/TrackService.kt:142-149 | the start date is never negative, is 0 when nothing is read, else the least positive last-read time, and it is positive when something is read and some history time is positive |
| Tracking.CompletedDateSpec | app/src/main/java/eu/kanade/tachiyomi/data/track/TrackService.kt:151-161 | the completed date is 0 unless all is read, and is otherwise the greatest history time when that is positive |
| Tracking.FirstLeastOrderRead | app/src/main/java/eu/kanade/tachiyomi/data/track/TrackService.kt:165 | minByOrNull over read chapters: None iff no chapter is read, else the first read chapter of least source order |
| Tracking.LastChapterReadSpec | app/src/main/java/eu/kanade/tachiyomi/data/track/TrackService.kt:163-167 | never negative; 0 when nothing is read; for the first read chapter of least source order, its number when recognised and 0 otherwise; a non-zero result is such a chapter's recognised number |
| Tracking.LastChapterReadNotMonotone | app/src/main/java/eu/kanade/tachiyomi/data/track/TrackService.kt:165-166 | marking an earlier chapter read lowers the last chapter read from 5 to 2 |
| Tracking.Reconcile | app/src/main/java/eu/kanade/tachiyomi/data/track/TrackService.kt:122-140 | last chapter read is getLastChapterRead, or 1 when that is 0 and all is read; all read ⇒ completed; otherwise zero progress ⇒ planning, else the status is kept; with reading dates supported the dates become getStartDate and getCompletedDate, otherwise they are kept; no other field changes |
| Tracking.UpdateNewTrackInfo | app/src/main/java/eu/kanade/tachiyomi/data/track/TrackService.kt:122-140 | the track afterwards is Reconcile of the track before |
| Tracking.ReconcileIdempotent | app/src/main/java/eu/kanade/tachiyomi/data/track/TrackService.kt:122-140 | reconciling twice against the same library gives the same track as once |
| Tracking.FinishedDateImpliesCompleted | app/src/main/java/eu/kanade/tachiyomi/data/track/TrackService.kt:127-139 | a non-zero finish date only comes with the completed status |
| Tracking.FullyReadScenario | app/src/main/java/eu/kanade/tachiyomi/data/track/TrackService.kt:131-139 | a fully read one-shot without a chapter number gets progress 1, completed, and both dates from its history |
| Tracking.TrackPreferences.constructor | app/src/main/java/eu/kanade/tachiyomi/data/track/TrackService.kt:110-112 | the stores start empty |
| Tracking.TrackPreferences.SetCredentials | app/src/main/java/eu/kanade/tachiyomi/data/track/TrackService.kt:118 | both stores are updated at the service id, and nothing else changes |
| Tracking.TrackPreferences.SetToken | app/src/main/java/eu/kanade/tachiyomi/data/track/myanimelist/MyAnimeList.kt:147 | the token store is updated at the service id and nowhere else |
| Tracking.TrackPreferences.DeleteToken | app/src/main/java/eu/kanade/tachiyomi/data/track/myanimelist/MyAnimeList.kt:142 | the token store loses the service id |
| Tracking.SaveCredentials | app/src/main/java/eu/kanade/tachiyomi/data/track/TrackService.kt:114-119 | the credentials are stored under the service id, and the service is logged in iff both are non-empty |
| Tracking.Logout | app/src/main/java/eu/kanade/tachiyomi/data/track/TrackService.kt:101-108 | the credentials become empty, the service is not logged in, and every other service's logged-in state is unchanged |
| MyAnimeList.Policy | app/src/main/java/eu/kanade/tachiyomi/data/track/myanimelist/MyAnimeList.kt:28-68 | completed, reading and planning are distinct codes, and reading dates are supported |
| MyAnimeList.StatusList | app/src/main/java/eu/kanade/tachiyomi/data/track/myanimelist/MyAnimeList.kt:60 | five distinct statuses, exactly reading, completed, on hold, dropped and plan to read, with completed at index 1; re-reading is not offered |
| MyAnimeList.IsCompletedStatus | app/src/main/java/eu/kanade/tachiyomi/data/track/myanimelist/MyAnimeList.kt:62 | exactly index 1 is the completed status |
| MyAnimeList.ScoreList | app/src/main/java/eu/kanade/tachiyomi/data/track/myanimelist/MyAnimeList.kt:70 | eleven entries, entry i being the decimal text of i |
| MyAnimeList.DisplayScoreOfListedScore | app/src/main/java/eu/kanade/tachiyomi/data/track/myanimelist/MyAnimeList.kt:70-72 | a score taken from the list is displayed as that list entry |
| MyAnimeList.DisplayScoreParses | app/src/main/java/eu/kanade/tachiyomi/data/track/myanimelist/MyAnimeList.kt:72 | the displayed score parses back to the truncated score |
| MyAnimeList.SearchDispatch | app/src/main/java/eu/kanade/tachiyomi/data/track/myanimelist/MyAnimeList.kt:104-118 | details-by-id iff the "id:" prefix is followed by an Int; list search iff not that and the "my:" prefix, with the rest as title; otherwise text search of the whole query |
| MyAnimeList.Search | app/src/main/java/eu/kanade/tachiyomi/data/track/myanimelist/MyAnimeList.kt:104-118 | an "id:" query whose rest is an Int gives exactly [getMangaDetails(id)]; otherwise a "my:" query gives exactly findListItems of the rest; every other query gives exactly search(query) |
| MyAnimeList.IdQuery | app/src/main/java/eu/kanade/tachiyomi/data/track/myanimelist/MyAnimeList.kt:105-108 | "id:" followed by a printed Int searches by that id and returns its details |
| MyAnimeList.IdQueryNonCanonical | app/src/main/java/eu/kanade/tachiyomi/data/track/myanimelist/MyAnimeList.kt:105-108 | "id:007" and "id:+7" reach the details lookup for 7, as toIntOrNull accepts them |
| MyAnimeList.IdQueryWithoutNumber | app/src/main/java/eu/kanade/tachiyomi/data/track/myanimelist/MyAnimeList.kt:105-117 | "id:" followed by a non-number falls through to text search |
| MyAnimeList.ListQuery | app/src/main/java/eu/kanade/tachiyomi/data/track/myanimelist/MyAnimeList.kt:111-114 | "my:" followed by any title searches the user's list for that title |
| MyAnimeList.AddedTrack | app/src/main/java/eu/kanade/tachiyomi/data/track/myanimelist/MyAnimeList.kt:74-79 | the score is 0; the status is completed iff all is read, and otherwise reading or plan-to-read by whether progress is non-zero |
| MyAnimeList.Add | app/src/main/java/eu/kanade/tachiyomi/data/track/myanimelist/MyAnimeList.kt:74-79 | the track becomes AddedTrack of the old track, and what is sent is the updated track |
| MyAnimeList.Update | app/src/main/java/eu/kanade/tachiyomi/data/track/myanimelist/MyAnimeList.kt:81-87 | only the status changes, by the shared transition without completion, and the updated track is sent |
| MyAnimeList.UpdateNeverCompletes | app/src/main/java/eu/kanade/tachiyomi/data/track/myanimelist/MyAnimeList.kt:85 | an update never moves a track to completed |
| MyAnimeList.Bind | app/src/main/java/eu/kanade/tachiyomi/data/track/myanimelist/MyAnimeList.kt:89-98 | with a remote entry the personal fields are copied and the track is updated; without one the track is added |
| MyAnimeList.Refresh | app/src/main/java/eu/kanade/tachiyomi/data/track/myanimelist/MyAnimeList.kt:120 | a remote entry is returned and the local track is untouched; otherwise the track is added |
| MyAnimeList.SaveOAuth | app/src/main/java/eu/kanade/tachiyomi/data/track/myanimelist/MyAnimeList.kt:146-148 | the serialised authorisation becomes the service's stored token, and no other token changes |
| MyAnimeList.Interceptor.constructor | app/src/main/java/eu/kanade/tachiyomi/data/track/myanimelist/MyAnimeList.kt:22 | a new interceptor carries the given token and no authorisation |
| MyAnimeList.CreateInterceptor | app/src/main/java/eu/kanade/tachiyomi/data/track/myanimelist/MyAnimeList.kt:22 | the service's interceptor is a fresh one seeded with the stored password |
| MyAnimeList.Interceptor.SetAuth | app/src/main/java/eu/kanade/tachiyomi/data/track/myanimelist/MyAnimeList.kt:130 | the interceptor then holds exactly the given authorisation and its access token, and the authorisation is saved as the token |
| MyAnimeList.Logout | app/src/main/java/eu/kanade/tachiyomi/data/track/myanimelist/MyAnimeList.kt:140-144 | the credentials are cleared and the service is logged out; the token is deleted and then overwritten by the saved absent authorisation; the interceptor has no token and no authorisation |
| MyAnimeList.Login | app/src/main/java/eu/kanade/tachiyomi/data/track/myanimelist/MyAnimeList.kt:127-138 | succeeds iff the token exchange and the user query both succeed; on success the user name and access token are the credentials, the authorisation is set and saved as the token; on failure the state is exactly the logout's |
| Kavita.ApiFromUrl | app/src/main/java/eu/kanade/tachiyomi/data/track/kavita/KavitaApi.kt:33 | ends in "/api", extends the text before the first "/api/", and is the URL plus "/api" when there is none |
| Kavita.BeforeFirstHasNoApiSegment | app/src/main/java/eu/kanade/tachiyomi/data/track/kavita/KavitaApi.kt:33 | the part kept holds no "/api/" |
| Kavita.ApiFromApiPath | app/src/main/java/eu/kanade/tachiyomi/data/track/kavita/KavitaApi.kt:33 | round trip: a base with no "/api/" and no "/api" ending is recovered from base + "/api/" + any path |
| Kavita.ApiFromUrlNoFixedPoint | app/src/main/java/eu/kanade/tachiyomi/data/track/kavita/KavitaApi.kt:33 | no URL is its own API base |
| Kavita.ApiFromUrlNotIdempotent | app/src/main/java/eu/kanade/tachiyomi/data/track/kavita/KavitaApi.kt:33 | applying it to its own result appends a second "/api" |
| Kavita.IdFromUrl | app/src/main/java/eu/kanade/tachiyomi/data/track/kavita/KavitaApi.kt:84 | a found id is a 32-bit Int taken from a non-empty text after the last '/' |
| Kavita.IdFromSeriesUrl | app/src/main/java/eu/kanade/tachiyomi/data/track/kavita/KavitaApi.kt:84 | round trip: prefix + "/" + printed id gives back the id |
| Kavita.IdFromUrlTrailingSlash | app/src/main/java/eu/kanade/tachiyomi/data/track/kavita/KavitaApi.kt:84 | a URL ending in '/' has no id |
| Kavita.MaxNumber | app/src/main/java/eu/kanade/tachiyomi/data/track/kavita/KavitaApi.kt:104 | maxOf: a member no smaller than any element |
| Kavita.MaxTruncatedNumber | app/src/main/java/eu/kanade/tachiyomi/data/track/kavita/KavitaApi.kt:107 | maxOf of the truncations: some element's truncation, no smaller than any |
| Kavita.MaxOfTruncations | app/src/main/java/eu/kanade/tachiyomi/data/track/kavita/KavitaApi.kt:104-107 | the largest truncation is the truncation of the largest number |
| Kavita.UnnumberedVolumes | app/src/main/java/eu/kanade/tachiyomi/data/track/kavita/KavitaApi.kt:104-105 | at most one per volume |
| Kavita.NumberedMax | app/src/main/java/eu/kanade/tachiyomi/data/track/kavita/KavitaApi.kt:106-107 | non-negative, bounds every numbered volume's truncated maximum, and is 0 or attained by one |
| Kavita.TotalChaptersIsLeastBound | app/src/main/java/eu/kanade/tachiyomi/data/track/kavita/KavitaApi.kt:101-111 | the total bounds the unnumbered count and every numbered maximum, and equals one of them |
| Kavita.TotalChaptersStep | app/src/main/java/eu/kanade/tachiyomi/data/track/kavita/KavitaApi.kt:103-109 | counting one more volume adds one unnumbered volume or raises the running maximum |
| Kavita.RunningMaxStep | app/src/main/java/eu/kanade/tachiyomi/data/track/kavita/KavitaApi.kt:106-107 | comparing before truncating keeps the larger truncated value |
| Kavita.TotalChapters | app/src/main/java/eu/kanade/tachiyomi/data/track/kavita/KavitaApi.kt:101-111 | the loop returns the total when every volume has chapters, and the maxOf failure otherwise |
| Kavita.TotalChaptersResult | app/src/main/java/eu/kanade/tachiyomi/data/track/kavita/KavitaApi.kt:91-116 | a bad series id fails first; a result needs the id and the volumes |
| Kavita.GetTotalChapters | app/src/main/java/eu/kanade/tachiyomi/data/track/kavita/KavitaApi.kt:91-116 | the method returns TotalChaptersResult |
| Kavita.SeriesStatus | app/src/main/java/eu/kanade/tachiyomi/data/track/kavita/KavitaApi.kt:161-166 | completed iff all pages are read; else unread iff none is read; else reading |
| Kavita.EmptySeriesIsCompleted | app/src/main/java/eu/kanade/tachiyomi/data/track/kavita/KavitaApi.kt:162-163 | a series without pages is completed, not unread |
| Kavita.LatestChapterRead | app/src/main/java/eu/kanade/tachiyomi/data/track/kavita/KavitaApi.kt:118-141 | a bad id fails; a call with no response fails with the request URL; any other code but 200 gives 0; a 200 whose number parses with ',' read as '.' gives that number; a 200 with a missing or unparseable number fails, and errors come only from these cases |
| Kavita.NewToken | app/src/main/java/eu/kanade/tachiyomi/data/track/kavita/KavitaApi.kt:41-79 | a token iff 200 with a decodable body; an error iff the call fails other than by timeout, or answers 401, 500 or an undecodable 200, always re-wrapped; null on timeout and other codes |
| Kavita.SearchedTrack | app/src/main/java/eu/kanade/tachiyomi/data/track/kavita/KavitaApi.kt:154-168 | the cover is the thumbnail URL or "null"; the tracking URL, title, total, progress and status are the ones fetched; ids, library id, score and reading dates are toTrack's |
| Kavita.TrackSearchResult | app/src/main/java/eu/kanade/tachiyomi/data/track/kavita/KavitaApi.kt:143-173 | a failed series request fails; otherwise it succeeds iff both the total and the latest chapter succeed, and yields SearchedTrack of them |
| Kavita.GetTrackSearch | app/src/main/java/eu/kanade/tachiyomi/data/track/kavita/KavitaApi.kt:143-173 | the step-by-step track building returns TrackSearchResult |
| Kavita.UpdateProgress | app/src/main/java/eu/kanade/tachiyomi/data/track/kavita/KavitaApi.kt:175-183 | a bad id fails; a failed mark-read call fails with its URL; a successful one gives exactly the fresh search for the same tracking URL |
| Downloads.FindFrom | app/src/main/java/eu/kanade/tachiyomi/data/download/DownloadProvider.kt:95 | findFile: the first listing entry that answers to the name, or none does |
| Downloads.FindFile | app/src/main/java/eu/kanade/tachiyomi/data/download/DownloadProvider.kt:82 | a found entry is the first entry of the listing that matches; none found means no entry matches |
| Downloads.ExactFindImpliesCaseless | app/src/main/java/eu/kanade/tachiyomi/data/download/DownloadProvider.kt:105-136 | an exact match is also found when case is ignored |
| Downloads.RawChapterDirName | app/src/main/java/eu/kanade/tachiyomi/data/download/DownloadProvider.kt:252-262 | ends in the chapter name; with a scanlator, starts with "scanlator_" and is exactly that long plus the name; otherwise the name, with "_" in front exactly when includeBlank |
| Downloads.IncludeBlankMatters | app/src/main/java/eu/kanade/tachiyomi/data/download/DownloadProvider.kt:257-260 | includeBlank changes the name iff the scanlator is null or blank |
| Downloads.ValidChapterDirNames | app/src/main/java/eu/kanade/tachiyomi/data/download/DownloadProvider.kt:269-275 | one to three distinct names, current form first, exactly the current, blank and legacy forms |
| Downloads.ValidNamesWithoutScanlator | app/src/main/java/eu/kanade/tachiyomi/data/download/DownloadProvider.kt:269-275 | without a scanlator at most two names remain |
| Downloads.Candidates | app/src/main/java/eu/kanade/tachiyomi/data/download/DownloadProvider.kt:132-133 | each name is followed by its ".cbz" form |
| Downloads.FindMangaDir | app/src/main/java/eu/kanade/tachiyomi/data/download/DownloadProvider.kt:90-96 | a found manga directory is the first entry answering to the manga name in the first entry answering to the source name; without a source directory nothing is found; with one, nothing is found iff no entry of it answers to the manga name |
| Downloads.FirstFoundPairwise | app/src/main/java/eu/kanade/tachiyomi/data/download/DownloadProvider.kt:111-114 | no manga directory gives nothing; otherwise the result equals the first hit of the flattened list of each name followed by its ".cbz" |
| Downloads.FirstFound | app/src/main/java/eu/kanade/tachiyomi/data/download/DownloadProvider.kt:134-136 | a result is the lookup of some candidate, every earlier candidate being absent; none means no candidate is found |
| Downloads.FirstFoundAt | app/src/main/java/eu/kanade/tachiyomi/data/download/DownloadProvider.kt:134-136 | conversely, a candidate that is found while every earlier one is absent is exactly the result |
| Downloads.CandidatesFound | app/src/main/java/eu/kanade/tachiyomi/data/download/DownloadProvider.kt:111-136 | a hit among names and archives answers to some name or its ".cbz"; there is none iff no name and no archive is present |
| Downloads.CandidatesPriority | app/src/main/java/eu/kanade/tachiyomi/data/download/DownloadProvider.kt:111-116 | with no earlier name or archive present, a name found as a directory is the hit, and otherwise its archive, when present |
| Downloads.ExactFirstFoundImpliesCaseless | app/src/main/java/eu/kanade/tachiyomi/data/download/DownloadProvider.kt:105-136 | the exact-case search of findChapterDirs never finds more than the caseless search of findChapterDir |
| Downloads.FindChapterDir | app/src/main/java/eu/kanade/tachiyomi/data/download/DownloadProvider.kt:105-115 | nothing without a manga directory; otherwise the flattened first hit, which answers to a valid chapter directory name or its ".cbz", and is absent iff none of them is present (ignoring case) |
| Downloads.ChapterDirIn | app/src/main/java/eu/kanade/tachiyomi/data/download/DownloadProvider.kt:131-136 | the first of the valid names tried in order, each exactly as a directory and then as its ".cbz": with no earlier name or archive present, a name's own entry wins over its archive; a hit is named exactly a valid name or its ".cbz"; none iff no such entry exists |
| Downloads.ChapterDirsIn | app/src/main/java/eu/kanade/tachiyomi/data/download/DownloadProvider.kt:130-137 | at most one entry per chapter, each in the manga directory; every chapter's existing directory is listed, and every listed entry is some chapter's |
| Downloads.FindChapterDirs | app/src/main/java/eu/kanade/tachiyomi/data/download/DownloadProvider.kt:124-138 | empty without a manga directory; otherwise every chapter's existing directory is listed, and every listed entry is some chapter's, in the manga directory |
| Downloads.ChapterDirsAgreeWithChapterDir | app/src/main/java/eu/kanade/tachiyomi/data/download/DownloadProvider.kt:105-138 | a chapter the bulk lookup finds is also found by the single lookup |
| Downloads.TempDirIn | app/src/main/java/eu/kanade/tachiyomi/data/download/DownloadProvider.kt:230 | a hit is named exactly the chapter's directory name plus "_tmp"; none iff no entry has that name |
| Downloads.TempDirsIn | app/src/main/java/eu/kanade/tachiyomi/data/download/DownloadProvider.kt:230 | at most one per chapter, each in the manga directory; every chapter's existing temp directory is listed, and every listed entry is some chapter's, named with its temp name |
| Downloads.FindTempChapterDirs | app/src/main/java/eu/kanade/tachiyomi/data/download/DownloadProvider.kt:224-231 | empty without a manga directory; each result carries a chapter's temp name |
| Downloads.TempDirIsKept | app/src/main/java/eu/kanade/tachiyomi/data/download/DownloadProvider.kt:197-199 | a chapter's temp directory is always reported as unmatched |
| Downloads.ChapterDirIsMatched | app/src/main/java/eu/kanade/tachiyomi/data/download/DownloadProvider.kt:201-206 | a chapter's own directory and its ".cbz" are never reported |
| Downloads.ScanlatorPrefixedNameIsMatched | app/src/main/java/eu/kanade/tachiyomi/data/download/DownloadProvider.kt:208-210 | "scanlator_name" for a chapter's name is matched through the text after the first "_" |
| Downloads.KeptEntries | app/src/main/java/eu/kanade/tachiyomi/data/download/DownloadProvider.kt:195-214 | exactly the listing entries the filter keeps |
| Downloads.FindUnmatchedChapterDirs | app/src/main/java/eu/kanade/tachiyomi/data/download/DownloadProvider.kt:185-215 | empty without a manga directory; otherwise exactly its entries that the filter keeps |
| Downloads.RenameAsWrittenThrows | app/src/main/java/eu/kanade/tachiyomi/data/download/DownloadProvider.kt:156-157 | the name "_a_b" makes first().first() throw |
| Downloads.RenamedName | app/src/main/java/eu/kanade/tachiyomi/data/download/DownloadProvider.kt:156-160 | renamed iff the name has at least two "_" and starts with a digit; the new name drops the first segment and a "null_" prefix |
| Downloads.RenameAgreesWhereDefined | app/src/main/java/eu/kanade/tachiyomi/data/download/DownloadProvider.kt:156-160 | where the code as written does not throw it agrees with the corrected rename, and where it throws the corrected rename keeps the name |
| Downloads.LegacyNameRenamed | app/src/main/java/eu/kanade/tachiyomi/data/download/DownloadProvider.kt:156-160 | "<id>_rest" with a "_" in rest becomes rest without a "null_" prefix |
| Downloads.RenamedEntries | app/src/main/java/eu/kanade/tachiyomi/data/download/DownloadProvider.kt:155-162 | one entry per listed entry, contents unchanged; while every entry so far has a name, each takes its renamed name when the rule applies and keeps it otherwise; from the first nameless entry on, entries are left alone |
| Downloads.RenamedEntriesNames | app/src/main/java/eu/kanade/tachiyomi/data/download/DownloadProvider.kt:155-162 | an entry with only named entries before it takes the rule's new name, or keeps its own when the rule does not apply; after a nameless entry the rest of the directory is left alone |
| Downloads.RenameKeepsUnprefixedNames | app/src/main/java/eu/kanade/tachiyomi/data/download/DownloadProvider.kt:157 | a directory with no legacy names is unchanged |
| Downloads.RenameInDir | app/src/main/java/eu/kanade/tachiyomi/data/download/DownloadProvider.kt:155-162 | the loop over a listing yields RenamedEntries, so legacy names are renamed up to the first nameless entry |
| Downloads.WithDirectory | app/src/main/java/eu/kanade/tachiyomi/data/download/DownloadProvider.kt:70-71 | createDirectory reuses an existing entry unchanged; otherwise it appends exactly one empty directory with that name; the name is then found |
| Downloads.FindAfterReplace | app/src/main/java/eu/kanade/tachiyomi/data/download/DownloadProvider.kt:160 | replacing an entry by one of the same name does not change lookups |
| Downloads.WithMangaDir | app/src/main/java/eu/kanade/tachiyomi/data/download/DownloadProvider.kt:64-75 | after creating the directories the manga directory is found; an existing manga directory leaves the tree unchanged; otherwise every entry is kept, at most one new source directory holding only the new manga directory is appended, or the first matching source directory gains exactly the empty manga directory |
| Downloads.WithMangaDirIdempotent | app/src/main/java/eu/kanade/tachiyomi/data/download/DownloadProvider.kt:64-75 | creating the directories a second time changes nothing |
| Downloads.RenameOne | app/src/main/java/eu/kanade/tachiyomi/data/download/DownloadProvider.kt:151-163 | the root keeps its name and its number of source directories |
| Downloads.RenameAll | app/src/main/java/eu/kanade/tachiyomi/data/download/DownloadProvider.kt:147-164 | the root keeps its name and its number of source directories |
| Downloads.RenameOneKeepsDirectories | app/src/main/java/eu/kanade/tachiyomi/data/download/DownloadProvider.kt:151-163 | only chapter entries are renamed; source and manga directories keep their names |
| Downloads.DownloadProvider.constructor | app/src/main/java/eu/kanade/tachiyomi/data/download/DownloadProvider.kt:41-56 | the provider starts at the given downloads directory |
| Downloads.DownloadProvider.SetDownloadsDir | app/src/main/java/eu/kanade/tachiyomi/data/download/DownloadProvider.kt:41-56 | the downloads directory becomes the new one |
| Downloads.DownloadProvider.GetMangaDir | app/src/main/java/eu/kanade/tachiyomi/data/download/DownloadProvider.kt:64-75 | the tree becomes WithMangaDir of the old one (existing directories and downloads kept, at most the two directories added), and the returned directory is what findMangaDir then finds |
| Downloads.DownloadProvider.RenameChapters | app/src/main/java/eu/kanade/tachiyomi/data/download/DownloadProvider.kt:147-164 | the tree becomes RenameAll over the favourites |
| TrackManagers.IdConstant | app/src/main/java/eu/kanade/tachiyomi/data/track/TrackManager.kt:18-26 | every tracker's id is in 1..9 |
| TrackManagers.ServicesWellFormed | app/src/main/java/eu/kanade/tachiyomi/data/track/TrackManager.kt:29-39 | nine services with ids 1..9 in order, each built with its own constant, no id shared |
| TrackManagers.FindById | app/src/main/java/eu/kanade/tachiyomi/data/track/TrackManager.kt:41 | find: the first service with the id, and None iff there is none |
| TrackManagers.GetServiceSpec | app/src/main/java/eu/kanade/tachiyomi/data/track/TrackManager.kt:41 | a service is found iff the id is in 1..9, and it has that id |
| TrackManagers.GetServiceByConstant | app/src/main/java/eu/kanade/tachiyomi/data/track/TrackManager.kt:41 | looking up a tracker's constant yields that tracker |
| TrackManagers.AnyLoggedSpec | app/src/main/java/eu/kanade/tachiyomi/data/track/TrackManager.kt:43 | any over the list holds iff some element is logged in |
| TrackManagers.HasLoggedServicesSpec | app/src/main/java/eu/kanade/tachiyomi/data/track/TrackManager.kt:43 | true iff some id in 1..9 has non-empty credentials |
| Sources.StubSource.constructor | app/src/main/java/eu/kanade/tachiyomi/source/SourceManager.kt:107-110 | a stub carries its id |
| Sources.LongHashCode | app/src/main/java/eu/kanade/tachiyomi/source/SourceManager.kt:130 | Long.hashCode is a 32-bit Int |
| Sources.StubEqualsById | app/src/main/java/eu/kanade/tachiyomi/source/SourceManager.kt:130-137 | stubs are equal iff their ids are; equality is symmetric and implies equal hash codes |
| Sources.StubNeverEqualsRegistered | app/src/main/java/eu/kanade/tachiyomi/source/SourceManager.kt:132-137 | a stub equals no installed source and not null |
| Sources.StubHashCollides | app/src/main/java/eu/kanade/tachiyomi/source/SourceManager.kt:130 | ids 0 and 2^32+1 have the same hash code |
| Sources.AssociateByKeepsAll | app/src/main/java/eu/kanade/tachiyomi/source/SourceManager.kt:39-61 | the delegated table is keyed by exactly the four ids, and each entry is kept |
| Sources.AssociateByDistinct | app/src/main/java/eu/kanade/tachiyomi/source/SourceManager.kt:39-61 | associateBy over entries with distinct ids keeps every entry under its id and adds no other key |
| Sources.CountWithId | app/src/main/java/eu/kanade/tachiyomi/source/SourceManager.kt:97 | the count is positive iff some entry has the id |
| Sources.IsDelegatedSourceSpec | app/src/main/java/eu/kanade/tachiyomi/source/SourceManager.kt:97 | delegated iff the id is one of the four delegated ids |
| Sources.FindByUrlName | app/src/main/java/eu/kanade/tachiyomi/source/SourceManager.kt:99-100 | a found entry has the URL name, and none found means no entry has it |
| Sources.GetDelegatedSourceSpec | app/src/main/java/eu/kanade/tachiyomi/source/SourceManager.kt:99-100 | found iff one of the four host names, each giving its own delegate |
| Sources.RegisterAllLookup | app/src/main/java/eu/kanade/tachiyomi/source/SourceManager.kt:67-75 | a key is present iff it was there or some source has it, the last source with the key wins, and other keys keep their value |
| Sources.LocalSourceSurvives | app/src/main/java/eu/kanade/tachiyomi/source/SourceManager.kt:67 | the local source stays under its id when no extension claims it |
| Sources.LaterSourceWins | app/src/main/java/eu/kanade/tachiyomi/source/SourceManager.kt:68-70 | of two sources with one id, the later extension's is kept |
| Sources.RegisterAllSnoc | app/src/main/java/eu/kanade/tachiyomi/source/SourceManager.kt:70 | registering one more source is a map update at its id |
| Sources.DelegatedSnoc | app/src/main/java/eu/kanade/tachiyomi/source/SourceManager.kt:71 | one more source sets its delegate's target when its id is delegated, to it when it is an HTTP source and to null otherwise |
| Sources.SourceManager.constructor | app/src/main/java/eu/kanade/tachiyomi/source/SourceManager.kt:32-34 | the maps start empty |
| Sources.SourceManager.Get | app/src/main/java/eu/kanade/tachiyomi/source/SourceManager.kt:90 | a source iff the key is in the map, and it is the mapped one |
| Sources.SourceManager.GetOrStub | app/src/main/java/eu/kanade/tachiyomi/source/SourceManager.kt:92-95 | the installed source if any; else the cached stub; else a fresh stub with the key, which is cached; stubs are kept under their own id |
| Sources.SourceManager.GetOrStubTwice | app/src/main/java/eu/kanade/tachiyomi/source/SourceManager.kt:92-95 | two calls for an uninstalled id return the same stub object |
| Sources.SourceManager.Rebuild | app/src/main/java/eu/kanade/tachiyomi/source/SourceManager.kt:67-75 | the map is the local source plus every extension's sources, later ones winning, and the delegates are set from them |
| Database.Db.constructor | app/src/main/java/eu/kanade/tachiyomi/data/database/DbOpenCallback.kt:25 | a database starts with an empty statement log |
| Database.Db.ExecSql | app/src/main/java/eu/kanade/tachiyomi/data/database/DbOpenCallback.kt:43 | one statement is appended |
| Database.Db.RunQuery | app/src/main/java/eu/kanade/tachiyomi/data/database/DbOpenCallback.kt:36 | one query is appended |
| Database.Db.SetForeignKeyConstraintsEnabled | app/src/main/java/eu/kanade/tachiyomi/data/database/DbOpenCallback.kt:128 | the constraint switch is appended |
| Database.SetPragma | app/src/main/java/eu/kanade/tachiyomi/data/database/DbOpenCallback.kt:32-39 | exactly one "PRAGMA …" query is appended |
| Database.OnOpen | app/src/main/java/eu/kanade/tachiyomi/data/database/DbOpenCallback.kt:25-30 | three pragma queries are appended in order (foreign keys, WAL journal, normal synchronous), earlier log kept |
| Database.OnConfigure | app/src/main/java/eu/kanade/tachiyomi/data/database/DbOpenCallback.kt:127-129 | foreign-key constraints are switched on |
| Database.CreatePlanCoversSchema | app/src/main/java/eu/kanade/tachiyomi/data/database/DbOpenCallback.kt:41-56 | every table and every index is created |
| Database.CreatePlanTablesFirst | app/src/main/java/eu/kanade/tachiyomi/data/database/DbOpenCallback.kt:41-56 | eleven statements: the six tables first, then the five indexes |
| Database.CreatePlanIndexesFollowTables | app/src/main/java/eu/kanade/tachiyomi/data/database/DbOpenCallback.kt:41-56 | each index is created after the table it is built on |
| Database.OnCreate | app/src/main/java/eu/kanade/tachiyomi/data/database/DbOpenCallback.kt:41-56 | the log gains exactly the create plan |
| Database.LadderIsRange | app/src/main/java/eu/kanade/tachiyomi/data/database/DbOpenCallback.kt:63-124 | the guarded steps up to v are the steps from max(old+1, 2) to v |
| Database.UpgradePlanIsRange | app/src/main/java/eu/kanade/tachiyomi/data/database/DbOpenCallback.kt:58-125 | the upgrade runs the steps from max(old+1, 2) to 17, in order |
| Database.NothingToUpgrade | app/src/main/java/eu/kanade/tachiyomi/data/database/DbOpenCallback.kt:58-125 | from version 17 or later nothing runs |
| Database.RunsSplit | app/src/main/java/eu/kanade/tachiyomi/data/database/DbOpenCallback.kt:63-124 | a run of steps splits around any step inside it |
| Database.RangeSplit | app/src/main/java/eu/kanade/tachiyomi/data/database/DbOpenCallback.kt:63-124 | the step range splits around any version inside it |
| Database.LeaderIsUnique | app/src/main/java/eu/kanade/tachiyomi/data/database/DbOpenCallback.kt:63-124 | each step's first statement occurs in no other step |
| Database.LeaderInRange | app/src/main/java/eu/kanade/tachiyomi/data/database/DbOpenCallback.kt:63-124 | a step's first statement is in a range iff its version is |
| Database.StepRunsIff | app/src/main/java/eu/kanade/tachiyomi/data/database/DbOpenCallback.kt:63-124 | step v runs iff the old version is below v |
| Database.StepsInOrder | app/src/main/java/eu/kanade/tachiyomi/data/database/DbOpenCallback.kt:63-124 | two steps that both run run in version order |
| Database.TrackTableRebuilt | app/src/main/java/eu/kanade/tachiyomi/data/database/DbOpenCallback.kt:113-118 | below version 15 the track table is renamed, recreated, refilled and the copy dropped, in that order, between the earlier and later steps |
| Database.LadderUnrolled | app/src/main/java/eu/kanade/tachiyomi/data/database/DbOpenCallback.kt:63-124 | the plan is the sixteen guarded blocks in order |
| Database.OnUpgrade | app/src/main/java/eu/kanade/tachiyomi/data/database/DbOpenCallback.kt:58-125 | the log gains exactly the upgrade plan of the old version |
| Database.UpgradeTo2 | app/src/main/java/eu/kanade/tachiyomi/data/database/DbOpenCallback.kt:63-71 | below version 2 the step's statements are appended, otherwise nothing |
| Database.UpgradeTo3 | app/src/main/java/eu/kanade/tachiyomi/data/database/DbOpenCallback.kt:72-76 | below version 3 the history table and its index are created |
| Database.UpgradeTo4 | app/src/main/java/eu/kanade/tachiyomi/data/database/DbOpenCallback.kt:77-79 | below version 4 the step is appended |
| Database.UpgradeTo5 | app/src/main/java/eu/kanade/tachiyomi/data/database/DbOpenCallback.kt:80-82 | below version 5 the step is appended |
| Database.UpgradeTo6 | app/src/main/java/eu/kanade/tachiyomi/data/database/DbOpenCallback.kt:83-85 | below version 6 the step is appended |
| Database.UpgradeTo7 | app/src/main/java/eu/kanade/tachiyomi/data/database/DbOpenCallback.kt:86-88 | below version 7 the step is appended |
| Database.UpgradeTo8 | app/src/main/java/eu/kanade/tachiyomi/data/database/DbOpenCallback.kt:89-93 | below version 8 the old index is dropped and two indexes are created |
| Database.UpgradeTo9 | app/src/main/java/eu/kanade/tachiyomi/data/database/DbOpenCallback.kt:94-96 | below version 9 the step is appended |
| Database.UpgradeTo10 | app/src/main/java/eu/kanade/tachiyomi/data/database/DbOpenCallback.kt:97-99 | below version 10 the step is appended |
| Database.UpgradeTo11 | app/src/main/java/eu/kanade/tachiyomi/data/database/DbOpenCallback.kt:100-102 | below version 11 the step is appended |
| Database.UpgradeTo12 | app/src/main/java/eu/kanade/tachiyomi/data/database/DbOpenCallback.kt:103-105 | below version 12 the step is appended |
| Database.UpgradeTo13 | app/src/main/java/eu/kanade/tachiyomi/data/database/DbOpenCallback.kt:106-109 | below version 13 both date columns are added |
| Database.UpgradeTo14 | app/src/main/java/eu/kanade/tachiyomi/data/database/DbOpenCallback.kt:110-112 | below version 14 the step is appended |
| Database.UpgradeTo15 | app/src/main/java/eu/kanade/tachiyomi/data/database/DbOpenCallback.kt:113-118 | below version 15 the track table rebuild is appended |
| Database.UpgradeTo16 | app/src/main/java/eu/kanade/tachiyomi/data/database/DbOpenCallback.kt:119-121 | below version 16 the step is appended |
| Database.UpgradeTo17 | app/src/main/java/eu/kanade/tachiyomi/data/database/DbOpenCallback.kt:122-124 | below version 17 the step is appended |
| Strings.IndexOfFrom | app/src/main/java/eu/kanade/tachiyomi/data/track/kavita/KavitaApi.kt:33 | the first occurrence at or after a position, or none |
| Strings.LastIndexOf | app/src/main/java/eu/kanade/tachiyomi/data/track/kavita/KavitaApi.kt:84 | the last position of a character, or the character is absent |
| Strings.SubstringAfterLast | app/src/main/java/eu/kanade/tachiyomi/data/track/kavita/KavitaApi.kt:84 | the result is a suffix of the text without the delimiter, preceded by the delimiter unless it is the whole text; the whole text when the delimiter is absent |
| Strings.RemovePrefix | app/src/main/java/eu/kanade/tachiyomi/data/download/DownloadProvider.kt:159 | with the prefix the text is prefix + result, else unchanged |
| Strings.ReplaceChar | app/src/main/java/eu/kanade/tachiyomi/data/track/kavita/KavitaApi.kt:128 | same length, each occurrence replaced and nothing else |
| Strings.Split | app/src/main/java/eu/kanade/tachiyomi/data/download/DownloadProvider.kt:156 | at least one part, none containing the delimiter |
| Strings.JoinSplit | app/src/main/java/eu/kanade/tachiyomi/data/download/DownloadProvider.kt:156-159 | joining the parts of a split gives back the text |
| Strings.SplitLength | app/src/main/java/eu/kanade/tachiyomi/data/download/DownloadProvider.kt:157 | one part more than delimiters |
| Strings.SplitTailJoin | app/src/main/java/eu/kanade/tachiyomi/data/download/DownloadProvider.kt:158-159 | dropping the first part and joining gives the text after the first delimiter |
| Strings.ParseInt | app/src/main/java/eu/kanade/tachiyomi/data/track/myanimelist/MyAnimeList.kt:106 | a value iff the text is an optional sign and at least one digit whose value fits in an Int; that value |
| Strings.NatToStringValue | app/src/main/java/eu/kanade/tachiyomi/data/track/myanimelist/MyAnimeList.kt:70 | the digits printed for n have value n |
| Strings.ParseIntToString | app/src/main/java/eu/kanade/tachiyomi/data/track/myanimelist/MyAnimeList.kt:70-72 | parsing a printed Int gives it back |
| Collections.Distinct | app/src/main/java/eu/kanade/tachiyomi/data/download/DownloadProvider.kt:275 | every element of the input is kept and nothing else, without duplicates, never longer than the input, and the first element stays first |
| Collections.DistinctPrefix | app/src/main/java/eu/kanade/tachiyomi/data/download/DownloadProvider.kt:275 | the result for any prefix of the list is a prefix of the result for the list, so the elements stay in the order of their first occurrences |
| Collections.DistinctMembership | app/src/main/java/eu/kanade/tachiyomi/data/download/DownloadProvider.kt:275 | membership is unchanged |
| Collections.MapNotNull | app/src/main/java/eu/kanade/tachiyomi/data/download/DownloadProvider.kt:130 | every present result is listed, and every listed value is some element's result; for one element, its result if present and nothing otherwise |
| Collections.MapNotNullAppend | app/src/main/java/eu/kanade/tachiyomi/data/download/DownloadProvider.kt:130 | mapNotNull of a concatenation is the concatenation of the two, so results keep the order of the list and each present one appears once |

## Left out

- I/O, coroutines and flows are not modelled. Network calls, JSON decoding and database queries are oracles or parameters. Logging (`Timber`) has no effect in the model.
- The text of SQL statements is not modelled. Each statement is a label naming the table constant it comes from. `super.onOpen` and the cursor handling of `setPragma` are left out.
- The UI members are left out: names, logos, colours and the localised status strings (`getStatus`, `getGlobalStatus`).
- MyAnimeList `loadOAuth` and `removeFromService` are left out. They are JSON decoding and a plain API call. The JSON encoding `saveOAuth` uses is an oracle parameter.
- `SourceManager.getOnlineSources`/`getCatalogueSources` and the `catalogueSources`/`onlineSources` flows are left out. They filter the map by runtime type, which the model does not carry.
- StubSource's name, `toString` and its not-installed exceptions are left out.
- The delegated sources' `DelegatedHttpSource` objects are left out. The model records which source each delegate was last pointed at, in the `delegateOf` map.
- `DownloadProvider.renameMangaFolder` is left out. It renames one directory found through the source manager, and the model has no part of it beyond `FindFile`.
- The downloads-directory preference observer is reduced to `SetDownloadsDir`.
- Other trackers' overrides of `isLogged` and their own add/update logic are outside this model.
- Sources.LongHashCode: states only the 32-bit range. Equal ids give equal hashes, and the converse is shown false by `StubHashCollides`.
- Kavita.TotalChaptersResult: states the error order and the prerequisites of a result, not the full value. The value is the `TotalChapters` method's contract.
- Kavita.IdFromUrl: states properties of a found id. The round trip is `IdFromSeriesUrl`.
- Downloads.RenameOne: states only that the shape of the root is kept. That directory names stay is `RenameOneKeepsDirectories`; which chapter entries are renamed is `RenamedEntries` and `RenameInDir`.
- Downloads.RenameAll: as `RenameOne`, one favourite after another.
- Downloads.DownloadProvider.RenameChapters: the pass follows the corrected rule `RenamedName`. In the code, the first name shaped like "_a_b" throws out of `renameChapters`, so that entry, every later entry and every later favourite stay unrenamed (see Findings).
- Downloads.RenameInDir, Downloads.RenamedEntries, Downloads.RenameOne and Downloads.RenameAll follow the corrected rule for the same reason.
- Strings.IsDigit: accepts only the ASCII digits. Kotlin's `Char.isDigit`, `toIntOrNull` and `toInt` also accept other Unicode decimal digits, such as Arabic-Indic ones. So a legacy name starting with such a digit is renamed by the code but not by the model, and such a number parses in the code but not in the model.
- Strings.ParseInt: the ASCII-only digit set of `IsDigit` applies.
- Downloads.DownloadProvider.GetMangaDir: `createDirectory` returning null (a location that cannot be written) is not modelled, so the `invalid_download_location` exception is never raised; the model's file tree always accepts a new directory.
- Collections.Distinct: its own contract leaves out the order of the result. That the result lists the first occurrences in the order they are met is the lemma `DistinctPrefix`, because the property relates `Distinct` of a prefix to `Distinct` of the whole list.
- Database.Step: the statements of each version are labels, not SQL text.
- Chapter numbers and scores are `real`. They are not 32-bit floats, so rounding in `Float.toString`/`toFloat` is not modelled; parsing and printing floats are oracles.
- Tracking.Truncate: `Float.toInt` saturates at the 32-bit `Int` range, and a NaN gives 0. Neither is modelled, because numbers are unbounded reals. This affects the completion check and the Kavita chapter total only for numbers beyond 2^31.

## Findings

| source | as written | input that shows it | evidently intended | confidence | as-written member | corrected member |
|---|---|---|---|---|---|---|
| app/src/main/java/eu/kanade/tachiyomi/data/download/DownloadProvider.kt:157 | `nameSplit.first().first().isDigit()` takes the first character of the first "_"-segment, and that segment is empty for a name starting with "_" | a chapter directory named "_a_b": the blank-scanlator name form of a chapter called "a_b". `first()` on the empty segment throws NoSuchElementException, which aborts the whole rename pass | such a name is not a legacy "<id>_…" name and is left alone (`firstOrNull()?.isDigit() == true`) | not executed | Downloads.RenameAsWrittenThrows | Downloads.RenamedName |

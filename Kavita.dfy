/**
 * The Kavita tracker's API client: the URL surgery that turns a series URL into
 * the API base and the series id, the total-chapter count derived from the
 * series' volumes, the series status derived from pages read, and how HTTP
 * response codes of the token and latest-chapter endpoints become results.
 *
 * The server is an oracle, `KavitaServer`: each endpoint is a function from the
 * request URL to the decoded response, `None` (or `NoResponse`, `Unreachable`)
 * where the call or its decoding fails. Exceptions become `Err` values.
 */
module Kavita {
  import opened Wrappers
  import opened Strings
  import opened Tracking

  const UNREAD: int := 1
  const READING: int := 2
  const COMPLETED: int := 3

  /** Why an API call ends in an exception. */
  datatype KavitaError =
    | BadSeriesId(url: string)          // the text after the last '/' is not an `Int`
    | RequestFailed(url: string)        // transport error or an unsuccessful response
    | NoChapters                        // `maxOf` on a volume without chapters
    | NullChapterNumber                 // `number!!` on a null chapter number
    | NotANumber(text: string)          // `toFloat()` on a non-numeric chapter number
    | Unauthorized                      // code 401 of the authenticate endpoint
    | TokenServerError                  // code 500 of the authenticate endpoint
    | UnparseableBody                   // a body that does not decode
    | Wrapped(cause: KavitaError)       // re-thrown as `IOException(e)`

  /** What the series endpoint decodes to. */
  datatype SeriesDto = SeriesDto(name: string, thumbnailUrl: Option<string>, pages: int, pagesRead: int)

  /**
   * A latest-chapter call's outcome: no response at all (the call throws), or a
   * code and, for a body, its chapter number text.
   */
  datatype ChapterResponse = NoResponse | ChapterResponse(code: int, number: Option<string>)

  /**
   * An authenticate call's outcome: a socket timeout, any other failure to get a
   * response (a refused connection, an unknown host), or a code and the decoded
   * token (`None` when it does not decode).
   */
  datatype AuthResponse = TimedOut | Unreachable | Answered(code: int, token: Option<string>)

  datatype KavitaServer = KavitaServer(
    series: string -> Option<SeriesDto>,
    volumes: string -> Option<seq<seq<real>>>,
    latestChapter: string -> ChapterResponse,
    markRead: string -> bool,
    authenticate: string -> AuthResponse,
    toTrack: SeriesDto -> TrackRecord,
    parseFloat: string -> Option<real>,
    floatToString: real -> string)

  // ---------------------------------------------------------------------------
  // URL surgery
  // ---------------------------------------------------------------------------

  /** `getApiFromUrl(url)`: the text before the first "/api/", then "/api". */
  function ApiFromUrl(url: string): (r: string)
    ensures EndsWith(r, "/api")
    ensures IsPrefixOf(BeforeFirst(url, "/api/"), r)
    ensures IndexOf(url, "/api/").None? ==> r == url + "/api"
  {
    var b := BeforeFirst(url, "/api/");
    assert (b + "/api")[|b + "/api"| - 4..] == "/api";
    assert (b + "/api")[..|b|] == b;
    b + "/api"
  }

  /** The text before the first "/api/" holds no "/api/". */
  lemma BeforeFirstHasNoApiSegment(url: string)
    ensures forall j: nat :: !OccursAt(BeforeFirst(url, "/api/"), "/api/", j)
  {
    var b := BeforeFirst(url, "/api/");
    forall j: nat | OccursAt(b, "/api/", j) ensures false {
      assert b[j..j + 5] == url[j..j + 5];
      assert OccursAt(url, "/api/", j);
    }
  }

  /** A "/api/" straddling the end of a text followed by '/' leaves "/api" as the text's end. */
  lemma StraddlingApiSegment(b: string, tail: string, j: nat)
    requires |tail| > 0 && tail[0] == '/'
    requires j < |b| < j + 5
    requires OccursAt(b + tail, "/api/", j)
    ensures j + 4 == |b| && EndsWith(b, "/api")
  {
    var u := b + tail;
    assert u[j..j + 5][|b| - j] == u[|b|] == '/';
    assert b[j..] == u[j..j + 5][..4];
  }

  /** A text without "/api/" that does not end in "/api" gets none across its end from a tail starting with '/'. */
  lemma NoApiSegmentAcross(b: string, tail: string)
    requires forall j: nat :: !OccursAt(b, "/api/", j)
    requires !EndsWith(b, "/api")
    requires |tail| > 0 && tail[0] == '/'
    ensures forall j: nat :: j < |b| ==> !OccursAt(b + tail, "/api/", j)
  {
    var u := b + tail;
    forall j: nat | j < |b| && OccursAt(u, "/api/", j) ensures false {
      if j + 5 <= |b| {
        assert u[j..j + 5] == b[j..j + 5];
        assert OccursAt(b, "/api/", j);
      } else {
        StraddlingApiSegment(b, tail, j);
      }
    }
  }

  /** The API base of an API path is the text before the path's "/api/". */
  lemma ApiFromApiPath(base: string, rest: string)
    requires forall j: nat :: !OccursAt(base, "/api/", j)
    requires !EndsWith(base, "/api")
    ensures ApiFromUrl(base + "/api/" + rest) == base + "/api"
  {
    var u := base + "/api/" + rest;
    NoApiSegmentAcross(base, "/api/" + rest);
    assert u == base + ("/api/" + rest);
    assert u[|base|..|base| + 5] == "/api/";
    assert OccursAt(u, "/api/", |base|);
    var i := IndexOf(u, "/api/");
    assert i.Some? && i.value == |base|;
    assert u[..|base|] == base;
  }

  /** No text is its own API base: the base is never a valid input of `getApiFromUrl`. */
  lemma ApiFromUrlNoFixedPoint(url: string)
    ensures ApiFromUrl(url) != url
  {
    match IndexOf(url, "/api/")
    case Some(i) =>
      assert |ApiFromUrl(url)| == i + 4 < |url|;
    case None =>
      assert |ApiFromUrl(url)| == |url| + 4;
  }

  /** Applying `getApiFromUrl` to its own result appends another "/api". */
  lemma ApiFromUrlNotIdempotent()
    ensures ApiFromUrl("h/api/Series/7") == "h/api"
    ensures ApiFromUrl(ApiFromUrl("h/api/Series/7")) == "h/api/api"
  {
    ApiFromApiPath("h", "Series/7");
    assert "h" + "/api/" + "Series/7" == "h/api/Series/7";
    forall j: nat ensures !OccursAt("h/api", "/api/", j) {
    }
  }

  /** `getIdFromUrl(url)`: the text after the last '/' as an `Int`; `None` where `toInt()` throws. */
  function IdFromUrl(url: string): (r: Option<int>)
    ensures r.Some? ==> IsInt32(r.value)
    ensures r.Some? ==> |SubstringAfterLast(url, '/')| > 0
  {
    ParseInt(SubstringAfterLast(url, '/'))
  }

  /** A URL ending in '/' and a series id yields that id. */
  lemma IdFromSeriesUrl(prefix: string, id: int)
    requires IsInt32(id)
    ensures IdFromUrl(prefix + "/" + IntToString(id)) == Some(id)
  {
    var digits := IntToString(id);
    var u := prefix + "/" + digits;
    IntToStringChars(id, '/');
    assert u[|prefix|] == '/';
    forall j | |prefix| < j < |u| ensures u[j] != '/' {
      assert u[j] == digits[j - |prefix| - 1];
    }
    var k := LastIndexOf(u, '/');
    assert k.Some? && k.value == |prefix|;
    assert u[|prefix| + 1..] == digits;
    ParseIntToString(id);
  }

  /** A URL ending in '/' has no id: `toInt()` of the empty text throws. */
  lemma IdFromUrlTrailingSlash(prefix: string)
    ensures IdFromUrl(prefix + "/") == None
  {
    var u := prefix + "/";
    var k := LastIndexOf(u, '/');
    assert k.Some? && k.value == |prefix|;
  }

  function VolumesUrl(url: string, id: int): string {
    ApiFromUrl(url) + "/Series/volumes?seriesId=" + IntToString(id)
  }

  function LatestChapterUrl(url: string, id: int): string {
    ApiFromUrl(url) + "/Tachiyomi/latest-chapter?seriesId=" + IntToString(id)
  }

  function MarkReadUrl(server: KavitaServer, url: string, id: int, lastChapterRead: real): string {
    ApiFromUrl(url) + "/Tachiyomi/mark-chapter-until-as-read?seriesId=" + IntToString(id)
      + "&chapterNumber=" + server.floatToString(lastChapterRead)
  }

  function AuthenticateUrl(apiUrl: string, apiKey: string): string {
    apiUrl + "/Plugin/authenticate?apiKey=" + apiKey + "&pluginName=Tachiyomi-Kavita"
  }

  // ---------------------------------------------------------------------------
  // Total chapters
  // ---------------------------------------------------------------------------

  /** `chapters.maxOf { number }`. */
  function MaxNumber(numbers: seq<real>): (m: real)
    requires |numbers| > 0
    ensures m in numbers
    ensures forall i :: 0 <= i < |numbers| ==> numbers[i] <= m
  {
    if |numbers| == 1 then numbers[0]
    else
      var m := MaxNumber(numbers[1..]);
      assert forall i :: 1 <= i < |numbers| ==> numbers[i] == numbers[1..][i - 1];
      if numbers[0] >= m then numbers[0] else m
  }

  /** `chapters.maxOf { number.toInt() }`. */
  function MaxTruncatedNumber(numbers: seq<real>): (m: int)
    requires |numbers| > 0
    ensures exists i :: 0 <= i < |numbers| && m == Truncate(numbers[i])
    ensures forall i :: 0 <= i < |numbers| ==> Truncate(numbers[i]) <= m
  {
    if |numbers| == 1 then Truncate(numbers[0])
    else
      var m := MaxTruncatedNumber(numbers[1..]);
      assert forall i :: 1 <= i < |numbers| ==> numbers[i] == numbers[1..][i - 1];
      if Truncate(numbers[0]) >= m then Truncate(numbers[0]) else m
  }

  lemma TruncateMonotone(x: real, y: real)
    requires x <= y
    ensures Truncate(x) <= Truncate(y)
  {
  }

  /** The largest truncated number is the truncated largest number. */
  lemma MaxOfTruncations(numbers: seq<real>)
    requires |numbers| > 0
    ensures MaxTruncatedNumber(numbers) == Truncate(MaxNumber(numbers))
  {
    var i :| 0 <= i < |numbers| && MaxTruncatedNumber(numbers) == Truncate(numbers[i]);
    TruncateMonotone(numbers[i], MaxNumber(numbers));
    var j :| 0 <= j < |numbers| && numbers[j] == MaxNumber(numbers);
  }

  predicate AllVolumesHaveChapters(volumes: seq<seq<real>>) {
    forall i :: 0 <= i < |volumes| ==> |volumes[i]| > 0
  }

  /** A volume whose largest chapter number is 0 counts as one chapter of its own. */
  predicate IsUnnumbered(chapters: seq<real>)
    requires |chapters| > 0
  {
    MaxNumber(chapters) == 0.0
  }

  /** How many volumes count as one chapter each. */
  function UnnumberedVolumes(volumes: seq<seq<real>>): (n: nat)
    requires AllVolumesHaveChapters(volumes)
    ensures n <= |volumes|
  {
    if |volumes| == 0 then 0
    else
      var init := volumes[..|volumes| - 1];
      assert AllVolumesHaveChapters(init) by {
        assert forall i :: 0 <= i < |init| ==> init[i] == volumes[i];
      }
      UnnumberedVolumes(init) + (if IsUnnumbered(volumes[|volumes| - 1]) then 1 else 0)
  }

  /** The largest truncated chapter number among the numbered volumes, and 0 when none is positive. */
  function NumberedMax(volumes: seq<seq<real>>): (m: int)
    requires AllVolumesHaveChapters(volumes)
    ensures m >= 0
    ensures forall i :: 0 <= i < |volumes| && !IsUnnumbered(volumes[i]) ==> Truncate(MaxNumber(volumes[i])) <= m
    ensures m == 0 || exists i :: 0 <= i < |volumes| && !IsUnnumbered(volumes[i]) && m == Truncate(MaxNumber(volumes[i]))
  {
    if |volumes| == 0 then 0
    else
      var init := volumes[..|volumes| - 1];
      var last := volumes[|volumes| - 1];
      assert forall i :: 0 <= i < |init| ==> init[i] == volumes[i];
      var m := NumberedMax(init);
      if IsUnnumbered(last) || Truncate(MaxNumber(last)) <= m then m else Truncate(MaxNumber(last))
  }

  /** The total chapter count: the larger of the unnumbered-volume count and the numbered maximum. */
  function TotalChaptersOf(volumes: seq<seq<real>>): int
    requires AllVolumesHaveChapters(volumes)
  {
    var n := UnnumberedVolumes(volumes);
    var m := NumberedMax(volumes);
    if m > n then m else n
  }

  /** The total is the least value at least as large as the unnumbered count and every numbered volume's truncated maximum. */
  lemma TotalChaptersIsLeastBound(volumes: seq<seq<real>>)
    requires AllVolumesHaveChapters(volumes)
    ensures TotalChaptersOf(volumes) >= UnnumberedVolumes(volumes)
    ensures forall i :: 0 <= i < |volumes| && !IsUnnumbered(volumes[i]) ==>
      Truncate(MaxNumber(volumes[i])) <= TotalChaptersOf(volumes)
    ensures TotalChaptersOf(volumes) == UnnumberedVolumes(volumes)
      || exists i :: 0 <= i < |volumes| && !IsUnnumbered(volumes[i])
                     && TotalChaptersOf(volumes) == Truncate(MaxNumber(volumes[i]))
  {
  }

  /** Counting one more volume. */
  lemma TotalChaptersStep(volumes: seq<seq<real>>, i: nat)
    requires i < |volumes| && |volumes[i]| > 0
    requires AllVolumesHaveChapters(volumes[..i])
    ensures AllVolumesHaveChapters(volumes[..i + 1])
    ensures UnnumberedVolumes(volumes[..i + 1])
            == UnnumberedVolumes(volumes[..i]) + (if IsUnnumbered(volumes[i]) then 1 else 0)
    ensures NumberedMax(volumes[..i + 1])
            == if IsUnnumbered(volumes[i]) || Truncate(MaxNumber(volumes[i])) <= NumberedMax(volumes[..i])
               then NumberedMax(volumes[..i]) else Truncate(MaxNumber(volumes[i]))
  {
    assert volumes[..i + 1][..i] == volumes[..i];
    assert volumes[..i + 1][i] == volumes[i];
  }

  /**
   * The loop's update of the running maximum, which compares it with a volume's
   * largest number before truncating, keeps the larger truncated value.
   */
  lemma RunningMaxStep(m: int, chapters: seq<real>)
    requires m >= 0 && |chapters| > 0
    ensures (if (m as real) < MaxNumber(chapters) then MaxTruncatedNumber(chapters) else m)
            == (if Truncate(MaxNumber(chapters)) <= m then m else Truncate(MaxNumber(chapters)))
  {
    MaxOfTruncations(chapters);
    if (m as real) < MaxNumber(chapters) {
    } else {
      TruncateMonotone(MaxNumber(chapters), m as real);
    }
  }

  /**
   * The `getTotalChapters` loop over the fetched volumes: a counter of
   * unnumbered volumes and a running numbered maximum, which is replaced by a
   * volume's largest truncated number when that volume's largest number is
   * larger than it. A volume without chapters makes `maxOf` throw.
   */
  method TotalChapters(volumes: seq<seq<real>>) returns (r: Result<int, KavitaError>)
    ensures AllVolumesHaveChapters(volumes) ==> r == Ok(TotalChaptersOf(volumes))
    ensures !AllVolumesHaveChapters(volumes) ==> r == Err(NoChapters)
  {
    var volumeNumber := 0;
    var maxChapterNumber := 0;
    var i := 0;
    while i < |volumes|
      invariant 0 <= i <= |volumes|
      invariant AllVolumesHaveChapters(volumes[..i])
      invariant volumeNumber == UnnumberedVolumes(volumes[..i])
      invariant maxChapterNumber == NumberedMax(volumes[..i])
    {
      var chapters := volumes[i];
      if |chapters| == 0 {
        return Err(NoChapters);
      }
      TotalChaptersStep(volumes, i);
      RunningMaxStep(maxChapterNumber, chapters);
      if MaxNumber(chapters) == 0.0 {
        volumeNumber := volumeNumber + 1;
      } else if (maxChapterNumber as real) < MaxNumber(chapters) {
        maxChapterNumber := MaxTruncatedNumber(chapters);
      }
      i := i + 1;
    }
    assert volumes[..i] == volumes;
    r := Ok(if maxChapterNumber > volumeNumber then maxChapterNumber else volumeNumber);
  }

  /** What `getTotalChapters(url)` yields: the id is taken first, then the volumes are fetched and counted. */
  function TotalChaptersResult(server: KavitaServer, url: string): (r: Result<int, KavitaError>)
    ensures IdFromUrl(url).None? ==> r == Err(BadSeriesId(url))
    ensures r.Ok? ==> IdFromUrl(url).Some? && server.volumes(VolumesUrl(url, IdFromUrl(url).value)).Some?
  {
    match IdFromUrl(url)
    case None => Err(BadSeriesId(url))
    case Some(id) =>
      match server.volumes(VolumesUrl(url, id))
      case None => Err(RequestFailed(VolumesUrl(url, id)))
      case Some(volumes) =>
        if AllVolumesHaveChapters(volumes) then Ok(TotalChaptersOf(volumes)) else Err(NoChapters)
  }

  /** `getTotalChapters(url)`. */
  method GetTotalChapters(server: KavitaServer, url: string) returns (r: Result<int, KavitaError>)
    ensures r == TotalChaptersResult(server, url)
  {
    var id := IdFromUrl(url);
    if id.None? {
      return Err(BadSeriesId(url));
    }
    var requestUrl := VolumesUrl(url, id.value);
    var volumes := server.volumes(requestUrl);
    if volumes.None? {
      return Err(RequestFailed(requestUrl));
    }
    r := TotalChapters(volumes.value);
  }

  // ---------------------------------------------------------------------------
  // Status, latest chapter, token
  // ---------------------------------------------------------------------------

  /** The series status: completed when all pages are read, else unread when none is, else reading. */
  function SeriesStatus(pagesRead: int, pages: int): (r: int)
    ensures r == COMPLETED <==> pagesRead == pages
    ensures r == UNREAD <==> pagesRead != pages && pagesRead == 0
    ensures r == READING <==> pagesRead != pages && pagesRead != 0
  {
    if pagesRead == pages then COMPLETED
    else if pagesRead == 0 then UNREAD
    else READING
  }

  /** A series without pages counts as completed, not as unread. */
  lemma EmptySeriesIsCompleted()
    ensures SeriesStatus(0, 0) == COMPLETED
  {
  }

  /**
   * `getLatestChapterRead(url)`: code 200 decodes the chapter number with ','
   * read as the decimal point; 204 and every other code give 0; a call that
   * gets no response is rethrown.
   */
  function LatestChapterRead(server: KavitaServer, url: string): (r: Result<real, KavitaError>)
    ensures IdFromUrl(url).None? ==> r == Err(BadSeriesId(url))
    ensures IdFromUrl(url).Some? ==>
      var resp := server.latestChapter(LatestChapterUrl(url, IdFromUrl(url).value));
      && (resp.NoResponse? ==> r == Err(RequestFailed(LatestChapterUrl(url, IdFromUrl(url).value))))
      && (resp.ChapterResponse? && resp.code != 200 ==> r == Ok(0.0))
      && (resp.ChapterResponse? && resp.code == 200 && resp.number.Some? && server.parseFloat(ReplaceChar(resp.number.value, ',', '.')).Some?
          ==> r == Ok(server.parseFloat(ReplaceChar(resp.number.value, ',', '.')).value))
      && (resp.ChapterResponse? && resp.code == 200 && (resp.number.None? || server.parseFloat(ReplaceChar(resp.number.value, ',', '.')).None?)
          ==> r.Err?)
    ensures r.Ok? && r.value != 0.0 ==>
      var resp := server.latestChapter(LatestChapterUrl(url, IdFromUrl(url).value));
      resp.ChapterResponse? && resp.code == 200 && resp.number.Some?
      && server.parseFloat(ReplaceChar(resp.number.value, ',', '.')) == Some(r.value)
    ensures r.Err? ==>
      || IdFromUrl(url).None?
      || (var resp := server.latestChapter(LatestChapterUrl(url, IdFromUrl(url).value));
          || resp.NoResponse?
          || (resp.code == 200
              && (resp.number.None? || server.parseFloat(ReplaceChar(resp.number.value, ',', '.')).None?)))
  {
    match IdFromUrl(url)
    case None => Err(BadSeriesId(url))
    case Some(id) =>
      var resp := server.latestChapter(LatestChapterUrl(url, id));
      if resp.NoResponse? then Err(RequestFailed(LatestChapterUrl(url, id)))
      else if resp.code == 200 then
        match resp.number
        case None => Err(NullChapterNumber)
        case Some(text) =>
          match server.parseFloat(ReplaceChar(text, ',', '.'))
          case None => Err(NotANumber(text))
          case Some(x) => Ok(x)
      else if resp.code == 204 then Ok(0.0)
      else Ok(0.0)
  }

  /**
   * `getNewToken(apiUrl, apiKey)`: the token on 200; `null` on a timeout and on
   * any code but 200, 401 and 500; an error on 401 and 500, on a 200 body that
   * does not decode and on any other failed call, each re-wrapped by the
   * generic handler.
   */
  function NewToken(server: KavitaServer, apiUrl: string, apiKey: string): (r: Result<Option<string>, KavitaError>)
    ensures var resp := server.authenticate(AuthenticateUrl(apiUrl, apiKey));
      && (r.Ok? && r.value.Some? <==> resp.Answered? && resp.code == 200 && resp.token.Some?)
      && (r.Ok? && r.value.Some? ==> r.value == resp.token)
      && (r.Err? <==> resp.Unreachable?
                      || (resp.Answered? && (resp.code == 401 || resp.code == 500 || (resp.code == 200 && resp.token.None?))))
      && (r.Err? ==> r.error.Wrapped?)
      && (resp.Unreachable? ==> r == Err(Wrapped(RequestFailed(AuthenticateUrl(apiUrl, apiKey)))))
  {
    match server.authenticate(AuthenticateUrl(apiUrl, apiKey))
    case TimedOut => Ok(None)
    case Unreachable => Err(Wrapped(RequestFailed(AuthenticateUrl(apiUrl, apiKey))))
    case Answered(code, token) =>
      if code == 200 then
        match token
        case Some(t) => Ok(Some(t))
        case None => Err(Wrapped(UnparseableBody))
      else if code == 401 then Err(Wrapped(Unauthorized))
      else if code == 500 then Err(Wrapped(TokenServerError))
      else Ok(None)
  }

  // ---------------------------------------------------------------------------
  // Track search and progress
  // ---------------------------------------------------------------------------

  /** `thumbnail_url.toString()`: a null thumbnail becomes the text "null". */
  function CoverUrl(thumbnail: Option<string>): string {
    match thumbnail
    case Some(u) => u
    case None => "null"
  }

  /** The series' own track with the fields `getTrackSearch` sets on it. */
  function SearchedTrack(server: KavitaServer, dto: SeriesDto, url: string, total: int, latest: real): (t: TrackRecord)
    ensures t.trackingUrl == url && t.title == dto.name
    ensures t.totalChapters == total && t.lastChapterRead == latest
    ensures t.status == SeriesStatus(dto.pagesRead, dto.pages)
    ensures t.coverUrl == CoverUrl(dto.thumbnailUrl)
    ensures dto.thumbnailUrl.None? ==> t.coverUrl == "null"
    ensures dto.thumbnailUrl.Some? ==> t.coverUrl == dto.thumbnailUrl.value
    ensures var base := server.toTrack(dto);
      && t.mangaId == base.mangaId && t.syncId == base.syncId && t.mediaId == base.mediaId
      && t.libraryId == base.libraryId && t.score == base.score
      && t.startedReadingDate == base.startedReadingDate && t.finishedReadingDate == base.finishedReadingDate
  {
    server.toTrack(dto).(coverUrl := CoverUrl(dto.thumbnailUrl), trackingUrl := url, totalChapters := total,
                         title := dto.name, status := SeriesStatus(dto.pagesRead, dto.pages),
                         lastChapterRead := latest)
  }

  /** What `getTrackSearch(url)` yields. */
  function TrackSearchResult(server: KavitaServer, url: string): (r: Result<TrackRecord, KavitaError>)
    ensures server.series(url).None? ==> r == Err(RequestFailed(url))
    ensures server.series(url).Some? ==>
      (r.Ok? <==> TotalChaptersResult(server, url).Ok? && LatestChapterRead(server, url).Ok?)
    ensures r.Ok? ==>
      r.value == SearchedTrack(server, server.series(url).value, url,
                               TotalChaptersResult(server, url).value, LatestChapterRead(server, url).value)
  {
    match server.series(url)
    case None => Err(RequestFailed(url))
    case Some(dto) =>
      match TotalChaptersResult(server, url)
      case Err(e) => Err(e)
      case Ok(total) =>
        match LatestChapterRead(server, url)
        case Err(e) => Err(e)
        case Ok(latest) => Ok(SearchedTrack(server, dto, url, total, latest))
  }

  /**
   * `getTrackSearch(url)`: the series' own track, then cover, tracking URL,
   * total chapters, title, status and latest chapter read are set on it, in
   * that order; any failure aborts with its error.
   */
  method GetTrackSearch(server: KavitaServer, url: string) returns (r: Result<TrackRecord, KavitaError>)
    ensures r == TrackSearchResult(server, url)
  {
    var dto := server.series(url);
    if dto.None? {
      return Err(RequestFailed(url));
    }
    var track := server.toTrack(dto.value);
    track := track.(coverUrl := CoverUrl(dto.value.thumbnailUrl), trackingUrl := url);
    var total := GetTotalChapters(server, url);
    if total.Err? {
      return Err(total.error);
    }
    track := track.(totalChapters := total.value, title := dto.value.name);
    track := track.(status := SeriesStatus(dto.value.pagesRead, dto.value.pages));
    var latest := LatestChapterRead(server, url);
    if latest.Err? {
      return Err(latest.error);
    }
    track := track.(lastChapterRead := latest.value);
    r := Ok(track);
  }

  /**
   * `updateProgress(track)`: marks the series read up to the track's last
   * chapter read, then fetches the series again from the same tracking URL.
   */
  method UpdateProgress(server: KavitaServer, track: Track) returns (r: Result<TrackRecord, KavitaError>)
    ensures IdFromUrl(track.trackingUrl).None? ==> r == Err(BadSeriesId(track.trackingUrl))
    ensures IdFromUrl(track.trackingUrl).Some? ==>
      var requestUrl := MarkReadUrl(server, track.trackingUrl, IdFromUrl(track.trackingUrl).value, track.lastChapterRead);
      && (server.markRead(requestUrl) ==> r == TrackSearchResult(server, track.trackingUrl))
      && (!server.markRead(requestUrl) ==> r == Err(RequestFailed(requestUrl)))
    ensures r.Ok? ==>
      && IdFromUrl(track.trackingUrl).Some?
      && server.markRead(MarkReadUrl(server, track.trackingUrl, IdFromUrl(track.trackingUrl).value,
                                     track.lastChapterRead))
      && r == TrackSearchResult(server, track.trackingUrl)
      && r.value.trackingUrl == track.trackingUrl
  {
    var url := track.trackingUrl;
    var id := IdFromUrl(url);
    if id.None? {
      return Err(BadSeriesId(url));
    }
    var requestUrl := MarkReadUrl(server, url, id.value, track.lastChapterRead);
    if !server.markRead(requestUrl) {
      return Err(RequestFailed(requestUrl));
    }
    r := GetTrackSearch(server, url);
  }
}

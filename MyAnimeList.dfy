/**
 * The MyAnimeList tracker: its status and score vocabulary, the search-query
 * prefixes, the defaults a newly added entry gets, the "remote entry found,
 * else add" fallback of bind and refresh, and the OAuth login and logout.
 *
 * The remote API is an oracle, `MalApi`: each call is a function from what is
 * sent to what comes back.
 */
module MyAnimeList {
  import opened Wrappers
  import opened Strings
  import opened Tracking

  const READING: int := 1
  const COMPLETED: int := 2
  const ON_HOLD: int := 3
  const DROPPED: int := 4
  const PLAN_TO_READ: int := 6
  const REREADING: int := 7

  const DEFAULT_STATUS: int := READING
  const DEFAULT_SCORE: int := 0

  const SEARCH_ID_PREFIX: string := "id:"
  const SEARCH_LIST_PREFIX: string := "my:"

  /** The shared-logic view of the service: planning, reading and completed codes, reading dates supported. */
  function Policy(id: int): (p: ServicePolicy)
    ensures DistinctStatuses(p) && p.supportsReadingDates && p.id == id
  {
    ServicePolicy(id, PLAN_TO_READ, READING, COMPLETED, true)
  }

  /** `getStatusList()`: the statuses offered to the user; rereading is not among them. */
  function StatusList(): (r: seq<int>)
    ensures |r| == 5 && REREADING !in r
    ensures forall i, j :: 0 <= i < j < |r| ==> r[i] != r[j]
    ensures forall s :: s in r <==> s == READING || s == COMPLETED || s == ON_HOLD || s == DROPPED || s == PLAN_TO_READ
    ensures r[1] == COMPLETED
  {
    [READING, COMPLETED, ON_HOLD, DROPPED, PLAN_TO_READ]
  }

  /** `isCompletedStatus(index)`: the entry at `index` of the status list is the completed one. */
  function IsCompletedStatus(index: int): (r: bool)
    requires 0 <= index < |StatusList()|
    ensures r <==> index == 1
  {
    StatusList()[index] == COMPLETED
  }

  /** `getScoreList()`: "0" to "10". */
  function ScoreList(): (r: seq<string>)
    ensures |r| == 11
    ensures forall i :: 0 <= i < |r| ==> r[i] == IntToString(i)
  {
    seq(11, i requires 0 <= i < 11 => IntToString(i))
  }

  /** `displayScore(track)`: the score truncated to an integer. */
  function DisplayScore(t: TrackRecord): string {
    IntToString(Truncate(t.score))
  }

  /** Every score the list offers is shown as the same entry of the list. */
  lemma DisplayScoreOfListedScore(t: TrackRecord, index: nat)
    requires index < 11 && t.score == index as real
    ensures DisplayScore(t) == ScoreList()[index]
  {
  }

  /** The shown score reads back as the truncated score. */
  lemma DisplayScoreParses(t: TrackRecord)
    requires IsInt32(Truncate(t.score))
    ensures ParseInt(DisplayScore(t)) == Some(Truncate(t.score))
  {
    ParseIntToString(Truncate(t.score));
  }

  // ---------------------------------------------------------------------------
  // The remote API (an oracle)
  // ---------------------------------------------------------------------------

  datatype OAuth = OAuth(accessToken: string, refreshToken: string, expiresIn: int)

  datatype MalApi = MalApi(
    getMangaDetails: int -> TrackRecord,
    findListItems: string -> seq<TrackRecord>,
    search: string -> seq<TrackRecord>,
    findListItem: TrackRecord -> Option<TrackRecord>,
    updateItem: TrackRecord -> TrackRecord,
    getAccessToken: string -> Option<OAuth>,
    getCurrentUser: OAuth -> Option<string>)

  // ---------------------------------------------------------------------------
  // Search
  // ---------------------------------------------------------------------------

  /** Which endpoint a search query goes to. */
  datatype SearchRequest = DetailsById(id: int) | FindListItems(title: string) | TextSearch(query: string)

  /**
   * `search(query)` dispatch: `id:<int>` looks up one manga, `my:<title>` searches
   * the user's list, anything else (an `id:` without an integer included) is a
   * text search of the whole query.
   */
  function SearchDispatch(query: string): (r: SearchRequest)
    ensures r.DetailsById? <==> StartsWith(query, SEARCH_ID_PREFIX) && ParseInt(query[3..]).Some?
    ensures r.DetailsById? ==> Some(r.id) == ParseInt(query[3..])
    ensures r.FindListItems? <==> !r.DetailsById? && StartsWith(query, SEARCH_LIST_PREFIX)
    ensures r.FindListItems? ==> r.title == query[3..]
    ensures r.TextSearch? ==> r.query == query
  {
    if StartsWith(query, SEARCH_ID_PREFIX)
       && (SubstringAfterPrefix(query, SEARCH_ID_PREFIX); ParseInt(SubstringAfter(query, SEARCH_ID_PREFIX)).Some?)
    then DetailsById(ParseInt(SubstringAfter(query, SEARCH_ID_PREFIX)).value)
    else if StartsWith(query, SEARCH_LIST_PREFIX)
    then SubstringAfterPrefix(query, SEARCH_LIST_PREFIX); FindListItems(SubstringAfter(query, SEARCH_LIST_PREFIX))
    else TextSearch(query)
  }

  /** `search(query)`: the results of the endpoint the query is dispatched to. */
  function Search(api: MalApi, query: string): (r: seq<TrackRecord>)
    ensures StartsWith(query, SEARCH_ID_PREFIX) && ParseInt(query[3..]).Some? ==>
      r == [api.getMangaDetails(ParseInt(query[3..]).value)]
    ensures !(StartsWith(query, SEARCH_ID_PREFIX) && ParseInt(query[3..]).Some?)
            && StartsWith(query, SEARCH_LIST_PREFIX) ==>
      r == api.findListItems(query[3..])
    ensures !(StartsWith(query, SEARCH_ID_PREFIX) && ParseInt(query[3..]).Some?)
            && !StartsWith(query, SEARCH_LIST_PREFIX) ==>
      r == api.search(query)
  {
    match SearchDispatch(query)
    case DetailsById(id) => [api.getMangaDetails(id)]
    case FindListItems(title) => api.findListItems(title)
    case TextSearch(q) => api.search(q)
  }

  /** `id:` followed by the decimal form of an `Int` yields exactly that manga's details. */
  lemma IdQuery(api: MalApi, n: int)
    requires IsInt32(n)
    ensures SearchDispatch(SEARCH_ID_PREFIX + IntToString(n)) == DetailsById(n)
    ensures Search(api, SEARCH_ID_PREFIX + IntToString(n)) == [api.getMangaDetails(n)]
  {
    var q := SEARCH_ID_PREFIX + IntToString(n);
    assert q[3..] == IntToString(n);
    ParseIntToString(n);
  }

  /** An `id:` query without an integer falls through to a text search of the whole query. */
  lemma IdQueryWithoutNumber()
    ensures SearchDispatch("id:one") == TextSearch("id:one")
  {
    assert "id:one"[3..] == "one";
  }

  /** Any numeral `toIntOrNull` accepts reaches the details lookup, not only the canonical form. */
  lemma IdQueryNonCanonical(api: MalApi)
    ensures Search(api, "id:007") == [api.getMangaDetails(7)]
    ensures Search(api, "id:+7") == [api.getMangaDetails(7)]
  {
    assert "id:007"[3..] == "007";
    assert "id:+7"[3..] == "+7";
    ParseLeadingZeros();
    ParsePlusSign();
  }

  lemma ParseLeadingZeros()
    ensures ParseInt("007") == Some(7)
  {
    assert Unsigned("007") == "007" && AllDigits("007");
    assert "007"[..2] == "00" && "00"[..1] == "0" && "0"[..0] == "";
    assert NumeralValue("007") == DigitsValue("007") == 7;
  }

  lemma ParsePlusSign()
    ensures ParseInt("+7") == Some(7)
  {
    assert Unsigned("+7") == "7" && AllDigits("7");
    assert "7"[..0] == "";
    assert NumeralValue("+7") == DigitsValue("7") == 7;
  }

  /** `my:` followed by a title searches the user's list for that title. */
  lemma ListQuery(api: MalApi, title: string)
    ensures SearchDispatch(SEARCH_LIST_PREFIX + title) == FindListItems(title)
    ensures Search(api, SEARCH_LIST_PREFIX + title) == api.findListItems(title)
  {
    var q := SEARCH_LIST_PREFIX + title;
    assert q[..3] == SEARCH_LIST_PREFIX;
    assert q[3..] == title;
  }

  // ---------------------------------------------------------------------------
  // add, update, bind, refresh
  // ---------------------------------------------------------------------------

  /** What `add` leaves on the track: default status and score, then reconciliation. */
  function AddedTrack(id: int, t: TrackRecord, lib: LibrarySnapshot): (r: TrackRecord)
    ensures r.score == DEFAULT_SCORE as real
    ensures r.status == READING <==> !AllRead(lib) && r.lastChapterRead != 0.0
    ensures r.status == PLAN_TO_READ <==> !AllRead(lib) && r.lastChapterRead == 0.0
    ensures r.status == COMPLETED <==> AllRead(lib)
  {
    Reconcile(Policy(id), t.(status := DEFAULT_STATUS, score := DEFAULT_SCORE as real), lib)
  }

  /** `add(track)`: defaults, reconciliation, then the entry is pushed. */
  method Add(api: MalApi, id: int, track: Track, lib: LibrarySnapshot) returns (remote: TrackRecord)
    modifies track
    ensures track.Record() == AddedTrack(id, old(track.Record()), lib)
    ensures remote == api.updateItem(track.Record())
  {
    track.status := READING;
    track.score := 0.0;
    UpdateNewTrackInfo(Policy(id), track, lib);
    remote := api.updateItem(track.Record());
  }

  /** `update(track, setToRead)`: the status rule without completion, then the entry is pushed. */
  method Update(api: MalApi, id: int, track: Track, setToRead: bool := false) returns (remote: TrackRecord)
    modifies track`status
    ensures track.status == NextStatus(Policy(id), old(track.status), track.lastChapterRead,
                                       track.totalChapters, setToRead, false, false)
    ensures remote == api.updateItem(track.Record())
  {
    UpdateTrackStatus(Policy(id), track, setToRead);
    remote := api.updateItem(track.Record());
  }

  /** `update` never completes a track: it does not ask for completion. */
  lemma UpdateNeverCompletes(id: int, status: int, lastChapterRead: real, totalChapters: int, setToRead: bool)
    ensures var r := NextStatus(Policy(id), status, lastChapterRead, totalChapters, setToRead, false, false);
      r == COMPLETED ==> status == COMPLETED
  {
  }

  /**
   * `bind(track)`: when the user's list has the entry, its personal fields are
   * taken and the track is pushed unchanged in status; otherwise it is added.
   */
  method Bind(api: MalApi, id: int, track: Track, lib: LibrarySnapshot) returns (remote: TrackRecord)
    modifies track
    ensures api.findListItem(old(track.Record())).Some? ==>
      track.Record() == PersonalFrom(old(track.Record()), api.findListItem(old(track.Record())).value)
    ensures api.findListItem(old(track.Record())).None? ==>
      track.Record() == AddedTrack(id, old(track.Record()), lib)
    ensures remote == api.updateItem(track.Record())
  {
    var remoteTrack := api.findListItem(track.Record());
    if remoteTrack.Some? {
      track.CopyPersonalFrom(remoteTrack.value);
      remote := Update(api, id, track);
    } else {
      remote := Add(api, id, track, lib);
    }
  }

  /** `refresh(track)`: the list entry when there is one, else the track is added. */
  method Refresh(api: MalApi, id: int, track: Track, lib: LibrarySnapshot) returns (remote: TrackRecord)
    modifies track
    ensures api.findListItem(old(track.Record())).Some? ==>
      remote == api.findListItem(old(track.Record())).value && track.Record() == old(track.Record())
    ensures api.findListItem(old(track.Record())).None? ==>
      track.Record() == AddedTrack(id, old(track.Record()), lib) && remote == api.updateItem(track.Record())
  {
    var found := api.findListItem(track.Record());
    if found.Some? {
      remote := found.value;
    } else {
      remote := Add(api, id, track, lib);
    }
  }

  // ---------------------------------------------------------------------------
  // login, logout
  // ---------------------------------------------------------------------------

  /**
   * `saveOAuth(oAuth)`: the authorization, serialized by `encode` (the JSON
   * encoder), becomes the service's stored token.
   */
  method SaveOAuth(id: int, prefs: TrackPreferences, encode: Option<OAuth> -> string, oauth: Option<OAuth>)
    modifies prefs`tokens
    ensures prefs.tokens == old(prefs.tokens)[id := encode(oauth)]
  {
    prefs.SetToken(id, encode(oauth));
  }

  /**
   * The request interceptor: the access token it sends and the authorization it
   * holds. It is built with the stored password as its token and no
   * authorization; `setAuth` replaces both and saves the authorization.
   */
  class Interceptor {
    var token: Option<string>
    var auth: Option<OAuth>

    constructor (token: string)
      ensures this.token == Some(token) && auth == None
    {
      this.token := Some(token);
      auth := None;
    }

    method SetAuth(id: int, prefs: TrackPreferences, encode: Option<OAuth> -> string, oauth: Option<OAuth>)
      modifies this, prefs`tokens
      ensures auth == oauth
      ensures token == (if oauth.Some? then Some(oauth.value.accessToken) else None)
      ensures prefs.tokens == old(prefs.tokens)[id := encode(oauth)]
    {
      token := if oauth.Some? then Some(oauth.value.accessToken) else None;
      auth := oauth;
      SaveOAuth(id, prefs, encode, oauth);
    }
  }

  /** The interceptor the service builds on first use, seeded with the stored password. */
  method CreateInterceptor(id: int, prefs: TrackPreferences) returns (interceptor: Interceptor)
    ensures fresh(interceptor)
    ensures interceptor.token == Some(prefs.Password(id)) && interceptor.auth == None
  {
    interceptor := new Interceptor(prefs.Password(id));
  }

  /**
   * `logout()`: credentials cleared, token deleted, authorization dropped. Dropping
   * the authorization saves it, so the token store ends up holding the
   * serialized absent authorization.
   */
  method Logout(id: int, prefs: TrackPreferences, interceptor: Interceptor, encode: Option<OAuth> -> string)
    modifies prefs, interceptor
    ensures prefs.usernames == old(prefs.usernames)[id := ""]
    ensures prefs.passwords == old(prefs.passwords)[id := ""]
    ensures prefs.tokens == old(prefs.tokens)[id := encode(None)]
    ensures interceptor.auth == None && interceptor.token == None
    ensures !IsLogged(prefs, id)
  {
    Tracking.Logout(Policy(id), prefs);
    prefs.DeleteToken(id);
    interceptor.SetAuth(id, prefs, encode, None);
  }

  /**
   * `login(authCode)`: exchanges the code for a token, authorizes with it, asks
   * for the user name and stores name and token as the credentials. When either
   * call fails, the service is logged out and the result is false.
   */
  method Login(api: MalApi, id: int, prefs: TrackPreferences, interceptor: Interceptor,
               encode: Option<OAuth> -> string, authCode: string)
    returns (ok: bool)
    modifies prefs, interceptor
    ensures ok <==> api.getAccessToken(authCode).Some?
                    && api.getCurrentUser(api.getAccessToken(authCode).value).Some?
    ensures ok ==>
      var oauth := api.getAccessToken(authCode).value;
      && interceptor.auth == Some(oauth)
      && interceptor.token == Some(oauth.accessToken)
      && prefs.usernames == old(prefs.usernames)[id := api.getCurrentUser(oauth).value]
      && prefs.passwords == old(prefs.passwords)[id := oauth.accessToken]
      && prefs.tokens == old(prefs.tokens)[id := encode(Some(oauth))]
      && IsLogged(prefs, id) == (api.getCurrentUser(oauth).value != "" && oauth.accessToken != "")
    ensures !ok ==>
      && interceptor.auth == None
      && interceptor.token == None
      && prefs.usernames == old(prefs.usernames)[id := ""]
      && prefs.passwords == old(prefs.passwords)[id := ""]
      && prefs.tokens == old(prefs.tokens)[id := encode(None)]
      && !IsLogged(prefs, id)
  {
    var oauth := api.getAccessToken(authCode);
    if oauth.None? {
      Logout(id, prefs, interceptor, encode);
      return false;
    }
    interceptor.SetAuth(id, prefs, encode, oauth);
    var username := api.getCurrentUser(oauth.value);
    if username.None? {
      Logout(id, prefs, interceptor, encode);
      assert prefs.tokens == old(prefs.tokens)[id := encode(None)];
      return false;
    }
    SaveCredentials(Policy(id), prefs, username.value, oauth.value.accessToken);
    ok := true;
  }
}

/**
 * The tracker registry: the nine tracking services, each built with its own
 * numeric id, the lookup of a service by id and the "is any service logged in" query.
 */
module TrackManagers {
  import opened Wrappers
  import opened Tracking

  const MYANIMELIST := 1
  const ANILIST := 2
  const KITSU := 3
  const SHIKIMORI := 4
  const BANGUMI := 5
  const KOMGA := 6
  const MANGA_UPDATES := 7
  const KAVITA := 8
  const SUWAYOMI := 9

  /** Which tracker implementation a service is. */
  datatype Tracker =
    | MyAnimeListTracker
    | AniListTracker
    | KitsuTracker
    | ShikimoriTracker
    | BangumiTracker
    | KomgaTracker
    | MangaUpdatesTracker
    | KavitaTracker
    | SuwayomiTracker

  /** A constructed service: its implementation and the id it was given. */
  datatype Service = Service(kind: Tracker, id: int)

  /** The id constant each implementation is constructed with. */
  function IdConstant(t: Tracker): (r: int)
    ensures 1 <= r <= 9
  {
    match t
    case MyAnimeListTracker => MYANIMELIST
    case AniListTracker => ANILIST
    case KitsuTracker => KITSU
    case ShikimoriTracker => SHIKIMORI
    case BangumiTracker => BANGUMI
    case KomgaTracker => KOMGA
    case MangaUpdatesTracker => MANGA_UPDATES
    case KavitaTracker => KAVITA
    case SuwayomiTracker => SUWAYOMI
  }

  /** The `services` list, in declaration order. */
  function Services(): seq<Service> {
    [ Service(MyAnimeListTracker, MYANIMELIST),
      Service(AniListTracker, ANILIST),
      Service(KitsuTracker, KITSU),
      Service(ShikimoriTracker, SHIKIMORI),
      Service(BangumiTracker, BANGUMI),
      Service(KomgaTracker, KOMGA),
      Service(MangaUpdatesTracker, MANGA_UPDATES),
      Service(KavitaTracker, KAVITA),
      Service(SuwayomiTracker, SUWAYOMI) ]
  }

  /**
   * Every implementation is registered exactly once, with its own constant, and the
   * ids run 1..9 in list order, so no two services share an id.
   */
  lemma ServicesWellFormed()
    ensures |Services()| == 9
    ensures forall i :: 0 <= i < |Services()| ==> Services()[i].id == i + 1
    ensures forall i :: 0 <= i < |Services()| ==> Services()[i].id == IdConstant(Services()[i].kind)
    ensures forall t: Tracker :: Services()[IdConstant(t) - 1] == Service(t, IdConstant(t))
    ensures forall i, j :: 0 <= i < j < |Services()| ==> Services()[i].id != Services()[j].id
  {
  }

  /** `find { it.id == id }`: the first service with the id, if any. */
  function FindById(services: seq<Service>, id: int): (r: Option<Service>)
    ensures r.Some? ==> r.value in services && r.value.id == id
    ensures r.None? <==> forall s :: s in services ==> s.id != id
    ensures r.Some? ==> exists i :: 0 <= i < |services| && services[i] == r.value
                                    && forall k :: 0 <= k < i ==> services[k].id != id
  {
    if |services| == 0 then None
    else if services[0].id == id then Some(services[0])
    else
      var rest := FindById(services[1..], id);
      assert forall s :: s in services ==> s == services[0] || s in services[1..];
      if rest.Some? then
        ghost var j :| 0 <= j < |services[1..]| && services[1..][j] == rest.value
                       && forall k :: 0 <= k < j ==> services[1..][k].id != id;
        assert services[j + 1] == rest.value;
        assert forall k :: 0 <= k < j + 1 ==> services[k].id != id by {
          forall k | 0 <= k < j + 1 ensures services[k].id != id {
            if k > 0 { assert services[k] == services[1..][k - 1]; }
          }
        }
        rest
      else rest
  }

  /** `getService(id)`. */
  function GetService(id: int): Option<Service> {
    FindById(Services(), id)
  }

  /** A service is found exactly for the ids 1..9, and it is the one built with that id. */
  lemma GetServiceSpec(id: int)
    ensures GetService(id).Some? <==> 1 <= id <= 9
    ensures GetService(id).Some? ==> GetService(id).value.id == id
    ensures GetService(id).Some? ==> IdConstant(GetService(id).value.kind) == id
  {
    ServicesWellFormed();
    if 1 <= id <= 9 {
      assert Services()[id - 1] in Services();
    }
  }

  /** `getService(KAVITA)` is the Kavita tracker, and likewise for MyAnimeList. */
  lemma GetServiceByConstant(t: Tracker)
    ensures GetService(IdConstant(t)) == Some(Service(t, IdConstant(t)))
  {
    ServicesWellFormed();
    GetServiceSpec(IdConstant(t));
    var s := GetService(IdConstant(t)).value;
    assert IdConstant(s.kind) == IdConstant(t);
    IdConstantInjective(s.kind, t);
  }

  lemma IdConstantInjective(a: Tracker, b: Tracker)
    requires IdConstant(a) == IdConstant(b)
    ensures a == b
  {
  }

  /** `services.any { it.isLogged }`, over a prefix of the list. */
  predicate AnyLogged(prefs: TrackPreferences, services: seq<Service>)
    reads prefs
  {
    |services| > 0 && (IsLogged(prefs, services[0].id) || AnyLogged(prefs, services[1..]))
  }

  lemma {:induction false} AnyLoggedSpec(prefs: TrackPreferences, services: seq<Service>)
    ensures AnyLogged(prefs, services) <==> exists i :: 0 <= i < |services| && IsLogged(prefs, services[i].id)
  {
    if |services| > 0 {
      AnyLoggedSpec(prefs, services[1..]);
      if exists i :: 0 <= i < |services| && IsLogged(prefs, services[i].id) {
        var i :| 0 <= i < |services| && IsLogged(prefs, services[i].id);
        if i > 0 { assert services[1..][i - 1] == services[i]; }
      }
      if AnyLogged(prefs, services[1..]) {
        var j :| 0 <= j < |services[1..]| && IsLogged(prefs, services[1..][j].id);
        assert services[j + 1] == services[1..][j];
      }
    }
  }

  /** `hasLoggedServices()`. */
  predicate HasLoggedServices(prefs: TrackPreferences)
    reads prefs
  {
    AnyLogged(prefs, Services())
  }

  /** Some service is logged in exactly when credentials are stored for some id in 1..9. */
  lemma HasLoggedServicesSpec(prefs: TrackPreferences)
    ensures HasLoggedServices(prefs) <==> exists id :: 1 <= id <= 9 && IsLogged(prefs, id)
  {
    ServicesWellFormed();
    AnyLoggedSpec(prefs, Services());
    if exists id :: 1 <= id <= 9 && IsLogged(prefs, id) {
      var id :| 1 <= id <= 9 && IsLogged(prefs, id);
      assert Services()[id - 1].id == id;
    }
  }
}

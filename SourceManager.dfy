/**
 * The source registry: the id → source map rebuilt from the installed extensions,
 * lookups in it, the cache of stand-in ("stub") sources for ids no installed
 * extension provides, and the table of the four built-in delegated sources.
 */
module Sources {
  import opened Wrappers

  /** A JVM `Long`. */
  newtype Long = x: int | -0x8000_0000_0000_0000 <= x < 0x8000_0000_0000_0000

  /** The id of the on-device source, which every rebuilt map starts with. */
  const LOCAL_SOURCE_ID: Long := 0

  /** A source an extension provides (whether it is an HTTP source), or the on-device source. */
  datatype Source =
    | LocalSource
    | ExtensionSource(extId: Long, name: string, isHttp: bool)
  {
    function Id(): Long {
      if LocalSource? then LOCAL_SOURCE_ID else extId
    }

    /** `it as? HttpSource` succeeds. */
    predicate IsHttp() {
      ExtensionSource? && isHttp
    }
  }

  /** `StubSource`: stands in for a source that is not installed; only its id is known. */
  class StubSource {
    const id: Long

    constructor (id: Long)
      ensures this.id == id
    {
      this.id := id;
    }
  }

  /** What `getOrStub` returns: a registered source or a stub. */
  datatype SourceRef = Registered(source: Source) | Stubbed(stub: StubSource)

  // ---------------------------------------------------------------------------
  // StubSource equality and hashing
  // ---------------------------------------------------------------------------

  /** Two's-complement bits of a `Long`. */
  function LongBits(x: Long): bv64 {
    if x < 0 then (x as int + 0x1_0000_0000_0000_0000) as bv64 else x as int as bv64
  }

  /** `Long.hashCode()`: `(int)(x ^ (x >>> 32))`, as a signed 32-bit value. */
  function LongHashCode(x: Long): (h: int)
    ensures -0x8000_0000 <= h < 0x8000_0000
  {
    var u := LongBits(x);
    var low := ((u ^ (u >> 32)) & 0xFFFF_FFFF) as int;
    if low >= 0x8000_0000 then low - 0x1_0000_0000 else low
  }

  /** `StubSource.hashCode()`. */
  function StubHashCode(s: StubSource): int {
    LongHashCode(s.id)
  }

  /**
   * `StubSource.equals(other)`: the same object, or another stub (the class check)
   * with the same id. A registered source is never equal to a stub.
   */
  predicate StubEquals(a: StubSource, other: Option<SourceRef>) {
    other.Some? && other.value.Stubbed? && (other.value.stub == a || other.value.stub.id == a.id)
  }

  /** Equality is decided by the id alone, and equal stubs hash equally. */
  lemma StubEqualsById(a: StubSource, b: StubSource)
    ensures StubEquals(a, Some(Stubbed(b))) <==> a.id == b.id
    ensures StubEquals(a, Some(Stubbed(b))) ==> StubHashCode(a) == StubHashCode(b)
    ensures StubEquals(a, Some(Stubbed(b))) <==> StubEquals(b, Some(Stubbed(a)))
  {
  }

  /** Nothing but a stub is equal to a stub. */
  lemma StubNeverEqualsRegistered(a: StubSource, s: Source)
    ensures !StubEquals(a, Some(Registered(s))) && !StubEquals(a, None)
  {
  }

  /** The hash does not decide equality: ids 0 and 2^32 + 1 hash alike. */
  lemma StubHashCollides()
    ensures LongHashCode(0) == LongHashCode(0x1_0000_0001)
  {
    assert LongBits(0x1_0000_0001) == 0x1_0000_0001;
    assert (0x1_0000_0001 as bv64) >> 32 == 1;
  }

  // ---------------------------------------------------------------------------
  // Delegated sources
  // ---------------------------------------------------------------------------

  /** The built-in implementations a delegated source hands its requests to. */
  datatype DelegateKind = KireiCake | MangaDex | MangaPlus | Cubari

  datatype DelegatedSource = DelegatedSource(urlName: string, sourceId: Long, delegate: DelegateKind)

  /** The `delegatedSources` list, before `associateBy`. */
  function DelegatedList(): seq<DelegatedSource> {
    [ DelegatedSource("reader.kireicake.com", 5509224355268673176, KireiCake),
      DelegatedSource("mangadex.org", 2499283573021220255, MangaDex),
      DelegatedSource("mangaplus.shueisha.co.jp", 1998944621602463790, MangaPlus),
      DelegatedSource("cubari.moe", 6338219619148105941, Cubari) ]
  }

  /** `associateBy { it.sourceId }`: later entries overwrite earlier ones with the same id. */
  function AssociateBy(list: seq<DelegatedSource>): map<Long, DelegatedSource>
    decreases |list|
  {
    if |list| == 0 then map[]
    else AssociateBy(list[..|list| - 1])[list[|list| - 1].sourceId := list[|list| - 1]]
  }

  /** The ids of the list are distinct, so the table keeps every entry under its own id. */
  lemma AssociateByKeepsAll()
    ensures AssociateBy(DelegatedList()).Keys == set d | d in DelegatedList() :: d.sourceId
    ensures forall d :: d in DelegatedList() ==> AssociateBy(DelegatedList())[d.sourceId] == d
  {
    var l := DelegatedList();
    AssociateByDistinct(l);
    forall d | d in l
      ensures d.sourceId in AssociateBy(l) && AssociateBy(l)[d.sourceId] == d
    {
      var i :| 0 <= i < |l| && l[i] == d;
    }
  }

  /** `associateBy` over entries with pairwise distinct ids loses none of them and adds no key. */
  lemma {:induction false} AssociateByDistinct(l: seq<DelegatedSource>)
    requires forall i, j :: 0 <= i < j < |l| ==> l[i].sourceId != l[j].sourceId
    ensures forall k :: k in AssociateBy(l) ==> exists i :: 0 <= i < |l| && l[i].sourceId == k
    ensures forall i :: 0 <= i < |l| ==> l[i].sourceId in AssociateBy(l) && AssociateBy(l)[l[i].sourceId] == l[i]
    decreases |l|
  {
    if |l| > 0 {
      var n := |l| - 1;
      var init := l[..n];
      AssociateByDistinct(init);
      var m := AssociateBy(init);
      assert AssociateBy(l) == m[l[n].sourceId := l[n]];
      forall k | k in AssociateBy(l)
        ensures exists i :: 0 <= i < |l| && l[i].sourceId == k
      {
        if k != l[n].sourceId {
          var i :| 0 <= i < |init| && init[i].sourceId == k;
          assert l[i] == init[i];
        }
      }
      forall i | 0 <= i < |l|
        ensures l[i].sourceId in AssociateBy(l) && AssociateBy(l)[l[i].sourceId] == l[i]
      {
        if i < n {
          assert init[i] == l[i];
          assert l[i].sourceId != l[n].sourceId;
        }
      }
    }
  }

  /** How many table entries carry the id. */
  function CountWithId(list: seq<DelegatedSource>, id: Long): (n: nat)
    ensures n <= |list|
    ensures n > 0 <==> exists i :: 0 <= i < |list| && list[i].sourceId == id
  {
    if |list| == 0 then 0
    else
      var rest := CountWithId(list[1..], id);
      assert forall i :: 1 <= i < |list| ==> list[i] == list[1..][i - 1];
      (if list[0].sourceId == id then 1 else 0) + rest
  }

  /** The id every source reference answers with. */
  function SourceId(s: SourceRef): Long
    reads if s.Stubbed? then {s.stub} else {}
  {
    match s
    case Registered(src) => src.Id()
    case Stubbed(stub) => stub.id
  }

  /** `isDelegatedSource(source)`: some table entry has the source's id. */
  predicate IsDelegatedSource(s: SourceRef)
    reads if s.Stubbed? then {s.stub} else {}
  {
    CountWithId(DelegatedList(), SourceId(s)) > 0
  }

  /** Exactly the four delegated ids are delegated. */
  lemma IsDelegatedSourceSpec(s: SourceRef)
    ensures IsDelegatedSource(s) <==>
      SourceId(s) in {5509224355268673176, 2499283573021220255, 1998944621602463790, 6338219619148105941}
  {
    var l := DelegatedList();
    if SourceId(s) in {5509224355268673176, 2499283573021220255, 1998944621602463790, 6338219619148105941} {
      if SourceId(s) == 5509224355268673176 { assert l[0].sourceId == SourceId(s); }
      else if SourceId(s) == 2499283573021220255 { assert l[1].sourceId == SourceId(s); }
      else if SourceId(s) == 1998944621602463790 { assert l[2].sourceId == SourceId(s); }
      else { assert l[3].sourceId == SourceId(s); }
    }
  }

  /** `find { it.urlName == urlName }` over the table's values. */
  function FindByUrlName(list: seq<DelegatedSource>, urlName: string): (r: Option<DelegatedSource>)
    ensures r.Some? ==> r.value in list && r.value.urlName == urlName
    ensures r.None? <==> forall d :: d in list ==> d.urlName != urlName
  {
    if |list| == 0 then None
    else if list[0].urlName == urlName then Some(list[0])
    else
      assert forall d :: d in list ==> d == list[0] || d in list[1..];
      FindByUrlName(list[1..], urlName)
  }

  /** `getDelegatedSource(urlName)`: the delegate registered for the site, or none. */
  function GetDelegatedSource(urlName: string): Option<DelegateKind> {
    match FindByUrlName(DelegatedList(), urlName)
    case None => None
    case Some(d) => Some(d.delegate)
  }

  /** Each of the four sites finds its own delegate, and no other site finds one. */
  lemma GetDelegatedSourceSpec(urlName: string)
    ensures GetDelegatedSource(urlName).Some? <==>
      urlName in {"reader.kireicake.com", "mangadex.org", "mangaplus.shueisha.co.jp", "cubari.moe"}
    ensures urlName == "reader.kireicake.com" ==> GetDelegatedSource(urlName) == Some(KireiCake)
    ensures urlName == "mangadex.org" ==> GetDelegatedSource(urlName) == Some(MangaDex)
    ensures urlName == "mangaplus.shueisha.co.jp" ==> GetDelegatedSource(urlName) == Some(MangaPlus)
    ensures urlName == "cubari.moe" ==> GetDelegatedSource(urlName) == Some(Cubari)
  {
    var l := DelegatedList();
    assert forall d :: d in l ==> d == l[0] || d == l[1] || d == l[2] || d == l[3];
    if urlName in {"reader.kireicake.com", "mangadex.org", "mangaplus.shueisha.co.jp", "cubari.moe"} {
      if urlName == "reader.kireicake.com" { assert l[0].urlName == urlName; }
      else if urlName == "mangadex.org" { assert l[1].urlName == urlName; }
      else if urlName == "mangaplus.shueisha.co.jp" { assert l[2].urlName == urlName; }
      else { assert l[3].urlName == urlName; }
    }
  }

  /** The delegate of the table entry with this id, if there is one. */
  function DelegateWithId(id: Long): Option<DelegateKind> {
    var table := AssociateBy(DelegatedList());
    if id in table then Some(table[id].delegate) else None
  }

  // ---------------------------------------------------------------------------
  // Map rebuild
  // ---------------------------------------------------------------------------

  /** The map a rebuild starts from: the on-device source alone. */
  function InitialMap(): map<Long, Source> {
    map[LOCAL_SOURCE_ID := LocalSource]
  }

  /** The sources of all extensions, in order. */
  function Flatten(extensions: seq<seq<Source>>): seq<Source>
    decreases |extensions|
  {
    if |extensions| == 0 then []
    else Flatten(extensions[..|extensions| - 1]) + extensions[|extensions| - 1]
  }

  /** `mutableMap[it.id] = it` for each source in turn. */
  function RegisterAll(m: map<Long, Source>, sources: seq<Source>): map<Long, Source>
    decreases |sources|
  {
    if |sources| == 0 then m
    else
      var last := sources[|sources| - 1];
      RegisterAll(m, sources[..|sources| - 1])[last.Id() := last]
  }

  /** `delegatedSources[it.id]?.delegatedHttpSource?.delegate = it as? HttpSource` for each source. */
  function Delegated(d: map<DelegateKind, Option<Source>>, sources: seq<Source>): map<DelegateKind, Option<Source>>
    decreases |sources|
  {
    if |sources| == 0 then d
    else
      var last := sources[|sources| - 1];
      var before := Delegated(d, sources[..|sources| - 1]);
      match DelegateWithId(last.Id())
      case None => before
      case Some(kind) => before[kind := if last.IsHttp() then Some(last) else None]
  }

  lemma SnocPrefix<T>(s: seq<T>, x: T)
    ensures (s + [x])[..|s|] == s && (s + [x])[|s|] == x
  {
  }

  /**
   * After registering `sources`, an id is mapped exactly when the start map or some
   * source has it; the source mapped is the last one with that id, and an id no source
   * has keeps its starting entry.
   */
  lemma RegisterAllLookup(m: map<Long, Source>, sources: seq<Source>, k: Long)
    ensures k in RegisterAll(m, sources) <==> k in m || exists i :: 0 <= i < |sources| && sources[i].Id() == k
    ensures forall i :: 0 <= i < |sources| && sources[i].Id() == k
                        && (forall j :: i < j < |sources| ==> sources[j].Id() != k) ==>
              RegisterAll(m, sources)[k] == sources[i]
    ensures k in m && (forall i :: 0 <= i < |sources| ==> sources[i].Id() != k) ==> RegisterAll(m, sources)[k] == m[k]
  {
    RegisterAllKeys(m, sources, k);
    forall i | 0 <= i < |sources| && sources[i].Id() == k
               && (forall j :: i < j < |sources| ==> sources[j].Id() != k)
      ensures RegisterAll(m, sources)[k] == sources[i]
    {
      RegisterAllLast(m, sources, k, i);
    }
    if k in m && (forall i :: 0 <= i < |sources| ==> sources[i].Id() != k) {
      RegisterAllUntouched(m, sources, k);
    }
  }

  /** An id is mapped after registering exactly when the start map or some source has it. */
  lemma {:induction false} RegisterAllKeys(m: map<Long, Source>, sources: seq<Source>, k: Long)
    ensures k in RegisterAll(m, sources) <==> k in m || exists i :: 0 <= i < |sources| && sources[i].Id() == k
    decreases |sources|
  {
    if |sources| > 0 {
      var n := |sources| - 1;
      var init := sources[..n];
      RegisterAllKeys(m, init, k);
      assert forall i :: 0 <= i < n ==> init[i] == sources[i];
      if exists i :: 0 <= i < |sources| && sources[i].Id() == k {
        var i :| 0 <= i < |sources| && sources[i].Id() == k;
        if i < n { assert init[i].Id() == k; }
      }
    }
  }

  /** The source with id `k` that no later source overrides is the one mapped. */
  lemma {:induction false} RegisterAllLast(m: map<Long, Source>, sources: seq<Source>, k: Long, i: nat)
    requires i < |sources| && sources[i].Id() == k
    requires forall j :: i < j < |sources| ==> sources[j].Id() != k
    ensures k in RegisterAll(m, sources) && RegisterAll(m, sources)[k] == sources[i]
    decreases |sources|
  {
    var n := |sources| - 1;
    if i < n {
      var init := sources[..n];
      assert sources[n].Id() != k;
      assert init[i] == sources[i];
      assert forall j :: i < j < n ==> init[j] == sources[j];
      RegisterAllLast(m, init, k, i);
    }
  }

  /** An id no source has keeps its starting entry. */
  lemma {:induction false} RegisterAllUntouched(m: map<Long, Source>, sources: seq<Source>, k: Long)
    requires k in m && forall i :: 0 <= i < |sources| ==> sources[i].Id() != k
    ensures k in RegisterAll(m, sources) && RegisterAll(m, sources)[k] == m[k]
    decreases |sources|
  {
    if |sources| > 0 {
      var n := |sources| - 1;
      var init := sources[..n];
      assert sources[n].Id() != k;
      assert forall i :: 0 <= i < n ==> init[i] == sources[i];
      RegisterAllUntouched(m, init, k);
    }
  }

  /** A rebuild keeps the on-device source unless an extension source claims its id. */
  lemma LocalSourceSurvives(extensions: seq<seq<Source>>)
    requires forall i :: 0 <= i < |Flatten(extensions)| ==> Flatten(extensions)[i].Id() != LOCAL_SOURCE_ID
    ensures LOCAL_SOURCE_ID in RegisterAll(InitialMap(), Flatten(extensions))
    ensures RegisterAll(InitialMap(), Flatten(extensions))[LOCAL_SOURCE_ID] == LocalSource
  {
    RegisterAllLookup(InitialMap(), Flatten(extensions), LOCAL_SOURCE_ID);
  }

  /** Of two extension sources with one id, the later one is the one kept. */
  lemma LaterSourceWins(a: Source, b: Source)
    requires a.Id() == b.Id()
    ensures RegisterAll(InitialMap(), Flatten([[a], [b]]))[a.Id()] == b
  {
    var s := Flatten([[a], [b]]);
    assert Flatten([[a]]) == [a] by {
      assert [[a]][..0] == [];
    }
    assert [[a], [b]][..1] == [[a]];
    assert s == [a, b];
    RegisterAllLookup(InitialMap(), s, a.Id());
  }

  lemma RegisterAllSnoc(m: map<Long, Source>, s: seq<Source>, x: Source)
    ensures RegisterAll(m, s + [x]) == RegisterAll(m, s)[x.Id() := x]
  {
    SnocPrefix(s, x);
  }

  lemma DelegatedSnoc(d: map<DelegateKind, Option<Source>>, s: seq<Source>, x: Source)
    ensures Delegated(d, s + [x]) ==
      match DelegateWithId(x.Id())
      case None => Delegated(d, s)
      case Some(kind) => Delegated(d, s)[kind := if x.IsHttp() then Some(x) else None]
  {
    SnocPrefix(s, x);
  }

  lemma FlattenSnoc(extensions: seq<seq<Source>>, i: nat)
    requires i < |extensions|
    ensures Flatten(extensions[..i + 1]) == Flatten(extensions[..i]) + extensions[i]
  {
    assert extensions[..i + 1][..i] == extensions[..i];
  }

  // ---------------------------------------------------------------------------
  // The manager
  // ---------------------------------------------------------------------------

  class SourceManager {
    /** `sourcesMapFlow.value`. */
    var sourcesMap: map<Long, Source>
    /** `stubSourcesMap`: stubs already handed out, by id. */
    var stubSourcesMap: map<Long, StubSource>
    /** The `delegate` currently set on each delegated source. */
    var delegateOf: map<DelegateKind, Option<Source>>

    /** Every cached stub is stored under its own id. */
    predicate Valid()
      reads this
    {
      forall k :: k in stubSourcesMap ==> stubSourcesMap[k].id == k
    }

    constructor ()
      ensures Valid()
      ensures sourcesMap == map[] && stubSourcesMap == map[] && delegateOf == map[]
    {
      sourcesMap, stubSourcesMap, delegateOf := map[], map[], map[];
    }

    /** `get(sourceKey)`. */
    function Get(key: Long): (r: Option<Source>)
      reads this
      ensures r.Some? <==> key in sourcesMap
      ensures r.Some? ==> r.value == sourcesMap[key]
    {
      if key in sourcesMap then Some(sourcesMap[key]) else None
    }

    /**
     * `getOrStub(sourceKey)`: the registered source when there is one; otherwise the
     * cached stub for the id, created and cached on the first miss. Nothing else in
     * the cache changes.
     */
    method GetOrStub(key: Long) returns (r: SourceRef)
      requires Valid()
      modifies this`stubSourcesMap
      ensures Valid()
      ensures key in sourcesMap ==> r == Registered(sourcesMap[key]) && stubSourcesMap == old(stubSourcesMap)
      ensures key !in sourcesMap && key in old(stubSourcesMap) ==>
                r == Stubbed(old(stubSourcesMap)[key]) && stubSourcesMap == old(stubSourcesMap)
      ensures key !in sourcesMap && key !in old(stubSourcesMap) ==>
                r.Stubbed? && fresh(r.stub) && stubSourcesMap == old(stubSourcesMap)[key := r.stub]
      ensures r.Stubbed? ==> r.stub.id == key && key in stubSourcesMap && stubSourcesMap[key] == r.stub
    {
      if key in sourcesMap {
        return Registered(sourcesMap[key]);
      }
      if key !in stubSourcesMap {
        var stub := new StubSource(key);
        stubSourcesMap := stubSourcesMap[key := stub];
      }
      r := Stubbed(stubSourcesMap[key]);
    }

    /** Two calls for an unregistered id return the very same stub object. */
    method GetOrStubTwice(key: Long) returns (first: SourceRef, second: SourceRef)
      requires Valid()
      requires key !in sourcesMap
      modifies this`stubSourcesMap
      ensures Valid()
      ensures first.Stubbed? && second.Stubbed? && first.stub == second.stub && first.stub.id == key
    {
      first := GetOrStub(key);
      second := GetOrStub(key);
    }

    /**
     * The rebuild on a new list of installed extensions: start from the on-device
     * source alone, register every extension source in order (a later one replaces an
     * earlier one with the same id) and point the delegated sources at their
     * extension, then publish the map.
     */
    method Rebuild(extensions: seq<seq<Source>>)
      modifies this`sourcesMap, this`delegateOf
      ensures sourcesMap == RegisterAll(InitialMap(), Flatten(extensions))
      ensures delegateOf == Delegated(old(delegateOf), Flatten(extensions))
    {
      var mutableMap := InitialMap();
      var i := 0;
      while i < |extensions|
        invariant 0 <= i <= |extensions|
        invariant mutableMap == RegisterAll(InitialMap(), Flatten(extensions[..i]))
        invariant delegateOf == Delegated(old(delegateOf), Flatten(extensions[..i]))
      {
        var sources := extensions[i];
        var j := 0;
        assert Flatten(extensions[..i]) + sources[..j] == Flatten(extensions[..i]);
        while j < |sources|
          invariant 0 <= j <= |sources|
          invariant mutableMap == RegisterAll(InitialMap(), Flatten(extensions[..i]) + sources[..j])
          invariant delegateOf == Delegated(old(delegateOf), Flatten(extensions[..i]) + sources[..j])
        {
          var it := sources[j];
          ghost var done := Flatten(extensions[..i]) + sources[..j];
          assert done + [it] == Flatten(extensions[..i]) + sources[..j + 1];
          RegisterAllSnoc(InitialMap(), done, it);
          DelegatedSnoc(old(delegateOf), done, it);
          mutableMap := mutableMap[it.Id() := it];
          var table := AssociateBy(DelegatedList());
          if it.Id() in table {
            delegateOf := delegateOf[table[it.Id()].delegate := if it.IsHttp() then Some(it) else None];
          }
          j := j + 1;
        }
        assert sources[..j] == sources;
        FlattenSnoc(extensions, i);
        i := i + 1;
      }
      assert extensions[..i] == extensions;
      sourcesMap := mutableMap;
    }
  }
}

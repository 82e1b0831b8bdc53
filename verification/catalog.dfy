/** The catalogue's domain model and the use case that turns fetched apps
    into the list the screen shows: each app gets its derived status, then
    installed apps come first, each group in catalogue order. */
module Catalog {
  import opened Util
  import Versions

  datatype AppStatus =
    | NOT_INSTALLED
    | UP_TO_DATE
    | UPDATE_AVAILABLE
    | DOWNLOADING
    | INSTALLING
    | UNINSTALLING
    | READY_TO_INSTALL
    | UNKNOWN

  /** One catalogue entry; `downloadProgress` is Kotlin's Float, read as an exact real. */
  datatype RevancedApp = RevancedApp(
    packageName: string,
    title: string,
    latestVersion: string,
    currentVersion: Option<string>,
    description: string,
    iconUrl: string,
    downloadUrl: string,
    requiresMicroG: bool,
    index: int,
    status: AppStatus,
    downloadProgress: real)

  /** What the download manager reports about one package. */
  datatype AppDownload = AppDownload(
    packageName: string,
    url: string,
    filePath: Option<string>,
    progress: real,
    isComplete: bool)

  /** The three statuses the app derives from versions alone. */
  predicate IsSettled(st: AppStatus)
  {
    st == NOT_INSTALLED || st == UP_TO_DATE || st == UPDATE_AVAILABLE
  }

  /** The status rule: not installed without an installed version, up to
      date unless the installed version compares older than the latest. */
  function StatusFor(installed: Option<string>, latest: string): (st: AppStatus)
    ensures IsSettled(st)
    ensures st == NOT_INSTALLED <==> installed.None?
    ensures st == UPDATE_AVAILABLE <==> installed.Some? && Versions.Compare(installed.value, latest) < 0
  {
    if installed.None? then NOT_INSTALLED
    else if Versions.Compare(installed.value, latest) >= 0 then UP_TO_DATE
    else UPDATE_AVAILABLE
  }

  /** `determineAppStatus(app)`. */
  function DetermineStatus(app: RevancedApp): AppStatus
  {
    StatusFor(app.currentVersion, app.latestVersion)
  }

  /** An installed version equal to the latest one is up to date, and so is
      an empty installed version, which ties with everything. */
  lemma StatusForSameVersion(v: string, latest: string)
    ensures StatusFor(Some(v), v) == UP_TO_DATE
    ensures StatusFor(Some(""), latest) == UP_TO_DATE
  {
    Versions.CompareReflexive(v);
  }

  /** The primary sort key: installed apps (up to date or updatable) first. */
  function Group(app: RevancedApp): int
  {
    if app.status == UP_TO_DATE || app.status == UPDATE_AVAILABLE then 0 else 1
  }

  /** `compareBy { group }.thenBy { index }`, as "a sorts no later than b". */
  predicate KeyLe(a: RevancedApp, b: RevancedApp)
  {
    Group(a) < Group(b) || (Group(a) == Group(b) && a.index <= b.index)
  }

  predicate SameKey(a: RevancedApp, b: RevancedApp)
  {
    Group(a) == Group(b) && a.index == b.index
  }

  predicate Sorted(s: seq<RevancedApp>)
  {
    forall i, j :: 0 <= i < j < |s| ==> KeyLe(s[i], s[j])
  }

  /** The apps of `s` whose key equals that of `k`, in their order in `s`. */
  function WithKeyOf(s: seq<RevancedApp>, k: RevancedApp): (r: seq<RevancedApp>)
    ensures |r| <= |s|
  {
    if s == [] then []
    else (if SameKey(s[0], k) then [s[0]] else []) + WithKeyOf(s[1..], k)
  }

  /** Places `x` before the first element it sorts no later than. */
  function Insert(x: RevancedApp, s: seq<RevancedApp>): seq<RevancedApp>
  {
    if s == [] || KeyLe(x, s[0]) then [x] + s else [s[0]] + Insert(x, s[1..])
  }

  /** `sortedWith(...)`: a stable sort by (group, index). */
  function SortApps(s: seq<RevancedApp>): seq<RevancedApp>
  {
    if s == [] then [] else Insert(s[0], SortApps(s[1..]))
  }

  lemma {:induction false} InsertPermutes(x: RevancedApp, s: seq<RevancedApp>)
    ensures multiset(Insert(x, s)) == multiset([x] + s)
  {
    if s != [] && !KeyLe(x, s[0]) {
      InsertPermutes(x, s[1..]);
      assert s == [s[0]] + s[1..];
    }
  }

  lemma {:induction false} InsertFacts(x: RevancedApp, s: seq<RevancedApp>)
    requires Sorted(s)
    ensures Sorted(Insert(x, s))
    ensures multiset(Insert(x, s)) == multiset([x] + s)
  {
    InsertPermutes(x, s);
    if s != [] && !KeyLe(x, s[0]) {
      InsertFacts(x, s[1..]);
      var t := Insert(x, s[1..]);
      forall j | 0 <= j < |t| ensures KeyLe(s[0], t[j]) {
        assert t[j] in multiset([x] + s[1..]);
        if t[j] != x {
          assert t[j] in s[1..];
        }
      }
    }
  }

  lemma {:induction false} InsertKeepsKeyOrder(x: RevancedApp, s: seq<RevancedApp>, k: RevancedApp)
    requires Sorted(s)
    ensures WithKeyOf(Insert(x, s), k) == (if SameKey(x, k) then [x] else []) + WithKeyOf(s, k)
  {
    if s == [] || KeyLe(x, s[0]) {
      assert ([x] + s)[1..] == s;
    } else {
      InsertKeepsKeyOrder(x, s[1..], k);
      assert ([s[0]] + Insert(x, s[1..]))[1..] == Insert(x, s[1..]);
      if SameKey(x, k) {
        assert !SameKey(s[0], k);
      }
    }
  }

  /** The sort puts the apps in (group, index) order, loses and adds none,
      and keeps apps with equal keys in their input order. */
  lemma {:induction false} SortAppsCorrect(s: seq<RevancedApp>)
    ensures Sorted(SortApps(s))
    ensures multiset(SortApps(s)) == multiset(s)
    ensures forall k :: WithKeyOf(SortApps(s), k) == WithKeyOf(s, k)
  {
    if s != [] {
      SortAppsCorrect(s[1..]);
      InsertFacts(s[0], SortApps(s[1..]));
      assert s == [s[0]] + s[1..];
      forall k ensures WithKeyOf(SortApps(s), k) == WithKeyOf(s, k) {
        InsertKeepsKeyOrder(s[0], SortApps(s[1..]), k);
      }
    }
  }

  /** `Result<List<RevancedApp>>` as the repository emits it. */
  datatype LoadResult = Success(apps: seq<RevancedApp>) | Error(message: string) | Loading

  function WithDerivedStatus(apps: seq<RevancedApp>): (r: seq<RevancedApp>)
    ensures |r| == |apps|
    ensures forall i :: 0 <= i < |r| ==> r[i] == apps[i].(status := DetermineStatus(apps[i]))
  {
    seq(|apps|, i requires 0 <= i < |apps| => apps[i].(status := DetermineStatus(apps[i])))
  }

  /** `GetAppsUseCase.invoke`: errors and loading pass through; a success
      becomes the same apps with derived statuses, installed ones first,
      each group by catalogue index, ties in fetched order. */
  function GetApps(result: LoadResult): (r: LoadResult)
    ensures !result.Success? ==> r == result
    ensures result.Success? ==> (
      && r.Success?
      && multiset(r.apps) == multiset(WithDerivedStatus(result.apps))
      && Sorted(r.apps)
      && (forall k :: WithKeyOf(r.apps, k) == WithKeyOf(WithDerivedStatus(result.apps), k))
      && (forall i :: 0 <= i < |r.apps| ==> r.apps[i].status == DetermineStatus(r.apps[i])))
  {
    match result
    case Success(apps) =>
      var withStatus := WithDerivedStatus(apps);
      SortAppsCorrect(withStatus);
      var sorted := SortApps(withStatus);
      forall i | 0 <= i < |sorted| ensures sorted[i].status == DetermineStatus(sorted[i]) {
        assert sorted[i] in multiset(withStatus);
      }
      Success(sorted)
    case Error(_) => result
    case Loading => result
  }

  /** In the list the use case emits, every installed app comes before every
      app that is not installed. */
  lemma InstalledFirst(result: LoadResult, i: int, j: int)
    requires result.Success?
    requires 0 <= i < |GetApps(result).apps| && 0 <= j < |GetApps(result).apps|
    requires GetApps(result).apps[i].currentVersion.Some?
    requires GetApps(result).apps[j].currentVersion.None?
    ensures i < j
  {
    var r := GetApps(result).apps;
    assert Group(r[i]) == 0 && Group(r[j]) == 1;
  }
}

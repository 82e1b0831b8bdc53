/** The app repository's list logic: attaching installed versions, choosing
    the catalogue endpoint by CPU architecture, building apps straight from
    the cached catalogue, and finding which apps changed between two loads. */
module AppRepository {
  import opened Util
  import opened Catalog
  import opened Mapper
  import Versions

  /** What the package manager reports: package name to installed version
      name; a package missing from the map is not installed. */
  type Installed = map<string, string>

  function InstalledVersion(installed: Installed, pkg: string): Option<string>
  {
    if pkg in installed then Some(installed[pkg]) else None
  }

  /** `getApps`: every app gets the installed version of its package; nothing
      else changes, and length and order are kept. */
  function AttachVersions(apps: seq<RevancedApp>, installed: Installed): (r: seq<RevancedApp>)
    ensures |r| == |apps|
    ensures forall i :: 0 <= i < |r| ==>
      && r[i].currentVersion == InstalledVersion(installed, apps[i].packageName)
      && r[i].(currentVersion := apps[i].currentVersion) == apps[i]
  {
    seq(|apps|, i requires 0 <= i < |apps| => apps[i].(currentVersion := InstalledVersion(installed, apps[i].packageName)))
  }

  /** The catalogue endpoints, one per supported architecture plus a fallback. */
  datatype Endpoint = Arm64 | ArmV7a | X86 | X86_64 | Fallback

  const ABI_PRIORITY: seq<string> := ["arm64-v8a", "armeabi-v7a", "x86", "x86_64"]

  function EndpointAt(k: int): Endpoint
    requires 0 <= k < 4
  {
    [Arm64, ArmV7a, X86, X86_64][k]
  }

  /** The endpoint choice in `getAppsFromNetwork`. */
  function ChooseEndpoint(supportedAbis: seq<string>): Endpoint
  {
    if "arm64-v8a" in supportedAbis then Arm64
    else if "armeabi-v7a" in supportedAbis then ArmV7a
    else if "x86" in supportedAbis then X86
    else if "x86_64" in supportedAbis then X86_64
    else Fallback
  }

  /** The first architecture of the priority list that the device supports
      picks its endpoint; with none of them the fallback endpoint is used. */
  lemma ChooseEndpointPriority(supportedAbis: seq<string>)
    ensures ChooseEndpoint(supportedAbis) == Fallback <==> forall k :: 0 <= k < 4 ==> ABI_PRIORITY[k] !in supportedAbis
    ensures ChooseEndpoint(supportedAbis) != Fallback ==> exists k :: (
      && 0 <= k < 4 && ChooseEndpoint(supportedAbis) == EndpointAt(k)
      && ABI_PRIORITY[k] in supportedAbis
      && forall j :: 0 <= j < k ==> ABI_PRIORITY[j] !in supportedAbis)
  {
    var e := ChooseEndpoint(supportedAbis);
    var k := if e == Arm64 then 0 else if e == ArmV7a then 1 else if e == X86 then 2 else 3;
    if e != Fallback {
      assert EndpointAt(k) == e && ABI_PRIORITY[k] in supportedAbis;
      assert forall j :: 0 <= j < k ==> ABI_PRIORITY[j] !in supportedAbis;
    }
  }

  /** The cache-path record for one entry, with the status computed as the
      code does it: against the raw `latestVersionCode`, although the
      record's `latestVersion` is the "1.0.0"-defaulted value. */
  function CacheEntryAsWritten(dto: AppPackageDto, installed: Installed): (r: Option<RevancedApp>)
    ensures r.None? <==> IsBlank(dto.androidPackageName) || IsBlank(dto.appName)
    ensures r.Some? ==> (
      && r.value.packageName == dto.androidPackageName && r.value.title == dto.appName
      && r.value.currentVersion == InstalledVersion(installed, dto.androidPackageName)
      && r.value.latestVersion == (if IsBlank(dto.latestVersionCode) then DEFAULT_VERSION else dto.latestVersionCode)
      && (!IsBlank(dto.latestVersionCode) ==> r.value.status == DetermineStatus(r.value)))
  {
    if IsBlank(dto.androidPackageName) || IsBlank(dto.appName) then None
    else
      var installedVersion := InstalledVersion(installed, dto.androidPackageName);
      Some(RevancedApp(
        packageName := dto.androidPackageName,
        title := dto.appName,
        latestVersion := OrIfBlank(dto.latestVersionCode, DEFAULT_VERSION),
        currentVersion := installedVersion,
        description := OrIfBlank(dto.appShortDescription, DEFAULT_DESCRIPTION),
        iconUrl := dto.icon,
        downloadUrl := dto.latestVersionUrl,
        requiresMicroG := dto.requireMicroG,
        index := if dto.index < 0 then 0 else dto.index,
        status := StatusFor(installedVersion, dto.latestVersionCode),
        downloadProgress := 0.0))
  }

  /** The cache-path record with the status computed against the record's
      own `latestVersion`, as the refresh path does. */
  function CacheEntry(dto: AppPackageDto, installed: Installed): (r: Option<RevancedApp>)
    ensures r.None? <==> IsBlank(dto.androidPackageName) || IsBlank(dto.appName)
    ensures r.Some? ==> (
      && r.value.status == DetermineStatus(r.value)
      && r.value.packageName == dto.androidPackageName && r.value.title == dto.appName
      && r.value.currentVersion == InstalledVersion(installed, dto.androidPackageName)
      && !IsBlank(r.value.latestVersion) && r.value.index >= 0)
  {
    LiteralsNotBlank();
    match CacheEntryAsWritten(dto, installed)
    case None => None
    case Some(app) => Some(app.(status := DetermineStatus(app)))
  }

  lemma BlankHasNoDot(s: string)
    requires IsBlank(s)
    ensures '.' !in s
  {
    assert forall j :: 0 <= j < |s| ==> s[j] != '.';
  }

  /** A blank version reads as the single part 0. */
  lemma SegmentsOfBlank(s: string)
    requires IsBlank(s) && s != ""
    ensures Versions.Segments(s) == [0]
  {
    BlankHasNoDot(s);
    SplitNoDelimiter(s, '.');
    assert Versions.LeadingDigits(s) == "";
    assert Versions.DigitsValue("0") == 0;
  }

  /** Every installed version is at least as new as a blank one. */
  lemma NotOlderThanBlank(v: string, blank: string)
    requires IsBlank(blank)
    ensures Versions.Compare(v, blank) >= 0
  {
    if v != "" && blank != "" {
      SegmentsOfBlank(blank);
      var xs := Versions.Segments(v);
      assert xs[0] >= 0;
      if xs[0] == 0 {
        assert Versions.CompareSegments(xs, [0]) == Versions.CompareSegments(xs[1..], []);
      }
    }
  }

  /** As written, a blank version code makes every installed app UP_TO_DATE,
      whatever its version. */
  lemma BlankCodeIsAlwaysUpToDate(dto: AppPackageDto, installed: Installed)
    requires CacheEntryAsWritten(dto, installed).Some?
    requires IsBlank(dto.latestVersionCode) && dto.androidPackageName in installed
    ensures CacheEntryAsWritten(dto, installed).value.status == UP_TO_DATE
  {
    NotOlderThanBlank(installed[dto.androidPackageName], dto.latestVersionCode);
  }

  /** With no version code in the cache, an installed version older than
      the "1.0.0" the record shows is reported UP_TO_DATE as written and
      UPDATE_AVAILABLE by the corrected record. */
  lemma BlankCodeMasksUpdate(dto: AppPackageDto, installed: Installed)
    requires !IsBlank(dto.androidPackageName) && !IsBlank(dto.appName) && IsBlank(dto.latestVersionCode)
    requires dto.androidPackageName in installed
    requires Versions.Compare(installed[dto.androidPackageName], DEFAULT_VERSION) < 0
    ensures CacheEntryAsWritten(dto, installed).Some? && CacheEntry(dto, installed).Some?
    ensures CacheEntryAsWritten(dto, installed).value.latestVersion == DEFAULT_VERSION
    ensures CacheEntryAsWritten(dto, installed).value.status == UP_TO_DATE
    ensures CacheEntry(dto, installed).value.status == UPDATE_AVAILABLE
  {
    BlankCodeIsAlwaysUpToDate(dto, installed);
  }

  /** The input that shows it: version "0.5" of YouTube installed and a
      cached entry without a version code. */
  lemma BlankCodeMasksUpdateExample()
    ensures var dto := AppPackageDto("YouTube", "com.google.android.youtube", "", "", false, "", "", 0);
      var installed := map["com.google.android.youtube" := "0.5"];
      && CacheEntryAsWritten(dto, installed).Some? && CacheEntry(dto, installed).Some?
      && CacheEntryAsWritten(dto, installed).value.status == UP_TO_DATE
      && CacheEntry(dto, installed).value.status == UPDATE_AVAILABLE
  {
    var dto := AppPackageDto("YouTube", "com.google.android.youtube", "", "", false, "", "", 0);
    var installed := map["com.google.android.youtube" := "0.5"];
    assert !IsWhitespace(dto.appName[0]) && !IsWhitespace(dto.androidPackageName[0]);
    assert installed[dto.androidPackageName] == "0.5";
    ZeroFiveOlder();
    BlankCodeMasksUpdate(dto, installed);
  }

  lemma ZeroFiveOlder()
    ensures Versions.Compare("0.5", DEFAULT_VERSION) == -1
  {
    SegmentsOf05();
    SegmentsOf100();
  }

  lemma SegmentsOf05()
    ensures Versions.Segments("0.5") == [0, 5]
  {
    Versions.SmallValues();
    assert Versions.DigitsValue("5") == 5;
    assert "0.5" == Join(["0", "5"], '.');
    Versions.SegmentsOfDigitRuns(["0", "5"], [0, 5]);
  }

  lemma SegmentsOf100()
    ensures Versions.Segments("1.0.0") == [1, 0, 0]
  {
    Versions.SmallValues();
    assert "1.0.0" == Join(["1", "0", "0"], '.');
    Versions.SegmentsOfDigitRuns(["1", "0", "0"], [1, 0, 0]);
  }

  /** With a non-blank version code the two records coincide. */
  lemma CacheEntryAgreesOnNonBlankCode(dto: AppPackageDto, installed: Installed)
    requires !IsBlank(dto.latestVersionCode)
    ensures CacheEntry(dto, installed) == CacheEntryAsWritten(dto, installed)
  {
  }

  /** As written, a cached record's status is the derived one, except that
      a record showing the default version because its code is blank may
      read UP_TO_DATE instead. */
  lemma AsWrittenStatus(dto: AppPackageDto, installed: Installed)
    requires CacheEntryAsWritten(dto, installed).Some?
    ensures var app := CacheEntryAsWritten(dto, installed).value;
      || app.status == DetermineStatus(app)
      || (app.status == UP_TO_DATE && app.latestVersion == DEFAULT_VERSION && IsBlank(dto.latestVersionCode))
  {
    var app := CacheEntryAsWritten(dto, installed).value;
    if IsBlank(dto.latestVersionCode) && app.currentVersion.Some? {
      NotOlderThanBlank(app.currentVersion.value, dto.latestVersionCode);
    }
  }

  /** The cache paths of `getAppsFromCacheImmediately` and of the refresh
      fallback, as written: `mapNotNull` over the cached entries. */
  function CacheApps(packages: seq<AppPackageDto>, installed: Installed): (apps: seq<RevancedApp>)
    ensures |apps| <= |packages|
    ensures forall i :: 0 <= i < |apps| ==>
      || apps[i].status == DetermineStatus(apps[i])
      || (apps[i].status == UP_TO_DATE && apps[i].latestVersion == DEFAULT_VERSION)
  {
    if packages == [] then []
    else
      var rest := CacheApps(packages[..|packages| - 1], installed);
      var dto := packages[|packages| - 1];
      match CacheEntryAsWritten(dto, installed)
      case None => rest
      case Some(app) => AsWrittenStatus(dto, installed); rest + [app]
  }

  /** The cache paths with every status derived from the record's own
      latest version, as the refresh path does. */
  function CacheAppsCorrected(packages: seq<AppPackageDto>, installed: Installed): (apps: seq<RevancedApp>)
    ensures |apps| <= |packages|
    ensures forall i :: 0 <= i < |apps| ==> apps[i].status == DetermineStatus(apps[i])
  {
    if packages == [] then []
    else
      var rest := CacheAppsCorrected(packages[..|packages| - 1], installed);
      match CacheEntry(packages[|packages| - 1], installed)
      case None => rest
      case Some(app) => rest + [app]
  }

  /** The cache paths keep exactly the entries with a package name and an
      app name, in cache order: the i-th kept entry comes from some entry,
      and every entry with both names is kept. */
  lemma {:induction false} CacheAppsKeeps(packages: seq<AppPackageDto>, installed: Installed, i: int)
    requires 0 <= i < |packages|
    requires !IsBlank(packages[i].androidPackageName) && !IsBlank(packages[i].appName)
    ensures CacheEntryAsWritten(packages[i], installed).value in CacheApps(packages, installed)
  {
    if i < |packages| - 1 {
      CacheAppsKeeps(packages[..|packages| - 1], installed, i);
      assert packages[..|packages| - 1][i] == packages[i];
    }
  }

  lemma {:induction false} CacheAppsDrops(packages: seq<AppPackageDto>, installed: Installed, app: RevancedApp)
    requires app in CacheApps(packages, installed)
    ensures exists i :: 0 <= i < |packages| && CacheEntryAsWritten(packages[i], installed) == Some(app)
  {
    var n := |packages|;
    var rest := CacheApps(packages[..n - 1], installed);
    if app in rest {
      CacheAppsDrops(packages[..n - 1], installed, app);
      var i :| 0 <= i < n - 1 && CacheEntryAsWritten(packages[..n - 1][i], installed) == Some(app);
      assert packages[..n - 1][i] == packages[i];
    }
  }

  /** The corrected list is the list as written with every status derived
      again: same length, same order, and nothing but the status differs. */
  lemma {:induction false} CorrectedRederivesCacheApps(packages: seq<AppPackageDto>, installed: Installed)
    ensures |CacheAppsCorrected(packages, installed)| == |CacheApps(packages, installed)|
    ensures forall i :: 0 <= i < |CacheApps(packages, installed)| ==>
      CacheAppsCorrected(packages, installed)[i] ==
        CacheApps(packages, installed)[i].(status := DetermineStatus(CacheApps(packages, installed)[i]))
  {
    if packages != [] {
      CorrectedRederivesCacheApps(packages[..|packages| - 1], installed);
    }
  }

  /** When every cached entry has a version code, the list as written is
      the corrected one. */
  lemma CacheAppsAgreeOnCodes(packages: seq<AppPackageDto>, installed: Installed)
    requires forall j :: 0 <= j < |packages| ==> !IsBlank(packages[j].latestVersionCode)
    ensures CacheApps(packages, installed) == CacheAppsCorrected(packages, installed)
  {
    var a := CacheApps(packages, installed);
    CorrectedRederivesCacheApps(packages, installed);
    forall i | 0 <= i < |a|
      ensures a[i].status == DetermineStatus(a[i])
    {
      assert a[i] in a;
      CacheAppsDrops(packages, installed, a[i]);
    }
  }

  /** The fallback list for a cache holding only YouTube without a version
      code, with "0.5" installed: UP_TO_DATE as written, UPDATE_AVAILABLE
      when corrected. */
  lemma CacheAppsMasksUpdateExample()
    ensures var dto := AppPackageDto("YouTube", "com.google.android.youtube", "", "", false, "", "", 0);
      var installed := map["com.google.android.youtube" := "0.5"];
      && |CacheApps([dto], installed)| == 1 && |CacheAppsCorrected([dto], installed)| == 1
      && CacheApps([dto], installed)[0].status == UP_TO_DATE
      && CacheAppsCorrected([dto], installed)[0].status == UPDATE_AVAILABLE
  {
    var dto := AppPackageDto("YouTube", "com.google.android.youtube", "", "", false, "", "", 0);
    var installed := map["com.google.android.youtube" := "0.5"];
    BlankCodeMasksUpdateExample();
    assert [dto][..0] == [];
  }

  /** `backgroundRefreshApps`: each fetched app gets its installed version and
      the status derived from it and the app's own latest version. */
  function RefreshStatuses(apps: seq<RevancedApp>, installed: Installed): (r: seq<RevancedApp>)
    ensures |r| == |apps|
    ensures forall i :: 0 <= i < |r| ==>
      && r[i].currentVersion == InstalledVersion(installed, apps[i].packageName)
      && r[i].status == DetermineStatus(r[i])
      && r[i].(currentVersion := apps[i].currentVersion, status := apps[i].status) == apps[i]
  {
    seq(|apps|, i requires 0 <= i < |apps| =>
      var v := InstalledVersion(installed, apps[i].packageName);
      apps[i].(currentVersion := v, status := StatusFor(v, apps[i].latestVersion)))
  }

  /** `oldApps.find { it.packageName == pkg }`: the first app with that package. */
  function FindByPackage(apps: seq<RevancedApp>, pkg: string): (r: Option<RevancedApp>)
    ensures r.None? <==> forall i :: 0 <= i < |apps| ==> apps[i].packageName != pkg
    ensures r.Some? ==> exists i :: (
      && 0 <= i < |apps| && apps[i] == r.value && r.value.packageName == pkg
      && forall j :: 0 <= j < i ==> apps[j].packageName != pkg)
  {
    if apps == [] then None
    else if apps[0].packageName == pkg then Some(apps[0])
    else
      var r := FindByPackage(apps[1..], pkg);
      assert r.Some? ==> exists i :: (
        && 0 <= i < |apps| && apps[i] == r.value && r.value.packageName == pkg
        && forall j :: 0 <= j < i ==> apps[j].packageName != pkg)
      by {
        if r.Some? {
          var i :| 0 <= i < |apps[1..]| && apps[1..][i] == r.value && r.value.packageName == pkg
            && forall j :: 0 <= j < i ==> apps[1..][j].packageName != pkg;
          assert apps[i + 1] == r.value;
          assert forall j :: 0 <= j < i + 1 ==> apps[j].packageName != pkg by {
            forall j | 0 <= j < i + 1 ensures apps[j].packageName != pkg {
              if j > 0 { assert apps[j] == apps[1..][j - 1]; }
            }
          }
        }
      }
      r
  }

  /** The fields whose change makes an app count as updated. */
  predicate SameListing(a: RevancedApp, b: RevancedApp)
  {
    a.latestVersion == b.latestVersion && a.downloadUrl == b.downloadUrl && a.title == b.title
    && a.description == b.description && a.currentVersion == b.currentVersion
  }

  /** An app is new, or differs from the first old app with its package in a
      listed field. */
  predicate HasChanges(oldApps: seq<RevancedApp>, newApp: RevancedApp)
  {
    var oldApp := FindByPackage(oldApps, newApp.packageName);
    oldApp.None? || !SameListing(oldApp.value, newApp)
  }

  /** The apps `getUpdatedApps` returns, in `newApps` order. */
  function UpdatedApps(oldApps: seq<RevancedApp>, newApps: seq<RevancedApp>): (r: seq<RevancedApp>)
    ensures |r| <= |newApps|
    ensures forall i :: 0 <= i < |r| ==> HasChanges(oldApps, r[i])
  {
    if newApps == [] then []
    else
      var last := newApps[|newApps| - 1];
      UpdatedApps(oldApps, newApps[..|newApps| - 1]) + (if HasChanges(oldApps, last) then [last] else [])
  }

  /** `getUpdatedApps`: the `forEach` loop that collects the changed apps. */
  method GetUpdatedApps(oldApps: seq<RevancedApp>, newApps: seq<RevancedApp>) returns (updatedApps: seq<RevancedApp>)
    ensures updatedApps == UpdatedApps(oldApps, newApps)
  {
    updatedApps := [];
    var i := 0;
    while i < |newApps|
      invariant 0 <= i <= |newApps|
      invariant updatedApps == UpdatedApps(oldApps, newApps[..i])
    {
      var newApp := newApps[i];
      var oldApp := FindByPackage(oldApps, newApp.packageName);
      var hasChanges := oldApp.None? || !SameListing(oldApp.value, newApp);
      assert newApps[..i + 1][..i] == newApps[..i];
      if hasChanges {
        updatedApps := updatedApps + [newApp];
      }
      i := i + 1;
    }
    assert newApps[..i] == newApps;
  }

  /** Every changed app is reported: a new app is in the result exactly when
      it is new or its listing changed. */
  lemma {:induction false} UpdatedAppsComplete(oldApps: seq<RevancedApp>, newApps: seq<RevancedApp>, i: int)
    requires 0 <= i < |newApps| && HasChanges(oldApps, newApps[i])
    ensures newApps[i] in UpdatedApps(oldApps, newApps)
  {
    if i < |newApps| - 1 {
      UpdatedAppsComplete(oldApps, newApps[..|newApps| - 1], i);
      assert newApps[..|newApps| - 1][i] == newApps[i];
    }
  }

  /** Only apps of `newApps` are reported. */
  lemma {:induction false} UpdatedAppsFromNew(oldApps: seq<RevancedApp>, newApps: seq<RevancedApp>, app: RevancedApp)
    requires app in UpdatedApps(oldApps, newApps)
    ensures app in newApps && HasChanges(oldApps, app)
  {
    var n := |newApps|;
    if app in UpdatedApps(oldApps, newApps[..n - 1]) {
      UpdatedAppsFromNew(oldApps, newApps[..n - 1], app);
    }
  }

  predicate UniquePackages(apps: seq<RevancedApp>)
  {
    forall i, j :: 0 <= i < j < |apps| ==> apps[i].packageName != apps[j].packageName
  }

  /** A reload that changes only status, icon, microG flag, index or progress
      reports nothing. */
  lemma {:induction false} CosmeticChangesIgnored(oldApps: seq<RevancedApp>, newApps: seq<RevancedApp>)
    requires |oldApps| == |newApps| && UniquePackages(oldApps)
    requires forall i :: 0 <= i < |newApps| ==>
      newApps[i].packageName == oldApps[i].packageName && SameListing(oldApps[i], newApps[i])
    ensures UpdatedApps(oldApps, newApps) == []
  {
    ForPrefix(oldApps, newApps, |newApps|);
    assert newApps[..|newApps|] == newApps;
  }

  lemma {:induction false} ForPrefix(oldApps: seq<RevancedApp>, newApps: seq<RevancedApp>, m: nat)
    requires m <= |newApps| && |oldApps| == |newApps| && UniquePackages(oldApps)
    requires forall i :: 0 <= i < |newApps| ==>
      newApps[i].packageName == oldApps[i].packageName && SameListing(oldApps[i], newApps[i])
    ensures UpdatedApps(oldApps, newApps[..m]) == []
  {
    if m > 0 {
      ForPrefix(oldApps, newApps, m - 1);
      assert newApps[..m][..m - 1] == newApps[..m - 1];
      var app := newApps[m - 1];
      var r := FindByPackage(oldApps, app.packageName);
      assert oldApps[m - 1].packageName == app.packageName;
      var k :| 0 <= k < |oldApps| && oldApps[k] == r.value && r.value.packageName == app.packageName
        && forall j :: 0 <= j < k ==> oldApps[j].packageName != app.packageName;
      assert k == m - 1;
    }
  }
}

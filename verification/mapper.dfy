/** Turning catalogue entries as the server sends them into domain apps:
    every missing field gets a fallback, and the list mapper keeps only apps
    with a package name, a title and a latest version. */
module Mapper {
  import opened Util
  import opened Catalog

  /** One entry of the server's package list; every field has a default. */
  datatype AppPackageDto = AppPackageDto(
    appName: string,
    androidPackageName: string,
    latestVersionCode: string,
    appShortDescription: string,
    requireMicroG: bool,
    latestVersionUrl: string,
    icon: string,
    index: int)

  datatype AppResponseDto = AppResponseDto(packages: seq<AppPackageDto>, sponsor: Option<string>)

  const DEFAULT_VERSION: string := "1.0.0"
  const DEFAULT_DESCRIPTION: string := "No description available"
  const HTTPS: string := "https://"
  const ICON_BASE: string := HTTPS + "via.placeholder.com/128x128/4CAF50/FFFFFF?text="

  /** `s.takeIf { it.isNotBlank() } ?: fallback`. */
  function OrIfBlank(s: string, fallback: string): string
  {
    if !IsBlank(s) then s else fallback
  }

  /** `isValidUrl`: an http or https scheme prefix. */
  predicate IsValidUrl(url: string)
  {
    StartsWith(url, "http://") || StartsWith(url, "https://")
  }

  /** `isValidApp`: package name, title and latest version all non-blank. */
  predicate IsValidApp(app: RevancedApp)
  {
    !IsBlank(app.packageName) && !IsBlank(app.title) && !IsBlank(app.latestVersion)
  }

  lemma LiteralsNotBlank()
    ensures !IsBlank(DEFAULT_VERSION) && !IsBlank(DEFAULT_DESCRIPTION)
    ensures forall t :: !IsBlank("unknown.package." + t) && !IsBlank("unknown." + t)
  {
    assert !IsWhitespace(DEFAULT_VERSION[0]);
    assert !IsWhitespace(DEFAULT_DESCRIPTION[0]);
    forall t ensures !IsBlank("unknown.package." + t) && !IsBlank("unknown." + t) {
      assert ("unknown.package." + t)[0] == 'u';
      assert ("unknown." + t)[0] == 'u';
    }
  }

  /** `getDefaultIconUrl`: a placeholder image captioned with the first two
      letters of the last dot-separated part of the package name, upper-cased. */
  function DefaultIconUrl(packageName: string): (url: string)
    ensures IsValidUrl(url)
    ensures StartsWith(url, ICON_BASE) && |ICON_BASE| <= |url| <= |ICON_BASE| + 2
  {
    var caption := Upper(Take(LastSegment(packageName, '.'), 2));
    var url := ICON_BASE + caption;
    assert url[..|ICON_BASE|] == ICON_BASE;
    assert url[..|HTTPS|] == HTTPS;
    url
  }

  /** The title when the DTO has none: the last dot-separated part of the
      package name. `split` never yields an empty list, so the "Unknown App"
      fallback after it is never reached. */
  function FallbackTitle(packageName: string): string
  {
    LastSegment(packageName, '.')
  }

  /** `AppMapper.toDomainModel(packageDto, installedVersion)`; `now` stands
      for `System.currentTimeMillis()`. */
  function ToDomainModel(dto: AppPackageDto, installedVersion: Option<string>, now: nat): RevancedApp
  {
    var fallbackName := "unknown.package." + NatToString(now);
    RevancedApp(
      packageName := OrIfBlank(dto.androidPackageName, fallbackName),
      title := OrIfBlank(dto.appName, FallbackTitle(dto.androidPackageName)),
      latestVersion := OrIfBlank(dto.latestVersionCode, DEFAULT_VERSION),
      currentVersion := installedVersion,
      description := OrIfBlank(dto.appShortDescription, DEFAULT_DESCRIPTION),
      iconUrl := if !IsBlank(dto.icon) && IsValidUrl(dto.icon) then dto.icon
                 else DefaultIconUrl(dto.androidPackageName),
      downloadUrl := if !IsBlank(dto.latestVersionUrl) && IsValidUrl(dto.latestVersionUrl) then dto.latestVersionUrl
                     else "",
      requiresMicroG := dto.requireMicroG,
      index := if dto.index < 0 then 0 else dto.index,
      status := UNKNOWN,
      downloadProgress := 0.0)
  }

  /** What the mapper guarantees of every app it builds: package name,
      latest version and description are never blank, the icon is always an
      http(s) URL, the download URL is one or empty, and the title is blank
      only when both the app name and the last package-name part are. */
  lemma ToDomainModelFacts(dto: AppPackageDto, installedVersion: Option<string>, now: nat)
    ensures var app := ToDomainModel(dto, installedVersion, now);
      && !IsBlank(app.packageName) && !IsBlank(app.latestVersion) && !IsBlank(app.description)
      && (!IsBlank(dto.androidPackageName) ==> app.packageName == dto.androidPackageName)
      && (IsBlank(dto.androidPackageName) ==> StartsWith(app.packageName, "unknown.package."))
      && (IsBlank(app.title) <==> IsBlank(dto.appName) && IsBlank(FallbackTitle(dto.androidPackageName)))
      && app.currentVersion == installedVersion
      && IsValidUrl(app.iconUrl)
      && (app.downloadUrl == "" || IsValidUrl(app.downloadUrl))
      && app.index >= 0 && (dto.index >= 0 ==> app.index == dto.index)
      && app.requiresMicroG == dto.requireMicroG && app.status == UNKNOWN && app.downloadProgress == 0.0
  {
    LiteralsNotBlank();
    var fallbackName := "unknown.package." + NatToString(now);
    assert fallbackName[..16] == "unknown.package.";
  }

  /** The apps the list mapper keeps, in package-list order. */
  function ValidApps(packages: seq<AppPackageDto>, now: nat): (apps: seq<RevancedApp>)
    ensures |apps| <= |packages|
  {
    if packages == [] then []
    else
      var app := ToDomainModel(packages[|packages| - 1], None, now);
      ValidApps(packages[..|packages| - 1], now) + (if IsValidApp(app) then [app] else [])
  }

  /** `AppMapper.toDomainModel(responseDto)`: the `forEachIndexed` loop that
      collects every mapped app passing `isValidApp`. */
  method ToDomainModels(response: AppResponseDto, now: nat) returns (apps: seq<RevancedApp>)
    ensures apps == ValidApps(response.packages, now)
    ensures forall i :: 0 <= i < |apps| ==> IsValidApp(apps[i]) && apps[i].currentVersion.None?
  {
    ValidAppsAreValid(response.packages, now);
    if |response.packages| == 0 {
      return [];
    }
    var validApps: seq<RevancedApp> := [];
    var i := 0;
    while i < |response.packages|
      invariant 0 <= i <= |response.packages|
      invariant validApps == ValidApps(response.packages[..i], now)
    {
      var app := ToDomainModel(response.packages[i], None, now);
      ValidAppsStep(response.packages, now, i);
      if IsValidApp(app) {
        validApps := validApps + [app];
      }
      i := i + 1;
    }
    assert response.packages[..i] == response.packages;
    apps := validApps;
  }

  /** One more entry of the response adds its app when that app is valid. */
  lemma ValidAppsStep(packages: seq<AppPackageDto>, now: nat, i: int)
    requires 0 <= i < |packages|
    ensures ValidApps(packages[..i + 1], now) ==
      ValidApps(packages[..i], now)
      + (if IsValidApp(ToDomainModel(packages[i], None, now)) then [ToDomainModel(packages[i], None, now)] else [])
  {
    var p := packages[..i + 1];
    assert p[..|p| - 1] == packages[..i];
    assert p[|p| - 1] == packages[i];
  }

  /** Every app the list mapper keeps passes `isValidApp` and has no installed version yet. */
  lemma {:induction false} ValidAppsAreValid(packages: seq<AppPackageDto>, now: nat)
    ensures forall i :: 0 <= i < |ValidApps(packages, now)| ==>
      IsValidApp(ValidApps(packages, now)[i]) && ValidApps(packages, now)[i].currentVersion.None?
  {
    if packages != [] {
      ValidAppsAreValid(packages[..|packages| - 1], now);
    }
  }

  /** The list mapper drops an entry exactly when it has neither an app name
      nor a usable last package-name part: every other field has a non-blank
      fallback. */
  lemma {:induction false} ValidAppsKeeps(packages: seq<AppPackageDto>, now: nat, i: int)
    requires 0 <= i < |packages|
    ensures ToDomainModel(packages[i], None, now) in ValidApps(packages, now)
      <== !(IsBlank(packages[i].appName) && IsBlank(FallbackTitle(packages[i].androidPackageName)))
  {
    if i < |packages| - 1 {
      ValidAppsKeeps(packages[..|packages| - 1], now, i);
      assert packages[..|packages| - 1][i] == packages[i];
    } else {
      ToDomainModelFacts(packages[i], None, now);
    }
  }

  /** Every kept app is the mapping of some entry of the list. */
  lemma {:induction false} ValidAppsSound(packages: seq<AppPackageDto>, now: nat, app: RevancedApp)
    requires app in ValidApps(packages, now)
    ensures exists i :: 0 <= i < |packages| && app == ToDomainModel(packages[i], None, now)
  {
    var n := |packages|;
    var front := packages[..n - 1];
    var last := ToDomainModel(packages[n - 1], None, now);
    ValidAppsStep(packages, now, n - 1);
    assert packages[..n] == packages;
    if app in ValidApps(front, now) {
      ValidAppsSound(front, now, app);
      var i :| 0 <= i < n - 1 && app == ToDomainModel(front[i], None, now);
      assert front[i] == packages[i];
    } else {
      assert app in (if IsValidApp(last) then [last] else []);
    }
  }

  /** The extension `AppPackageDto.toDomainModel`: the same fallbacks, except
      the fallback package name is "unknown.<time>" and icon and download
      URLs are taken as they are when non-blank, without a scheme check. */
  function ExtToDomainModel(dto: AppPackageDto, installedVersion: Option<string>, now: nat): (app: RevancedApp)
    ensures !IsBlank(app.packageName) && !IsBlank(app.latestVersion) && !IsBlank(app.description)
    ensures IsBlank(dto.androidPackageName) ==> StartsWith(app.packageName, "unknown.")
    ensures app.iconUrl == "" <==> IsBlank(dto.icon)
    ensures app.downloadUrl == "" <==> IsBlank(dto.latestVersionUrl)
  {
    LiteralsNotBlank();
    var fallbackName := "unknown." + NatToString(now);
    assert fallbackName[..8] == "unknown.";
    RevancedApp(
      packageName := OrIfBlank(dto.androidPackageName, fallbackName),
      title := OrIfBlank(dto.appName, FallbackTitle(dto.androidPackageName)),
      latestVersion := OrIfBlank(dto.latestVersionCode, DEFAULT_VERSION),
      currentVersion := installedVersion,
      description := OrIfBlank(dto.appShortDescription, DEFAULT_DESCRIPTION),
      iconUrl := OrIfBlank(dto.icon, ""),
      downloadUrl := OrIfBlank(dto.latestVersionUrl, ""),
      requiresMicroG := dto.requireMicroG,
      index := if dto.index < 0 then 0 else dto.index,
      status := UNKNOWN,
      downloadProgress := 0.0)
  }

  /** The two mappers agree on an entry with a package name and http(s)
      icon and download URLs; they differ only in fallbacks. */
  lemma MappersAgree(dto: AppPackageDto, installedVersion: Option<string>, now: nat)
    requires !IsBlank(dto.androidPackageName)
    requires !IsBlank(dto.icon) && IsValidUrl(dto.icon)
    requires !IsBlank(dto.latestVersionUrl) && IsValidUrl(dto.latestVersionUrl)
    ensures ToDomainModel(dto, installedVersion, now) == ExtToDomainModel(dto, installedVersion, now)
  {
  }

  /** For a blank icon the class mapper shows a placeholder and the extension none. */
  lemma MappersDifferOnBlankIcon(dto: AppPackageDto, installedVersion: Option<string>, now: nat)
    requires IsBlank(dto.icon)
    ensures ToDomainModel(dto, installedVersion, now).iconUrl != ExtToDomainModel(dto, installedVersion, now).iconUrl
  {
    assert ToDomainModel(dto, installedVersion, now).iconUrl != "";
  }

  /** The extension `AppResponseDto.toDomainModel`: `mapNotNull` over entries
      whose mapping never fails, so no entry is dropped. */
  function ExtToDomainModels(response: AppResponseDto, now: nat): (apps: seq<RevancedApp>)
    ensures |apps| == |response.packages|
    ensures forall i :: 0 <= i < |apps| ==> apps[i] == ExtToDomainModel(response.packages[i], None, now)
  {
    seq(|response.packages|, i requires 0 <= i < |response.packages| => ExtToDomainModel(response.packages[i], None, now))
  }
}

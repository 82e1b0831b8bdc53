/** The app's preferences: one key/value store (Android `SharedPreferences`)
    with typed reads and writes, the configuration (theme, language, compact
    layout) kept under three fixed keys, the first-run flag, one pending
    install path per package and the auto-install switch. */
module Preferences {
  import opened Util

  type Int32 = x: int | -0x8000_0000 <= x < 0x8000_0000
  type Int64 = x: int | -0x8000_0000_0000_0000 <= x < 0x8000_0000_0000_0000

  /** A stored value keeps the type it was written with; `Float` is read as
      a real. */
  datatype PrefValue =
    | StringValue(s: string)
    | IntValue(i: Int32)
    | LongValue(l: Int64)
    | BoolValue(b: bool)
    | FloatValue(f: real)

  type Store = map<string, PrefValue>

  const CACHED_APP_LIST_KEY: string := "cached_app_list"
  const THEME_MODE_KEY: string := "theme_mode"
  const LANGUAGE_KEY: string := "language"
  const COMPACT_MODE_KEY: string := "compact_mode"
  const FIRST_RUN_KEY: string := "first_run"
  const PENDING_INSTALL_PREFIX: string := "pending_install_"
  const AUTO_INSTALL_KEY: string := "auto_install_enabled"

  /** The platform throws when a key holds a value of another type than the
      one read; every typed read demands that it does not. */
  predicate HoldsString(store: Store, key: string) { key !in store || store[key].StringValue? }
  predicate HoldsInt(store: Store, key: string) { key !in store || store[key].IntValue? }
  predicate HoldsLong(store: Store, key: string) { key !in store || store[key].LongValue? }
  predicate HoldsBool(store: Store, key: string) { key !in store || store[key].BoolValue? }
  predicate HoldsFloat(store: Store, key: string) { key !in store || store[key].FloatValue? }

  function GetString(store: Store, key: string, default: string): (v: string)
    requires HoldsString(store, key)
    ensures key !in store ==> v == default
    ensures key in store ==> store[key] == StringValue(v)
  {
    if key in store then store[key].s else default
  }

  function GetInt(store: Store, key: string, default: Int32): (v: Int32)
    requires HoldsInt(store, key)
    ensures key !in store ==> v == default
    ensures key in store ==> store[key] == IntValue(v)
  {
    if key in store then store[key].i else default
  }

  function GetLong(store: Store, key: string, default: Int64): (v: Int64)
    requires HoldsLong(store, key)
    ensures key !in store ==> v == default
    ensures key in store ==> store[key] == LongValue(v)
  {
    if key in store then store[key].l else default
  }

  function GetBool(store: Store, key: string, default: bool): (v: bool)
    requires HoldsBool(store, key)
    ensures key !in store ==> v == default
    ensures key in store ==> store[key] == BoolValue(v)
  {
    if key in store then store[key].b else default
  }

  function GetFloat(store: Store, key: string, default: real): (v: real)
    requires HoldsFloat(store, key)
    ensures key !in store ==> v == default
    ensures key in store ==> store[key] == FloatValue(v)
  {
    if key in store then store[key].f else default
  }

  /** Reading a key right after writing it gives back the written value,
      whatever default is supplied; writing one key leaves the reads of
      every other key as they were. */
  lemma ReadAfterWrite(store: Store, key: string, other: string, s: string, i: Int32, l: Int64, b: bool, f: real, d: string)
    ensures GetString(store[key := StringValue(s)], key, d) == s
    ensures GetInt(store[key := IntValue(i)], key, 0) == i
    ensures GetLong(store[key := LongValue(l)], key, 0) == l
    ensures GetBool(store[key := BoolValue(b)], key, !b) == b
    ensures GetFloat(store[key := FloatValue(f)], key, f + 1.0) == f
    ensures other != key && HoldsString(store, other) ==> GetString(store[key := StringValue(s)], other, d) == GetString(store, other, d)
    ensures HoldsString(store - {key}, key) && GetString(store - {key}, key, d) == d
  {
  }

  /** `ThemeMode`. */
  datatype ThemeMode = LIGHT | DARK | SYSTEM

  function ThemeName(t: ThemeMode): string
  {
    match t
    case LIGHT => "LIGHT"
    case DARK => "DARK"
    case SYSTEM => "SYSTEM"
  }

  /** `ThemeMode.valueOf(name)` with DARK for any name that is not exactly
      one of the three. */
  function ThemeFromName(name: string): (t: ThemeMode)
    ensures ThemeName(t) == name || t == DARK
  {
    if name == "LIGHT" then LIGHT
    else if name == "DARK" then DARK
    else if name == "SYSTEM" then SYSTEM
    else DARK
  }

  lemma ThemeRoundTrip(t: ThemeMode)
    ensures ThemeFromName(ThemeName(t)) == t
  {
  }

  /** A name that is none of the three reads as DARK. */
  lemma UnknownThemeIsDark(name: string)
    requires forall u: ThemeMode :: ThemeName(u) != name
    ensures ThemeFromName(name) == DARK
  {
    assert ThemeName(ThemeFromName(name)) != name;
  }

  /** `Language`, in declaration order. */
  datatype Language =
    | ENGLISH | VIETNAMESE | CHINESE | HINDI | INDONESIAN | PORTUGUESE_BR | TURKISH
    | SPANISH_MX | KOREAN | FRENCH | POLISH | GERMAN | MALAY | ITALIAN | FILIPINO
    | BENGALI | RUSSIAN | ROMANIAN | SPANISH_PE | SPANISH_ES | ARABIC

  function Code(l: Language): string
  {
    match l
    case ENGLISH => "en"
    case VIETNAMESE => "vi"
    case CHINESE => "zh"
    case HINDI => "hi"
    case INDONESIAN => "id"
    case PORTUGUESE_BR => "pt"
    case TURKISH => "tr"
    case SPANISH_MX => "es"
    case KOREAN => "ko"
    case FRENCH => "fr"
    case POLISH => "pl"
    case GERMAN => "de"
    case MALAY => "ms"
    case ITALIAN => "it"
    case FILIPINO => "tl"
    case BENGALI => "bn"
    case RUSSIAN => "ru"
    case ROMANIAN => "ro"
    case SPANISH_PE => "es-PE"
    case SPANISH_ES => "es-ES"
    case ARABIC => "ar"
  }

  /** The first language, in declaration order, whose code equals `code`
      exactly; ENGLISH when there is none. */
  function LanguageFromCode(code: string): (l: Language)
    ensures Code(l) == code || l == ENGLISH
  {
    if code == "en" then ENGLISH
    else if code == "vi" then VIETNAMESE
    else if code == "zh" then CHINESE
    else if code == "hi" then HINDI
    else if code == "id" then INDONESIAN
    else if code == "pt" then PORTUGUESE_BR
    else if code == "tr" then TURKISH
    else if code == "es" then SPANISH_MX
    else if code == "ko" then KOREAN
    else if code == "fr" then FRENCH
    else if code == "pl" then POLISH
    else if code == "de" then GERMAN
    else if code == "ms" then MALAY
    else if code == "it" then ITALIAN
    else if code == "tl" then FILIPINO
    else if code == "bn" then BENGALI
    else if code == "ru" then RUSSIAN
    else if code == "ro" then ROMANIAN
    else if code == "es-PE" then SPANISH_PE
    else if code == "es-ES" then SPANISH_ES
    else if code == "ar" then ARABIC
    else ENGLISH
  }

  lemma LanguageRoundTrip(l: Language)
    ensures LanguageFromCode(Code(l)) == l
  {
    match l {
      case ENGLISH => case VIETNAMESE => case CHINESE => case HINDI => case INDONESIAN =>
      case PORTUGUESE_BR => case TURKISH => case SPANISH_MX => case KOREAN => case FRENCH =>
      case POLISH => case GERMAN => case MALAY => case ITALIAN => case FILIPINO =>
      case BENGALI => case RUSSIAN => case ROMANIAN => case SPANISH_PE => case SPANISH_ES =>
      case ARABIC =>
    }
  }

  /** A code no language has reads as ENGLISH. */
  lemma UnknownCodeIsEnglish(code: string)
    requires forall u: Language :: Code(u) != code
    ensures LanguageFromCode(code) == ENGLISH
  {
    assert Code(LanguageFromCode(code)) != code;
  }

  /** No two languages share a code, so the first-match lookup finds the
      only match. */
  lemma CodesDistinct(a: Language, b: Language)
    requires a != b
    ensures Code(a) != Code(b)
  {
    LanguageRoundTrip(a);
    LanguageRoundTrip(b);
  }

  /** `AppConfig` with the three fields the app builds and copies. */
  datatype AppConfig = AppConfig(themeMode: ThemeMode, language: Language, compactMode: bool)

  /** The keys `getAppConfig` reads hold values of the types it reads. */
  predicate ConfigKeysTyped(store: Store)
  {
    && HoldsString(store, THEME_MODE_KEY) && HoldsString(store, LANGUAGE_KEY)
    && HoldsBool(store, COMPACT_MODE_KEY) && HoldsBool(store, FIRST_RUN_KEY)
  }

  /** The configuration `getAppConfig` returns for a store: each field read
      with its fallback (DARK, ENGLISH, compact). */
  function ConfigOf(store: Store): (c: AppConfig)
    requires ConfigKeysTyped(store)
    ensures THEME_MODE_KEY !in store ==> c.themeMode == DARK
    ensures LANGUAGE_KEY !in store ==> c.language == ENGLISH
    ensures COMPACT_MODE_KEY !in store ==> c.compactMode
    ensures c.themeMode == ThemeFromName(GetString(store, THEME_MODE_KEY, "DARK"))
    ensures c.language == LanguageFromCode(GetString(store, LANGUAGE_KEY, "en"))
    ensures c.compactMode == GetBool(store, COMPACT_MODE_KEY, true)
  {
    AppConfig(
      ThemeFromName(GetString(store, THEME_MODE_KEY, ThemeName(DARK))),
      LanguageFromCode(GetString(store, LANGUAGE_KEY, Code(ENGLISH))),
      GetBool(store, COMPACT_MODE_KEY, true))
  }

  /** The store after `saveAppConfig(c)`. */
  function SavedConfig(store: Store, c: AppConfig): (s: Store)
    ensures s.Keys == store.Keys + {THEME_MODE_KEY, LANGUAGE_KEY, COMPACT_MODE_KEY}
    ensures forall k :: k in store && k != THEME_MODE_KEY && k != LANGUAGE_KEY && k != COMPACT_MODE_KEY ==> s[k] == store[k]
  {
    store[THEME_MODE_KEY := StringValue(ThemeName(c.themeMode))]
         [LANGUAGE_KEY := StringValue(Code(c.language))]
         [COMPACT_MODE_KEY := BoolValue(c.compactMode)]
  }

  /** Saving a configuration and reading it back gives the same
      configuration. */
  lemma SaveThenGet(store: Store, c: AppConfig)
    requires HoldsBool(store, FIRST_RUN_KEY)
    ensures ConfigKeysTyped(SavedConfig(store, c))
    ensures ConfigOf(SavedConfig(store, c)) == c
  {
    var s := SavedConfig(store, c);
    assert s[THEME_MODE_KEY] == StringValue(ThemeName(c.themeMode));
    assert s[LANGUAGE_KEY] == StringValue(Code(c.language));
    assert s[COMPACT_MODE_KEY] == BoolValue(c.compactMode);
    ThemeRoundTrip(c.themeMode);
    LanguageRoundTrip(c.language);
  }

  /** The store after the first-run bookkeeping of `getAppConfig`: the flag
      is written false when it reads true (absent counts as true). */
  function AfterFirstRunCheck(store: Store): (s: Store)
    requires HoldsBool(store, FIRST_RUN_KEY)
    ensures HoldsBool(s, FIRST_RUN_KEY) && GetBool(s, FIRST_RUN_KEY, true) == false
    ensures s - {FIRST_RUN_KEY} == store - {FIRST_RUN_KEY}
  {
    if GetBool(store, FIRST_RUN_KEY, true) then store[FIRST_RUN_KEY := BoolValue(false)] else store
  }

  /** The first-run bookkeeping does not change the configuration, so
      reading it twice gives the same answer twice. */
  lemma FirstRunCheckKeepsConfig(store: Store)
    requires ConfigKeysTyped(store)
    ensures ConfigKeysTyped(AfterFirstRunCheck(store))
    ensures ConfigOf(AfterFirstRunCheck(store)) == ConfigOf(store)
    ensures AfterFirstRunCheck(AfterFirstRunCheck(store)) == AfterFirstRunCheck(store)
  {
    var s := AfterFirstRunCheck(store);
    assert THEME_MODE_KEY != FIRST_RUN_KEY && LANGUAGE_KEY != FIRST_RUN_KEY && COMPACT_MODE_KEY != FIRST_RUN_KEY;
    assert forall k :: k != FIRST_RUN_KEY ==> (k in s <==> k in store) by {
      forall k | k != FIRST_RUN_KEY ensures k in s <==> k in store {
        assert k in s <==> k in s - {FIRST_RUN_KEY};
        assert k in store <==> k in store - {FIRST_RUN_KEY};
      }
    }
    assert THEME_MODE_KEY in s ==> s[THEME_MODE_KEY] == (s - {FIRST_RUN_KEY})[THEME_MODE_KEY];
    assert LANGUAGE_KEY in s ==> s[LANGUAGE_KEY] == (s - {FIRST_RUN_KEY})[LANGUAGE_KEY];
    assert COMPACT_MODE_KEY in s ==> s[COMPACT_MODE_KEY] == (s - {FIRST_RUN_KEY})[COMPACT_MODE_KEY];
  }

  /** The key of a package's pending install path. */
  function PendingKey(pkg: string): (k: string)
    ensures |k| == |PENDING_INSTALL_PREFIX| + |pkg| && k[|PENDING_INSTALL_PREFIX|..] == pkg
  {
    PENDING_INSTALL_PREFIX + pkg
  }

  /** Pending-install keys are one per package and never one of the fixed
      keys. */
  lemma PendingKeysSeparate(p: string, q: string)
    ensures p != q ==> PendingKey(p) != PendingKey(q)
    ensures PendingKey(p) !in {CACHED_APP_LIST_KEY, THEME_MODE_KEY, LANGUAGE_KEY, COMPACT_MODE_KEY, FIRST_RUN_KEY, AUTO_INSTALL_KEY}
  {
    if PendingKey(p) == PendingKey(q) {
      assert p == PendingKey(p)[|PENDING_INSTALL_PREFIX|..] == PendingKey(q)[|PENDING_INSTALL_PREFIX|..] == q;
    }
    assert PendingKey(p)[0] == 'p';
    assert |PendingKey(p)| >= 16;
  }

  /** `getPendingInstallPath`: the stored path, or none when nothing or an
      empty string is stored. */
  function PendingInstallPath(store: Store, pkg: string): (path: Option<string>)
    requires HoldsString(store, PendingKey(pkg))
    ensures path.None? <==> PendingKey(pkg) !in store || store[PendingKey(pkg)] == StringValue("")
    ensures path.Some? ==> store[PendingKey(pkg)] == StringValue(path.value) && path.value != ""
  {
    var path := GetString(store, PendingKey(pkg), "");
    if path == "" then None else Some(path)
  }

  /** `hasPendingInstall`. */
  predicate HasPendingInstall(store: Store, pkg: string)
    requires HoldsString(store, PendingKey(pkg))
  {
    PendingInstallPath(store, pkg).Some?
  }

  /** Saving a pending path for p makes p pending exactly when the path is
      not empty, and leaves every other package's pending path alone. */
  lemma SavePendingInstallFacts(store: Store, p: string, q: string, path: string)
    requires HoldsString(store, PendingKey(q))
    ensures PendingInstallPath(store[PendingKey(p) := StringValue(path)], p) == (if path == "" then None else Some(path))
    ensures p != q ==> PendingInstallPath(store[PendingKey(p) := StringValue(path)], q) == PendingInstallPath(store, q)
  {
    PendingKeysSeparate(p, q);
  }

  /** `isAutoInstallEnabled`: on unless switched off. */
  function AutoInstallEnabled(store: Store): (on: bool)
    requires HoldsBool(store, AUTO_INSTALL_KEY)
    ensures AUTO_INSTALL_KEY !in store ==> on
    ensures on <==> AUTO_INSTALL_KEY !in store || store[AUTO_INSTALL_KEY] == BoolValue(true)
  {
    GetBool(store, AUTO_INSTALL_KEY, true)
  }

  /** `PreferencesManager` over its backing store. */
  class PreferencesManager {
    var store: Store

    constructor (initial: Store)
      ensures store == initial
    {
      store := initial;
    }

    method SaveString(key: string, value: string)
      modifies this
      ensures store == old(store)[key := StringValue(value)]
    {
      store := store[key := StringValue(value)];
    }

    method GetStringValue(key: string, default: string) returns (v: string)
      requires HoldsString(store, key)
      ensures v == GetString(store, key, default)
    {
      v := GetString(store, key, default);
    }

    method SaveInt(key: string, value: Int32)
      modifies this
      ensures store == old(store)[key := IntValue(value)]
    {
      store := store[key := IntValue(value)];
    }

    method GetIntValue(key: string, default: Int32) returns (v: Int32)
      requires HoldsInt(store, key)
      ensures v == GetInt(store, key, default)
    {
      v := GetInt(store, key, default);
    }

    method SaveBoolean(key: string, value: bool)
      modifies this
      ensures store == old(store)[key := BoolValue(value)]
    {
      store := store[key := BoolValue(value)];
    }

    method GetBooleanValue(key: string, default: bool) returns (v: bool)
      requires HoldsBool(store, key)
      ensures v == GetBool(store, key, default)
    {
      v := GetBool(store, key, default);
    }

    method SaveLong(key: string, value: Int64)
      modifies this
      ensures store == old(store)[key := LongValue(value)]
    {
      store := store[key := LongValue(value)];
    }

    method GetLongValue(key: string, default: Int64) returns (v: Int64)
      requires HoldsLong(store, key)
      ensures v == GetLong(store, key, default)
    {
      v := GetLong(store, key, default);
    }

    method SaveFloat(key: string, value: real)
      modifies this
      ensures store == old(store)[key := FloatValue(value)]
    {
      store := store[key := FloatValue(value)];
    }

    method GetFloatValue(key: string, default: real) returns (v: real)
      requires HoldsFloat(store, key)
      ensures v == GetFloat(store, key, default)
    {
      v := GetFloat(store, key, default);
    }

    /** `removeKey`: drops that key and no other. */
    method RemoveKey(key: string)
      modifies this
      ensures store == old(store) - {key}
    {
      store := store - {key};
    }

    method ClearAll()
      modifies this
      ensures store == map[]
    {
      store := map[];
    }

    method SaveCachedAppList(json: string)
      modifies this
      ensures store == old(store)[CACHED_APP_LIST_KEY := StringValue(json)]
    {
      SaveString(CACHED_APP_LIST_KEY, json);
    }

    /** The cached list, or the empty string when none was saved. */
    method GetCachedAppList() returns (json: string)
      requires HoldsString(store, CACHED_APP_LIST_KEY)
      ensures CACHED_APP_LIST_KEY !in store ==> json == ""
      ensures CACHED_APP_LIST_KEY in store ==> store[CACHED_APP_LIST_KEY] == StringValue(json)
    {
      json := GetStringValue(CACHED_APP_LIST_KEY, "");
    }

    method SaveAppConfig(c: AppConfig)
      modifies this
      ensures store == SavedConfig(old(store), c)
    {
      SaveString(THEME_MODE_KEY, ThemeName(c.themeMode));
      SaveString(LANGUAGE_KEY, Code(c.language));
      SaveBoolean(COMPACT_MODE_KEY, c.compactMode);
    }

    /** `getAppConfig`: reads the three fields with their fallbacks and
        clears the first-run flag. */
    method GetAppConfig() returns (c: AppConfig)
      requires ConfigKeysTyped(store)
      modifies this
      ensures c == ConfigOf(old(store))
      ensures store == AfterFirstRunCheck(old(store))
    {
      var themeModeString := GetStringValue(THEME_MODE_KEY, ThemeName(DARK));
      var languageCode := GetStringValue(LANGUAGE_KEY, Code(ENGLISH));
      var firstRun := GetBooleanValue(FIRST_RUN_KEY, true);
      if firstRun {
        SaveBoolean(FIRST_RUN_KEY, false);
      }
      var themeMode := ThemeFromName(themeModeString);
      var language := LanguageFromCode(languageCode);
      assert COMPACT_MODE_KEY != FIRST_RUN_KEY;
      var compactMode := GetBooleanValue(COMPACT_MODE_KEY, true);
      c := AppConfig(themeMode, language, compactMode);
    }

    method SavePendingInstall(pkg: string, filePath: string)
      modifies this
      ensures store == old(store)[PendingKey(pkg) := StringValue(filePath)]
    {
      SaveString(PENDING_INSTALL_PREFIX + pkg, filePath);
    }

    method GetPendingInstallPath(pkg: string) returns (path: Option<string>)
      requires HoldsString(store, PendingKey(pkg))
      ensures path == PendingInstallPath(store, pkg)
    {
      var s := GetStringValue(PENDING_INSTALL_PREFIX + pkg, "");
      path := if s == "" then None else Some(s);
    }

    method HasPendingInstallFor(pkg: string) returns (pending: bool)
      requires HoldsString(store, PendingKey(pkg))
      ensures pending <==> PendingKey(pkg) in store && store[PendingKey(pkg)] != StringValue("")
    {
      var path := GetPendingInstallPath(pkg);
      pending := path.Some?;
    }

    method SetAutoInstallEnabled(enabled: bool)
      modifies this
      ensures store == old(store)[AUTO_INSTALL_KEY := BoolValue(enabled)]
    {
      SaveBoolean(AUTO_INSTALL_KEY, enabled);
    }

    method IsAutoInstallEnabled() returns (on: bool)
      requires HoldsBool(store, AUTO_INSTALL_KEY)
      ensures on == AutoInstallEnabled(store)
    {
      on := GetBooleanValue(AUTO_INSTALL_KEY, true);
    }
  }
}

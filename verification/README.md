# ReVanced Manager, modelled in Dafny

ReVanced Manager is an Android app that lists the patched ReVanced apps,
compares each with the version installed on the device, downloads the APKs
in a foreground service and hands each completed download to the platform
package installer as soon as it is queued, several at a time. This project models the engine behind that screen and
proves what it promises:

- **Versions** — `compareVersions`, the dotted-numeric comparison every status
  decision rests on. The app has three textually identical copies of it:
  `GetAppsUseCase.kt:57-86`, `AppRepositoryImpl.kt:390-419` and
  `AppBloc.kt:1475-1504`. One recursive definition is proved equal to the
  loop as written, and its algebra is proved: range, reflexivity,
  antisymmetry, transitivity away from the empty string, and the failure of
  transitivity through it.
- **Catalog** — the domain model, the three-way status rule and the stable
  sort of `GetAppsUseCase.invoke`.
- **Mapper** — `AppMapper`: DTO to app with its fallbacks, the list filter,
  and the extension mappers.
- **AppRepository** — the repository's pure parts: attaching installed
  versions, the ABI endpoint choice, the refresh status mapping, the cache
  lists as written (status against the raw version code) beside a corrected
  version of them (status against the shown version), and the
  `getUpdatedApps` diff.
- **DownloadStore** — the Room table of download states, as a class over a
  map keyed by package name (`DownloadStateDao`), and the repository class
  over it (`DownloadStateRepository`).
- **Installer** — the decoding of an install session's status broadcast into
  an `InstallationResult`, and the failure contract of `installApp`.
- **Transfer** — `DownloadService`'s bookkeeping: the duplicate guard, the
  per-package progress records, the copy loop's throttle, throughput and
  cancellation, the completed/failed partition and the summary text.
- **DownloadManager** — `SimpleDownloadManager`'s map of downloads.
- **Preferences** — `PreferencesManager`: a typed key/value store, and the
  configuration, pending-install and auto-install keys.
- **Bloc** — `AppBloc`, the orchestrator, as a class with the same fields as
  the source. Each callback the source receives asynchronously is one method,
  and each method is specified by a function on a value snapshot
  (`Bloc.Fields`) of those fields. The installation queue, retry bound, user
  abort, timeout, lifecycle reset and foreground resume are proved about those
  functions.

The clock, the set of files on disk and the versions the package manager
reports are parameters: `now`, `files`, and `installed`/`device`. The order in
which the source walks a map or a query result is a parameter too, a list
that enumerates the keys. Toasts, dialogs and install requests are recorded
as output tokens.

## Model

| member | source | states |
|---|---|---|
| Util.Split | app/src/main/java/com/revanced/net/revancedmanager/domain/usecase/GetAppsUseCase.kt:63-68 | `split(".")` gives at least one part, no part holds the delimiter, and joining the parts with it gives back the input |
| Util.SplitJoin | app/src/main/java/com/revanced/net/revancedmanager/domain/usecase/GetAppsUseCase.kt:63-68 | splitting a join of delimiter-free parts returns exactly those parts (the other half of the round trip) |
| Util.LastSegment | app/src/main/java/com/revanced/net/revancedmanager/data/mapper/AppMapper.kt:33-35 | `split(".").last()` is the text after the last dot, or the whole input when there is none; it never holds a dot and is never longer than the input |
| Util.Take | app/src/main/java/com/revanced/net/revancedmanager/data/mapper/AppMapper.kt:136-143 | `take(n)` is a prefix of the input of length min(n, length) |
| Util.Upper | app/src/main/java/com/revanced/net/revancedmanager/data/mapper/AppMapper.kt:136-143 | `uppercase()` keeps the length and maps every character by the ASCII case rule |
| Util.NatToString | app/src/main/java/com/revanced/net/revancedmanager/data/manager/DownloadService.kt:341-346 | the decimal count text is digits only, non-empty, without a leading zero (its value is `Versions.NatToStringValue`) |
| Util.IntToString | app/src/main/java/com/revanced/net/revancedmanager/data/manager/DownloadService.kt:229-231 | the HTTP code text starts with '-' exactly when the code is negative, and the rest is the rendering of its magnitude |
| Versions.NatToStringValue | app/src/main/java/com/revanced/net/revancedmanager/data/manager/DownloadService.kt:341-346 | the decimal text of a count, read back as digits, is that count |
| Versions.NatToStringInjective | app/src/main/java/com/revanced/net/revancedmanager/data/manager/DownloadService.kt:341-346 | two counts render to the same text exactly when they are equal |
| Versions.IntToStringValue | app/src/main/java/com/revanced/net/revancedmanager/data/manager/DownloadService.kt:229-231 | the digits of the HTTP code text denote the code, after the minus sign when it is negative |
| Versions.LeadingDigits | app/src/main/java/com/revanced/net/revancedmanager/domain/usecase/GetAppsUseCase.kt:64 | `takeWhile { isDigit }` is a digit-only prefix and stops at the first non-digit |
| Versions.DigitPart | app/src/main/java/com/revanced/net/revancedmanager/domain/usecase/GetAppsUseCase.kt:63-65 | `ifEmpty { "0" }` makes every part a non-empty digit run |
| Versions.LongOrZero | app/src/main/java/com/revanced/net/revancedmanager/domain/usecase/GetAppsUseCase.kt:73-74 | `toLongOrNull() ?: 0L` is the run's value when it fits a Long, and 0 otherwise; never above Long.MAX_VALUE |
| Versions.DigitParts | app/src/main/java/com/revanced/net/revancedmanager/domain/usecase/GetAppsUseCase.kt:63-68 | one digit part per dot-separated part, in order |
| Versions.Segments | app/src/main/java/com/revanced/net/revancedmanager/domain/usecase/GetAppsUseCase.kt:63-74 | one number in [0, Long.MAX_VALUE] per part |
| Versions.CompareSegments | app/src/main/java/com/revanced/net/revancedmanager/domain/usecase/GetAppsUseCase.kt:70-82 | the result is -1, 0 or 1, and 0 only for lists of equal length |
| Versions.Compare | app/src/main/java/com/revanced/net/revancedmanager/domain/usecase/GetAppsUseCase.kt:57-86 | the result is -1, 0 or 1, and 0 whenever either version is the empty string |
| Versions.CompareLoop | app/src/main/java/com/revanced/net/revancedmanager/data/repository/AppRepositoryImpl.kt:390-419 | the copy as written (empty check, split, loop) returns exactly `Compare` |
| Versions.ComparePartsLoop | app/src/main/java/com/revanced/net/revancedmanager/presentation/bloc/AppBloc.kt:1488-1500 | the loop with its early returns and final size comparison equals the part-by-part comparison |
| Versions.CompareReflexive | app/src/main/java/com/revanced/net/revancedmanager/domain/usecase/GetAppsUseCase.kt:57-86 | every version compares equal to itself |
| Versions.CompareAntisymmetric | app/src/main/java/com/revanced/net/revancedmanager/domain/usecase/GetAppsUseCase.kt:57-86 | swapping the arguments negates the result |
| Versions.CompareZeroIff | app/src/main/java/com/revanced/net/revancedmanager/domain/usecase/GetAppsUseCase.kt:70-82 | two non-empty versions are equal exactly when they read off the same numbers, in both directions |
| Versions.CompareTransitive | app/src/main/java/com/revanced/net/revancedmanager/domain/usecase/GetAppsUseCase.kt:57-86 | "not older than" is transitive among non-empty versions |
| Versions.CompareNotTransitiveThroughEmpty | app/src/main/java/com/revanced/net/revancedmanager/domain/usecase/GetAppsUseCase.kt:58-60 | "1" ties with "" and "" ties with "2", yet "1" is older than "2" |
| Versions.CompareSegmentsPrefix | app/src/main/java/com/revanced/net/revancedmanager/domain/usecase/GetAppsUseCase.kt:82 | when one list of parts is a proper prefix of the other, the shorter is older |
| Versions.CompareSegmentsFirstDifference | app/src/main/java/com/revanced/net/revancedmanager/domain/usecase/GetAppsUseCase.kt:72-80 | the first differing part decides, whatever follows it |
| Versions.CompareNumericParts | app/src/main/java/com/revanced/net/revancedmanager/domain/usecase/GetAppsUseCase.kt:72-80 | "1.2.10" is newer than "1.2.9": parts compare as numbers, not text |
| Versions.CompareMorePartsNewer | app/src/main/java/com/revanced/net/revancedmanager/domain/usecase/GetAppsUseCase.kt:82 | "2.0" is newer than "2" |
| Versions.CompareLeadingLetter | app/src/main/java/com/revanced/net/revancedmanager/domain/usecase/GetAppsUseCase.kt:64 | a part with no leading digits reads as 0, so "v1.2" is older than "1.2" |
| Versions.CompareOverflowingPart | app/src/main/java/com/revanced/net/revancedmanager/domain/usecase/GetAppsUseCase.kt:73-74 | a run larger than Long.MAX_VALUE reads as 0, so such a version is older than "1" |
| Catalog.StatusFor | app/src/main/java/com/revanced/net/revancedmanager/domain/usecase/GetAppsUseCase.kt:93-99 | the status is one of the three settled ones; NOT_INSTALLED exactly when nothing is installed; UPDATE_AVAILABLE exactly when the installed version is older |
| Catalog.StatusForSameVersion | app/src/main/java/com/revanced/net/revancedmanager/domain/usecase/GetAppsUseCase.kt:93-99 | the latest version installed, or an empty installed version, gives UP_TO_DATE |
| Catalog.SortAppsCorrect | app/src/main/java/com/revanced/net/revancedmanager/domain/usecase/GetAppsUseCase.kt:30-42 | the sort orders by (group, index), is a permutation, and is stable: apps with the same key keep their input order |
| Catalog.WithDerivedStatus | app/src/main/java/com/revanced/net/revancedmanager/domain/usecase/GetAppsUseCase.kt:29 | every app is kept in place, with its status replaced by the derived one |
| Catalog.GetApps | app/src/main/java/com/revanced/net/revancedmanager/domain/usecase/GetAppsUseCase.kt:24-49 | Error and Loading pass through; Success yields a stably sorted permutation of the apps with recomputed statuses |
| Catalog.InstalledFirst | app/src/main/java/com/revanced/net/revancedmanager/domain/usecase/GetAppsUseCase.kt:31-37 | after sorting, every installed app comes before every app that is not installed |
| Mapper.LiteralsNotBlank | app/src/main/java/com/revanced/net/revancedmanager/data/mapper/AppMapper.kt:28-40 | the fallback version, description and package names are not blank |
| Mapper.DefaultIconUrl | app/src/main/java/com/revanced/net/revancedmanager/data/mapper/AppMapper.kt:136-143 | the placeholder is a valid https URL: the base followed by at most two characters |
| Mapper.ToDomainModelFacts | app/src/main/java/com/revanced/net/revancedmanager/data/mapper/AppMapper.kt:25-57 | package name, version and description are never blank; a blank package name becomes "unknown.package.<time>"; the title is blank only when both the name and its fallback are; URLs are valid or empty; index is at least 0; status UNKNOWN; currentVersion is the argument |
| Mapper.ValidApps | app/src/main/java/com/revanced/net/revancedmanager/data/mapper/AppMapper.kt:62-91 | the filtered list is no longer than the package list |
| Mapper.ToDomainModels | app/src/main/java/com/revanced/net/revancedmanager/data/mapper/AppMapper.kt:62-91 | the `forEachIndexed` loop builds exactly `ValidApps`, and every app kept is valid and has no installed version |
| Mapper.ValidAppsAreValid | app/src/main/java/com/revanced/net/revancedmanager/data/mapper/AppMapper.kt:116-120 | every app in the result passes `isValidApp` |
| Mapper.ValidAppsKeeps | app/src/main/java/com/revanced/net/revancedmanager/data/mapper/AppMapper.kt:69-86 | a package whose title is not blank is always kept, since the other checked fields always get non-blank fallbacks |
| Mapper.ValidAppsSound | app/src/main/java/com/revanced/net/revancedmanager/data/mapper/AppMapper.kt:69-86 | every app in the result is the mapping of some input package |
| Mapper.ExtToDomainModel | app/src/main/java/com/revanced/net/revancedmanager/data/mapper/AppMapper.kt:150-183 | the extension mapper keeps any non-blank icon or download URL without a scheme check; blank ones become "" |
| Mapper.MappersAgree | app/src/main/java/com/revanced/net/revancedmanager/data/mapper/AppMapper.kt:150-183 | on a named package with valid non-blank URLs the two mappers give the same app |
| Mapper.MappersDifferOnBlankIcon | app/src/main/java/com/revanced/net/revancedmanager/data/mapper/AppMapper.kt:162 | on a blank icon the two mappers disagree (placeholder versus "") |
| Mapper.ExtToDomainModels | app/src/main/java/com/revanced/net/revancedmanager/data/mapper/AppMapper.kt:189-202 | the extension list mapper drops nothing and keeps the order |
| AppRepository.AttachVersions | app/src/main/java/com/revanced/net/revancedmanager/data/repository/AppRepositoryImpl.kt:73-76 | same length and order; every app gets its installed version and nothing else changes |
| AppRepository.ChooseEndpointPriority | app/src/main/java/com/revanced/net/revancedmanager/data/repository/AppRepositoryImpl.kt:173-199 | the endpoint is that of the first supported ABI in the priority order, and the fallback exactly when none is supported |
| AppRepository.CacheEntry | app/src/main/java/com/revanced/net/revancedmanager/data/repository/AppRepositoryImpl.kt:232-258 | an entry is dropped exactly when its package or app name is blank; a kept one has the derived status, the installed version, a non-blank latest version and an index of at least 0 |
| AppRepository.NotOlderThanBlank | app/src/main/java/com/revanced/net/revancedmanager/data/repository/AppRepositoryImpl.kt:255 | no version is older than a blank one |
| AppRepository.BlankCodeIsAlwaysUpToDate | app/src/main/java/com/revanced/net/revancedmanager/data/repository/AppRepositoryImpl.kt:253-257 | as written, an installed app whose version code is blank is always UP_TO_DATE |
| AppRepository.BlankCodeMasksUpdate | app/src/main/java/com/revanced/net/revancedmanager/data/repository/AppRepositoryImpl.kt:246-257 | as written, an installed version older than the "1.0.0" shown is still UP_TO_DATE, where the corrected entry gives UPDATE_AVAILABLE |
| AppRepository.BlankCodeMasksUpdateExample | app/src/main/java/com/revanced/net/revancedmanager/data/repository/AppRepositoryImpl.kt:253-257 | a concrete package with a blank code and "0.5" installed shows the discrepancy |
| AppRepository.CacheEntryAgreesOnNonBlankCode | app/src/main/java/com/revanced/net/revancedmanager/data/repository/AppRepositoryImpl.kt:253-257 | the corrected entry differs from the code as written only when the version code is blank |
| AppRepository.CacheEntryAsWritten | app/src/main/java/com/revanced/net/revancedmanager/data/repository/AppRepositoryImpl.kt:232-258 | as written, an entry is dropped exactly when its package or app name is blank; a kept one has the installed version, the code or "1.0.0" when the code is blank as its latest version, and the derived status whenever the code is not blank |
| AppRepository.AsWrittenStatus | app/src/main/java/com/revanced/net/revancedmanager/data/repository/AppRepositoryImpl.kt:253-257 | as written, a kept entry's status is the derived one, or UP_TO_DATE on a record that shows "1.0.0" because its code is blank |
| AppRepository.CacheApps | app/src/main/java/com/revanced/net/revancedmanager/data/repository/AppRepositoryImpl.kt:313-338 | the cached list as written is no longer than the packages; each app carries its derived status or is UP_TO_DATE while showing "1.0.0" |
| AppRepository.CacheAppsCorrected | app/src/main/java/com/revanced/net/revancedmanager/data/repository/AppRepositoryImpl.kt:313-338 | the corrected cached list is no longer than the packages, and every app in it carries its derived status |
| AppRepository.CorrectedRederivesCacheApps | app/src/main/java/com/revanced/net/revancedmanager/data/repository/AppRepositoryImpl.kt:313-338 | the corrected list is the list as written, in the same order, with only each status derived again |
| AppRepository.CacheAppsAgreeOnCodes | app/src/main/java/com/revanced/net/revancedmanager/data/repository/AppRepositoryImpl.kt:333-337 | when every cached entry has a version code, the list as written equals the corrected one |
| AppRepository.CacheAppsMasksUpdateExample | app/src/main/java/com/revanced/net/revancedmanager/data/repository/AppRepositoryImpl.kt:333-337 | a cache holding YouTube without a version code and "0.5" installed gives UP_TO_DATE as written and UPDATE_AVAILABLE corrected |
| AppRepository.CacheAppsKeeps | app/src/main/java/com/revanced/net/revancedmanager/data/repository/AppRepositoryImpl.kt:318-321 | every package with a non-blank package and app name is kept in the list as written |
| AppRepository.CacheAppsDrops | app/src/main/java/com/revanced/net/revancedmanager/data/repository/AppRepositoryImpl.kt:313-321 | every app in the list as written is the entry of some cached package |
| AppRepository.RefreshStatuses | app/src/main/java/com/revanced/net/revancedmanager/data/repository/AppRepositoryImpl.kt:290-300 | the refresh keeps length and order, sets the installed version and the derived status, and changes nothing else |
| AppRepository.FindByPackage | app/src/main/java/com/revanced/net/revancedmanager/data/repository/AppRepositoryImpl.kt:364 | `find` returns the first app with that package, or null exactly when there is none |
| AppRepository.UpdatedApps | app/src/main/java/com/revanced/net/revancedmanager/data/repository/AppRepositoryImpl.kt:360-382 | the result is no longer than the new list, and every app in it has changes |
| AppRepository.GetUpdatedApps | app/src/main/java/com/revanced/net/revancedmanager/data/repository/AppRepositoryImpl.kt:360-382 | the `forEach`/`add` loop builds exactly `UpdatedApps` |
| AppRepository.UpdatedAppsComplete | app/src/main/java/com/revanced/net/revancedmanager/data/repository/AppRepositoryImpl.kt:363-378 | every new app that is new or differs from its first old namesake is reported |
| AppRepository.UpdatedAppsFromNew | app/src/main/java/com/revanced/net/revancedmanager/data/repository/AppRepositoryImpl.kt:363-378 | every reported app is a new app with changes |
| AppRepository.CosmeticChangesIgnored | app/src/main/java/com/revanced/net/revancedmanager/data/repository/AppRepositoryImpl.kt:367-372 | changes only to status, icon, microG flag, index or progress never make an app count as updated |
| Installer.ErrorText | app/src/main/java/com/revanced/net/revancedmanager/data/manager/PackageInstaller.kt:208-216 | a status without a fixed text passes the raw message through |
| Installer.FixedTextsDistinct | app/src/main/java/com/revanced/net/revancedmanager/data/manager/PackageInstaller.kt:208-216 | the six fixed error texts are pairwise distinct |
| Installer.Decode | app/src/main/java/com/revanced/net/revancedmanager/data/manager/PackageInstaller.kt:161-228 | one result per broadcast: PendingUserAction exactly for status -1 or a missing status; Success exactly for 0; any other is Failed with that code and its error text; a missing package becomes "Unknown package" |
| Installer.DecodeRoundTrip | app/src/main/java/com/revanced/net/revancedmanager/data/manager/PackageInstaller.kt:168-227 | the decoded result gives back the status code and package name, and the raw message for codes without fixed text |
| Installer.MissingStatusIsPending | app/src/main/java/com/revanced/net/revancedmanager/data/manager/PackageInstaller.kt:163-170 | a missing status decodes exactly as the pending-user-action code |
| Installer.InstallApp | app/src/main/java/com/revanced/net/revancedmanager/data/manager/PackageInstaller.kt:65-149 | success returns true and emits nothing; any exception returns false and emits exactly one Failed with code -1, whose text is "Installation failed: " for I/O errors and "Unexpected error: " otherwise, followed by the exception message ("null" when it has none) |
| Installer.SessionFailureDistinguishable | app/src/main/java/com/revanced/net/revancedmanager/data/manager/PackageInstaller.kt:119-148 | a failure `installApp` emits can never be mistaken for a decoded broadcast |
| DownloadStore.StatusPartition | app/src/main/java/com/revanced/net/revancedmanager/data/local/database/DownloadStateEntity.kt:27-30 | the three status filters split the table into disjoint parts that cover it |
| DownloadStore.Upsert | app/src/main/java/com/revanced/net/revancedmanager/data/local/database/DownloadStateDao.kt:27-28 | insert-or-replace: the key maps to the new row, every other row is kept, one row per key |
| DownloadStore.Replace | app/src/main/java/com/revanced/net/revancedmanager/data/local/database/DownloadStateDao.kt:30-31 | update changes only the row with the same key and adds none |
| DownloadStore.SetStatus | app/src/main/java/com/revanced/net/revancedmanager/data/local/database/DownloadStateDao.kt:33-34 | only status and updatedAt of the matching row change; no row means no change |
| DownloadStore.SetProgress | app/src/main/java/com/revanced/net/revancedmanager/data/local/database/DownloadStateDao.kt:36-37 | only progress and updatedAt of the matching row change; no row means no change |
| DownloadStore.SetCompleted | app/src/main/java/com/revanced/net/revancedmanager/data/local/database/DownloadStateDao.kt:39-40 | only status, filePath and updatedAt of the matching row change |
| DownloadStore.SetFailed | app/src/main/java/com/revanced/net/revancedmanager/data/local/database/DownloadStateDao.kt:42-43 | only status, errorMessage and updatedAt of the matching row change |
| DownloadStore.WithoutStatus | app/src/main/java/com/revanced/net/revancedmanager/data/local/database/DownloadStateDao.kt:48-49 | exactly the rows with that status are removed |
| DownloadStore.NewDownload | app/src/main/java/com/revanced/net/revancedmanager/data/repository/DownloadStateRepository.kt:27-37 | a new record is DOWNLOADING at progress 0 with no file and no error, created and updated now |
| DownloadStore.StartKeepsConsistent | app/src/main/java/com/revanced/net/revancedmanager/data/repository/DownloadStateRepository.kt:27-37 | starting a download keeps every completed row with a path and every failed row with a message |
| DownloadStore.UsableCompleted | app/src/main/java/com/revanced/net/revancedmanager/data/repository/DownloadStateRepository.kt:73-94 | exactly the COMPLETED rows whose path is set and exists |
| DownloadStore.Purged | app/src/main/java/com/revanced/net/revancedmanager/data/repository/DownloadStateRepository.kt:78-88 | exactly the COMPLETED rows whose set path is missing are deleted |
| DownloadStore.PurgeFacts | app/src/main/java/com/revanced/net/revancedmanager/data/repository/DownloadStateRepository.kt:73-94 | completed rows without a path are excluded but kept; other statuses are untouched; the purge is idempotent |
| DownloadStore.PurgeLeavesOnlyUsable | app/src/main/java/com/revanced/net/revancedmanager/data/repository/DownloadStateRepository.kt:73-94 | after the purge, the completed rows of a consistent table are exactly the usable ones |
| DownloadStore.Swept | app/src/main/java/com/revanced/net/revancedmanager/data/repository/DownloadStateRepository.kt:121-135 | exactly the FAILED rows older than 24 hours are deleted |
| DownloadStore.SweepFacts | app/src/main/java/com/revanced/net/revancedmanager/data/repository/DownloadStateRepository.kt:121-135 | the sweep never touches DOWNLOADING or COMPLETED rows, and an earlier sweep is subsumed by a later one |
| DownloadStore.StartThenComplete | app/src/main/java/com/revanced/net/revancedmanager/data/repository/DownloadStateRepository.kt:27-56 | a started then completed download is usable, keeps its URL, name and creation time, and has no error |
| DownloadStore.DownloadStateDao.GetAllDownloadStates | app/src/main/java/com/revanced/net/revancedmanager/data/local/database/DownloadStateDao.kt:12-13 | returns the whole table |
| DownloadStore.DownloadStateDao.GetDownloadStatesByStatus | app/src/main/java/com/revanced/net/revancedmanager/data/local/database/DownloadStateDao.kt:15-16 | returns exactly the rows with that status |
| DownloadStore.DownloadStateDao.GetDownloadStateByPackage | app/src/main/java/com/revanced/net/revancedmanager/data/local/database/DownloadStateDao.kt:18-19 | returns the key's row, or null exactly when there is none |
| DownloadStore.DownloadStateDao.GetCompletedDownloads | app/src/main/java/com/revanced/net/revancedmanager/data/local/database/DownloadStateDao.kt:21-22 | returns exactly the COMPLETED rows |
| DownloadStore.DownloadStateDao.GetActiveDownloads | app/src/main/java/com/revanced/net/revancedmanager/data/local/database/DownloadStateDao.kt:24-25 | returns exactly the DOWNLOADING rows |
| DownloadStore.DownloadStateDao.InsertDownloadState | app/src/main/java/com/revanced/net/revancedmanager/data/local/database/DownloadStateDao.kt:27-28 | the table becomes `Upsert` of the old one; one row per key is kept |
| DownloadStore.DownloadStateDao.UpdateDownloadState | app/src/main/java/com/revanced/net/revancedmanager/data/local/database/DownloadStateDao.kt:30-31 | the table becomes `Replace` of the old one |
| DownloadStore.DownloadStateDao.UpdateDownloadStatus | app/src/main/java/com/revanced/net/revancedmanager/data/local/database/DownloadStateDao.kt:33-34 | the table becomes `SetStatus` of the old one |
| DownloadStore.DownloadStateDao.UpdateDownloadProgress | app/src/main/java/com/revanced/net/revancedmanager/data/local/database/DownloadStateDao.kt:36-37 | the table becomes `SetProgress` of the old one |
| DownloadStore.DownloadStateDao.MarkDownloadCompleted | app/src/main/java/com/revanced/net/revancedmanager/data/local/database/DownloadStateDao.kt:39-40 | the table becomes `SetCompleted` of the old one |
| DownloadStore.DownloadStateDao.MarkDownloadFailed | app/src/main/java/com/revanced/net/revancedmanager/data/local/database/DownloadStateDao.kt:42-43 | the table becomes `SetFailed` of the old one |
| DownloadStore.DownloadStateDao.DeleteDownloadState | app/src/main/java/com/revanced/net/revancedmanager/data/local/database/DownloadStateDao.kt:45-46 | only the key's row is removed; an absent key changes nothing |
| DownloadStore.DownloadStateDao.DeleteDownloadStatesByStatus | app/src/main/java/com/revanced/net/revancedmanager/data/local/database/DownloadStateDao.kt:48-49 | the table becomes `WithoutStatus` of the old one |
| DownloadStore.DownloadStateDao.ClearAllDownloadStates | app/src/main/java/com/revanced/net/revancedmanager/data/local/database/DownloadStateDao.kt:51-52 | the table is empty |
| DownloadStore.DownloadStateRepository.StartDownload | app/src/main/java/com/revanced/net/revancedmanager/data/repository/DownloadStateRepository.kt:27-37 | the package's record is replaced by a fresh DOWNLOADING record |
| DownloadStore.DownloadStateRepository.UpdateDownloadProgress | app/src/main/java/com/revanced/net/revancedmanager/data/repository/DownloadStateRepository.kt:42-44 | only the package's progress and update time change |
| DownloadStore.DownloadStateRepository.MarkDownloadCompleted | app/src/main/java/com/revanced/net/revancedmanager/data/repository/DownloadStateRepository.kt:49-56 | an existing record becomes COMPLETED with the path and keeps its other fields; no record, no change |
| DownloadStore.DownloadStateRepository.MarkDownloadFailed | app/src/main/java/com/revanced/net/revancedmanager/data/repository/DownloadStateRepository.kt:61-68 | an existing record becomes FAILED with the message and keeps its other fields |
| DownloadStore.DownloadStateRepository.GetCompletedDownloads | app/src/main/java/com/revanced/net/revancedmanager/data/repository/DownloadStateRepository.kt:73-94 | returns exactly the usable completed records and deletes the completed ones whose file is missing |
| DownloadStore.DownloadStateRepository.GetActiveDownloads | app/src/main/java/com/revanced/net/revancedmanager/data/repository/DownloadStateRepository.kt:99-101 | returns exactly the DOWNLOADING records |
| DownloadStore.DownloadStateRepository.GetDownloadState | app/src/main/java/com/revanced/net/revancedmanager/data/repository/DownloadStateRepository.kt:106-108 | returns the package's record, or null exactly when there is none |
| DownloadStore.DownloadStateRepository.RemoveDownloadState | app/src/main/java/com/revanced/net/revancedmanager/data/repository/DownloadStateRepository.kt:113-116 | only the package's record is removed |
| DownloadStore.DownloadStateRepository.CleanupOldFailedDownloads | app/src/main/java/com/revanced/net/revancedmanager/data/repository/DownloadStateRepository.kt:121-135 | the deleting loop leaves exactly `Swept` of the old table |
| DownloadStore.DownloadStateRepository.HasPendingDownloads | app/src/main/java/com/revanced/net/revancedmanager/data/repository/DownloadStateRepository.kt:140-144 | true exactly when a usable completed or a DOWNLOADING record exists; performs the same purge |
| DownloadStore.DownloadStateRepository.ClearAllDownloadStates | app/src/main/java/com/revanced/net/revancedmanager/data/repository/DownloadStateRepository.kt:149-157 | the store is empty |
| Transfer.Percent | app/src/main/java/com/revanced/net/revancedmanager/data/manager/DownloadService.kt:257-259 | the percentage is in [0, 100]: 0 without a known length, exactly downloaded/total x 100 up to the announced length, and clamped to 100 by `coerceIn` when more bytes arrive than announced |
| Transfer.Speed | app/src/main/java/com/revanced/net/revancedmanager/data/manager/DownloadService.kt:261-263 | the throughput is bytes x 1000 / elapsed in integer division, and 0 when no time has elapsed |
| Transfer.PublicationsSpaced | app/src/main/java/com/revanced/net/revancedmanager/data/manager/DownloadService.kt:256 | publications are more than 500 ms apart, at most one per read, and never report more than was read |
| Transfer.SparseReadsAllPublished | app/src/main/java/com/revanced/net/revancedmanager/data/manager/DownloadService.kt:256 | when reads are more than 500 ms apart, every read is published |
| Transfer.ReadsWritten | app/src/main/java/com/revanced/net/revancedmanager/data/manager/DownloadService.kt:246-250 | the loop never writes more reads than the body has |
| Transfer.CopyLoop | app/src/main/java/com/revanced/net/revancedmanager/data/manager/DownloadService.kt:246-287 | the read loop stops exactly when the job is cancelled, counts exactly the bytes written, and publishes exactly the throttled samples |
| Transfer.FinishedProgress | app/src/main/java/com/revanced/net/revancedmanager/data/manager/DownloadService.kt:135-168 | a finished record is complete; success gives the file and 100 with no error, an error gives the message and 0 with no file |
| Transfer.CompletedFailedPartition | app/src/main/java/com/revanced/net/revancedmanager/data/manager/DownloadService.kt:195-201 | completed and failed are disjoint and together make up the finished records |
| Transfer.SummaryText | app/src/main/java/com/revanced/net/revancedmanager/data/manager/DownloadService.kt:334-393 | "All downloads finished" when nothing is active or finished; "N downloads active" when only active ones exist |
| Transfer.IdleSummaryCases | app/src/main/java/com/revanced/net/revancedmanager/data/manager/DownloadService.kt:341-346 | with nothing active the text is the "finished" one exactly when nothing finished, ends in "failed" exactly when some failed, and in "completed" exactly when some completed and none failed |
| Transfer.FetchResult | app/src/main/java/com/revanced/net/revancedmanager/data/manager/DownloadService.kt:211-299 | success exactly for a 2xx response with a body and no cancellation, at the package's APK path; "HTTP Error: <code>" otherwise; the exception message or "Download failed" when one is thrown |
| Transfer.StatusLine | app/src/main/java/com/revanced/net/revancedmanager/data/manager/DownloadService.kt:265-267 | as written, the line starts with the bytes so far; with a known length it ends with " / " and the total, and the speed is shown exactly when the length is unknown |
| Transfer.StatusLineIntended | app/src/main/java/com/revanced/net/revancedmanager/data/manager/DownloadService.kt:265-267 | the intended line: the bytes so far, the total when the length is known, and always the speed at the end |
| Transfer.StatusLinesAgree | app/src/main/java/com/revanced/net/revancedmanager/data/manager/DownloadService.kt:265-267 | the line as written equals the intended one exactly when the length is unknown |
| Transfer.StatusLineHidesSpeedExample | app/src/main/java/com/revanced/net/revancedmanager/data/manager/DownloadService.kt:265-267 | 1 MiB of a 2 MiB file at 512 KiB/s gives a line without the speed, where the intended line ends with it |
| Transfer.DownloadService.OnStartCommand | app/src/main/java/com/revanced/net/revancedmanager/data/manager/DownloadService.kt:89-111 | a request without package or URL, or for an active package, changes nothing, the published records and the summary included; otherwise one job is registered, its record starts at 0 and is published, the store row is started, and the first job brings the service to the foreground with the "Preparing downloads..." summary |
| Transfer.DownloadService.DownloadFile | app/src/main/java/com/revanced/net/revancedmanager/data/manager/DownloadService.kt:211-299 | returns `FetchResult`; the APK file exists exactly after success; the last published sample is the package's progress, is pushed to the published records and refreshes the summary; without a sample both stay as they were |
| Transfer.DownloadService.CopyAndPublish | app/src/main/java/com/revanced/net/revancedmanager/data/manager/DownloadService.kt:246-287 | reports the cancellation and leaves the last published sample in the record, the published records and the store, with the summary refreshed; without a sample nothing changes |
| Transfer.DownloadService.RunJob | app/src/main/java/com/revanced/net/revancedmanager/data/manager/DownloadService.kt:122-184 | the job removes its own package from the active set whatever the result, records the finished progress, updates the store and broadcasts, and schedules the batch check exactly when nothing is left active |
| Transfer.DownloadService.FinishJob | app/src/main/java/com/revanced/net/revancedmanager/data/manager/DownloadService.kt:135-180 | the bookkeeping of the success, error and finally branches |
| Transfer.DownloadService.UpdateSummaryNotification | app/src/main/java/com/revanced/net/revancedmanager/data/manager/DownloadService.kt:334-393 | the notification text is `SummaryText` of the current counts |
| Transfer.DownloadService.CheckAllDownloadsComplete | app/src/main/java/com/revanced/net/revancedmanager/data/manager/DownloadService.kt:190-209 | with downloads still active nothing changes; otherwise the completed and failed lists are broadcast, the records cleared and the service stopped; the published records, the summary and the foreground flag are left as they were |
| Transfer.DownloadService.GetActiveDownloads | app/src/main/java/com/revanced/net/revancedmanager/data/manager/DownloadService.kt:448 | returns the progress records |
| DownloadManager.Converted | app/src/main/java/com/revanced/net/revancedmanager/data/manager/SimpleDownloadManager.kt:142-159 | a service record becomes an entry with no URL, the percentage over 100, completion and file copied |
| DownloadManager.Snapshot | app/src/main/java/com/revanced/net/revancedmanager/data/manager/SimpleDownloadManager.kt:142-159 | one entry per service record and no other |
| DownloadManager.ObservedFacts | app/src/main/java/com/revanced/net/revancedmanager/data/manager/SimpleDownloadManager.kt:84-91 | the flow yields the package's entry, or a default at 0 % with the requested URL that is not complete |
| DownloadManager.SnapshotActive | app/src/main/java/com/revanced/net/revancedmanager/data/manager/SimpleDownloadManager.kt:117-159 | after a snapshot a package is active exactly when the service holds an incomplete record for it |
| DownloadManager.FinishedJobNotActive | app/src/main/java/com/revanced/net/revancedmanager/data/manager/SimpleDownloadManager.kt:142-159 | a finished job is never active after the next snapshot; a successful one shows 1.0 and its file |
| DownloadManager.CancelFacts | app/src/main/java/com/revanced/net/revancedmanager/data/manager/SimpleDownloadManager.kt:97-112 | cancelling makes the package inactive and keeps every other entry; cancelling all leaves nothing active |
| DownloadManager.SimpleDownloadManager.DownloadApp | app/src/main/java/com/revanced/net/revancedmanager/data/manager/SimpleDownloadManager.kt:70-92 | hands exactly one start request to the service, binds, and returns the observed entry |
| DownloadManager.SimpleDownloadManager.CancelDownload | app/src/main/java/com/revanced/net/revancedmanager/data/manager/SimpleDownloadManager.kt:97-104 | removes exactly that package's entry |
| DownloadManager.SimpleDownloadManager.CancelAllDownloads | app/src/main/java/com/revanced/net/revancedmanager/data/manager/SimpleDownloadManager.kt:109-112 | the map is empty |
| DownloadManager.SimpleDownloadManager.IsDownloadActive | app/src/main/java/com/revanced/net/revancedmanager/data/manager/SimpleDownloadManager.kt:117-120 | true exactly when an entry exists and it is not complete |
| DownloadManager.SimpleDownloadManager.GetActiveDownloads | app/src/main/java/com/revanced/net/revancedmanager/data/manager/SimpleDownloadManager.kt:125-127 | returns the map |
| DownloadManager.SimpleDownloadManager.OnSnapshot | app/src/main/java/com/revanced/net/revancedmanager/data/manager/SimpleDownloadManager.kt:138-169 | the map becomes `Snapshot` of the service records, and the completed packages are scheduled for removal |
| DownloadManager.SimpleDownloadManager.OnCompletedExpired | app/src/main/java/com/revanced/net/revancedmanager/data/manager/SimpleDownloadManager.kt:162-169 | the delayed removal drops only that package |
| Preferences.GetString | app/src/main/java/com/revanced/net/revancedmanager/data/local/preferences/PreferencesManager.kt:41-43 | an absent key gives the default, a present one its stored string |
| Preferences.GetInt | app/src/main/java/com/revanced/net/revancedmanager/data/local/preferences/PreferencesManager.kt:49-51 | an absent key gives the default, a present one its stored Int |
| Preferences.GetLong | app/src/main/java/com/revanced/net/revancedmanager/data/local/preferences/PreferencesManager.kt:65-67 | an absent key gives the default, a present one its stored Long |
| Preferences.GetBool | app/src/main/java/com/revanced/net/revancedmanager/data/local/preferences/PreferencesManager.kt:57-59 | an absent key gives the default, a present one its stored Boolean |
| Preferences.GetFloat | app/src/main/java/com/revanced/net/revancedmanager/data/local/preferences/PreferencesManager.kt:73-75 | an absent key gives the default, a present one its stored Float |
| Preferences.ReadAfterWrite | app/src/main/java/com/revanced/net/revancedmanager/data/local/preferences/PreferencesManager.kt:37-83 | reading a key after saving it gives the saved value of every type; other keys are unaffected; a removed key gives the default |
| Preferences.ThemeFromName | app/src/main/java/com/revanced/net/revancedmanager/data/local/preferences/PreferencesManager.kt:160-176 | the theme is the one with exactly that name, or DARK |
| Preferences.ThemeRoundTrip | app/src/main/java/com/revanced/net/revancedmanager/data/local/preferences/PreferencesManager.kt:108 | parsing a theme's saved name gives the theme back |
| Preferences.UnknownThemeIsDark | app/src/main/java/com/revanced/net/revancedmanager/data/local/preferences/PreferencesManager.kt:170-175 | a name no theme has gives DARK |
| Preferences.LanguageFromCode | app/src/main/java/com/revanced/net/revancedmanager/data/local/preferences/PreferencesManager.kt:179-192 | the language is the one with exactly that code, or ENGLISH |
| Preferences.LanguageRoundTrip | app/src/main/java/com/revanced/net/revancedmanager/data/local/preferences/PreferencesManager.kt:109 | parsing a language's saved code gives the language back |
| Preferences.UnknownCodeIsEnglish | app/src/main/java/com/revanced/net/revancedmanager/data/local/preferences/PreferencesManager.kt:184-191 | a code no language has gives ENGLISH |
| Preferences.CodesDistinct | app/src/main/java/com/revanced/net/revancedmanager/domain/model/AppConfig.kt:26-46 | the language codes are pairwise distinct |
| Preferences.ConfigOf | app/src/main/java/com/revanced/net/revancedmanager/data/local/preferences/PreferencesManager.kt:142-203 | absent keys give DARK, ENGLISH and compact mode on; present ones are read and parsed with those fallbacks, compact mode included |
| Preferences.SavedConfig | app/src/main/java/com/revanced/net/revancedmanager/data/local/preferences/PreferencesManager.kt:102-120 | saving a configuration writes its three keys and keeps every other key |
| Preferences.SaveThenGet | app/src/main/java/com/revanced/net/revancedmanager/data/local/preferences/PreferencesManager.kt:108-110 | reading the configuration after saving it gives it back |
| Preferences.AfterFirstRunCheck | app/src/main/java/com/revanced/net/revancedmanager/data/local/preferences/PreferencesManager.kt:153-157 | after the check the first-run flag reads false and no other key changed |
| Preferences.FirstRunCheckKeepsConfig | app/src/main/java/com/revanced/net/revancedmanager/data/local/preferences/PreferencesManager.kt:125-157 | the first-run update never changes the configuration read, and a second check changes nothing |
| Preferences.PendingKey | app/src/main/java/com/revanced/net/revancedmanager/data/local/preferences/PreferencesManager.kt:209 | the pending-install key is the prefix followed by the package name |
| Preferences.PendingKeysSeparate | app/src/main/java/com/revanced/net/revancedmanager/data/local/preferences/PreferencesManager.kt:208-210 | different packages have different pending keys, and none is a configuration key |
| Preferences.PendingInstallPath | app/src/main/java/com/revanced/net/revancedmanager/data/local/preferences/PreferencesManager.kt:215-218 | null exactly when the stored path is absent or empty; otherwise the stored path |
| Preferences.SavePendingInstallFacts | app/src/main/java/com/revanced/net/revancedmanager/data/local/preferences/PreferencesManager.kt:208-225 | saving a path makes it the package's pending path (none if empty) and leaves other packages' paths alone |
| Preferences.AutoInstallEnabled | app/src/main/java/com/revanced/net/revancedmanager/data/local/preferences/PreferencesManager.kt:237-239 | on exactly when unset or saved as true |
| Preferences.PreferencesManager.SaveString | app/src/main/java/com/revanced/net/revancedmanager/data/local/preferences/PreferencesManager.kt:37-39 | the key now holds that string |
| Preferences.PreferencesManager.GetStringValue | app/src/main/java/com/revanced/net/revancedmanager/data/local/preferences/PreferencesManager.kt:41-43 | returns `GetString` |
| Preferences.PreferencesManager.SaveInt | app/src/main/java/com/revanced/net/revancedmanager/data/local/preferences/PreferencesManager.kt:45-47 | the key now holds that Int |
| Preferences.PreferencesManager.GetIntValue | app/src/main/java/com/revanced/net/revancedmanager/data/local/preferences/PreferencesManager.kt:49-51 | returns `GetInt` |
| Preferences.PreferencesManager.SaveBoolean | app/src/main/java/com/revanced/net/revancedmanager/data/local/preferences/PreferencesManager.kt:53-55 | the key now holds that Boolean |
| Preferences.PreferencesManager.GetBooleanValue | app/src/main/java/com/revanced/net/revancedmanager/data/local/preferences/PreferencesManager.kt:57-59 | returns `GetBool` |
| Preferences.PreferencesManager.SaveLong | app/src/main/java/com/revanced/net/revancedmanager/data/local/preferences/PreferencesManager.kt:61-63 | the key now holds that Long |
| Preferences.PreferencesManager.GetLongValue | app/src/main/java/com/revanced/net/revancedmanager/data/local/preferences/PreferencesManager.kt:65-67 | returns `GetLong` |
| Preferences.PreferencesManager.SaveFloat | app/src/main/java/com/revanced/net/revancedmanager/data/local/preferences/PreferencesManager.kt:69-71 | the key now holds that Float |
| Preferences.PreferencesManager.GetFloatValue | app/src/main/java/com/revanced/net/revancedmanager/data/local/preferences/PreferencesManager.kt:73-75 | returns `GetFloat` |
| Preferences.PreferencesManager.RemoveKey | app/src/main/java/com/revanced/net/revancedmanager/data/local/preferences/PreferencesManager.kt:77-79 | only that key is deleted |
| Preferences.PreferencesManager.ClearAll | app/src/main/java/com/revanced/net/revancedmanager/data/local/preferences/PreferencesManager.kt:81-83 | the store is empty |
| Preferences.PreferencesManager.SaveCachedAppList | app/src/main/java/com/revanced/net/revancedmanager/data/local/preferences/PreferencesManager.kt:88-90 | the cache key holds the JSON |
| Preferences.PreferencesManager.GetCachedAppList | app/src/main/java/com/revanced/net/revancedmanager/data/local/preferences/PreferencesManager.kt:95-97 | the cached JSON, or "" when none is stored |
| Preferences.PreferencesManager.SaveAppConfig | app/src/main/java/com/revanced/net/revancedmanager/data/local/preferences/PreferencesManager.kt:102-120 | the store becomes `SavedConfig` of the old one |
| Preferences.PreferencesManager.GetAppConfig | app/src/main/java/com/revanced/net/revancedmanager/data/local/preferences/PreferencesManager.kt:142-203 | returns the configuration the store held and clears the first-run flag |
| Preferences.PreferencesManager.SavePendingInstall | app/src/main/java/com/revanced/net/revancedmanager/data/local/preferences/PreferencesManager.kt:208-210 | the package's pending key holds the path |
| Preferences.PreferencesManager.GetPendingInstallPath | app/src/main/java/com/revanced/net/revancedmanager/data/local/preferences/PreferencesManager.kt:215-218 | returns `PendingInstallPath` |
| Preferences.PreferencesManager.HasPendingInstallFor | app/src/main/java/com/revanced/net/revancedmanager/data/local/preferences/PreferencesManager.kt:223-225 | true exactly when a non-empty path is stored for the package |
| Preferences.PreferencesManager.SetAutoInstallEnabled | app/src/main/java/com/revanced/net/revancedmanager/data/local/preferences/PreferencesManager.kt:230-232 | the auto-install key holds the flag |
| Preferences.PreferencesManager.IsAutoInstallEnabled | app/src/main/java/com/revanced/net/revancedmanager/data/local/preferences/PreferencesManager.kt:237-239 | returns `AutoInstallEnabled`, true when unset |
| Bloc.FindApp | app/src/main/java/com/revanced/net/revancedmanager/presentation/bloc/AppBloc.kt:730 | `find` gives the first app with that package, or null exactly when there is none |
| Bloc.Patched | app/src/main/java/com/revanced/net/revancedmanager/presentation/bloc/AppBloc.kt:1408-1437 | a patch changes only status, progress or installed version; name, title, versions, index and URLs are kept |
| Bloc.Updated | app/src/main/java/com/revanced/net/revancedmanager/presentation/bloc/AppBloc.kt:1408-1437 | only the named app changes; every other app, the order and the length are kept |
| Bloc.FindAfterUpdate | app/src/main/java/com/revanced/net/revancedmanager/presentation/bloc/AppBloc.kt:1408-1437 | after an update the named app reads patched and every other app reads as before |
| Bloc.UpdatesCommute | app/src/main/java/com/revanced/net/revancedmanager/presentation/bloc/AppBloc.kt:1408-1437 | updates of different apps commute, and a repeated status update changes nothing more |
| Bloc.DerivedStatusAgrees | app/src/main/java/com/revanced/net/revancedmanager/presentation/bloc/AppBloc.kt:829-843 | the status written on failure and abort is the three-way rule on the installed version |
| Bloc.SuccessVersion | app/src/main/java/com/revanced/net/revancedmanager/presentation/bloc/AppBloc.kt:151 | the installed version, or "Unknown" when none is reported |
| Bloc.SuccessStatusFacts | app/src/main/java/com/revanced/net/revancedmanager/presentation/bloc/AppBloc.kt:883-929 | the success status is the three-way rule on the installed version |
| Bloc.StatusCheck | app/src/main/java/com/revanced/net/revancedmanager/presentation/bloc/AppBloc.kt:935-1017 | DOWNLOADING and INSTALLING apps are never changed; an UNINSTALLING app becomes NOT_INSTALLED with no version exactly when it is gone; any other app gets its derived status, only when it differs |
| Bloc.Enqueued | app/src/main/java/com/revanced/net/revancedmanager/presentation/bloc/AppBloc.kt:1735-1752 | queueing an already queued package changes nothing; otherwise the entry is appended; no package is ever queued twice |
| Bloc.EnqueueIdempotent | app/src/main/java/com/revanced/net/revancedmanager/presentation/bloc/AppBloc.kt:1738-1742 | queueing the same package twice is the same as once |
| Bloc.Kept | app/src/main/java/com/revanced/net/revancedmanager/presentation/bloc/AppBloc.kt:1784-1795 | `removeAll` keeps exactly the entries the test keeps, so no package appears twice |
| Bloc.KeptInOrder | app/src/main/java/com/revanced/net/revancedmanager/presentation/bloc/AppBloc.kt:1784-1795 | `removeAll` keeps the queue order: filtering two joined parts joins the filtered parts, and one entry stays exactly when the test keeps it |
| Bloc.WithoutPackage | app/src/main/java/com/revanced/net/revancedmanager/presentation/bloc/AppBloc.kt:866 | removes exactly that package's entries and keeps every other one |
| Bloc.WithoutSettled | app/src/main/java/com/revanced/net/revancedmanager/presentation/bloc/AppBloc.kt:1784-1795 | removes exactly the entries whose app is UP_TO_DATE or NOT_INSTALLED, and nothing unless the state is Success |
| Bloc.SettledDropsOnly | app/src/main/java/com/revanced/net/revancedmanager/presentation/bloc/AppBloc.kt:1784-1795 | the clean-up never queues a package that was not queued |
| Bloc.AfterFailure | app/src/main/java/com/revanced/net/revancedmanager/presentation/bloc/AppBloc.kt:822-863 | the retry dialog is shown exactly on the first failure; the count stays 0 or 1 and other packages' counts are kept |
| Bloc.RetryAlternates | app/src/main/java/com/revanced/net/revancedmanager/presentation/bloc/AppBloc.kt:849-863 | failures alternate dialog and error: after a dialog the next failure clears the count and shows no dialog |
| Bloc.AbortedCodeIsAbort | app/src/main/java/com/revanced/net/revancedmanager/presentation/bloc/AppBloc.kt:161-164 | a broadcast with the aborted status is always taken for a user abort |
| Bloc.ResetApps | app/src/main/java/com/revanced/net/revancedmanager/presentation/bloc/AppBloc.kt:264-277 | every DOWNLOADING or INSTALLING app becomes UPDATE_AVAILABLE at 0 % and every other app is kept |
| Bloc.ResetIdempotent | app/src/main/java/com/revanced/net/revancedmanager/presentation/bloc/AppBloc.kt:264-277 | resetting twice is resetting once |
| Bloc.ResumedPart | app/src/main/java/com/revanced/net/revancedmanager/presentation/bloc/AppBloc.kt:339-356 | the rows left after handling part of the active records |
| Bloc.Resumed | app/src/main/java/com/revanced/net/revancedmanager/presentation/bloc/AppBloc.kt:339-356 | a DOWNLOADING record whose file exists becomes COMPLETED; one whose file is missing is deleted; other rows are kept |
| Bloc.ResumeStep | app/src/main/java/com/revanced/net/revancedmanager/presentation/bloc/AppBloc.kt:339-356 | handling one more active record is exactly one mark-completed or one delete |
| Bloc.ResumedAll | app/src/main/java/com/revanced/net/revancedmanager/presentation/bloc/AppBloc.kt:339-356 | once every active record is handled, the rows are `Resumed` |
| Bloc.ResumeOnConsistentTable | app/src/main/java/com/revanced/net/revancedmanager/presentation/bloc/AppBloc.kt:339-356 | active records have no file, so on a consistent table the recovery deletes every one of them |
| Bloc.Queue | app/src/main/java/com/revanced/net/revancedmanager/presentation/bloc/AppBloc.kt:1735-1752 | only the queue, the app list and the outputs change, and the invariant is kept |
| Bloc.QueueFacts | app/src/main/java/com/revanced/net/revancedmanager/presentation/bloc/AppBloc.kt:1735-1767 | queueing a queued package changes nothing; otherwise one entry is appended, installation is requested and the app is INSTALLING; a repeat is a no-op |
| Bloc.ProcessNext | app/src/main/java/com/revanced/net/revancedmanager/presentation/bloc/AppBloc.kt:1773-1800 | processing the queue keeps the invariant |
| Bloc.DownloadCompleted | app/src/main/java/com/revanced/net/revancedmanager/presentation/bloc/AppBloc.kt:716-738 | handling a completion keeps the invariant |
| Bloc.DownloadCompletedOnce | app/src/main/java/com/revanced/net/revancedmanager/presentation/bloc/AppBloc.kt:716-738 | the first completion marks the package, drops it from the active downloads and queues it; a second completion changes nothing |
| Bloc.DownloadFailed | app/src/main/java/com/revanced/net/revancedmanager/presentation/bloc/AppBloc.kt:743-750 | handling a download failure keeps the invariant |
| Bloc.Cancelled | app/src/main/java/com/revanced/net/revancedmanager/presentation/bloc/AppBloc.kt:755-767 | cancelling keeps the invariant |
| Bloc.DownloadStarted | app/src/main/java/com/revanced/net/revancedmanager/presentation/bloc/AppBloc.kt:629-711 | starting a download keeps the invariant |
| Bloc.RestartAllowsCompletion | app/src/main/java/com/revanced/net/revancedmanager/presentation/bloc/AppBloc.kt:637 | a new download clears the completion marker, so its completion queues the package again |
| Bloc.DownloadUpdate | app/src/main/java/com/revanced/net/revancedmanager/presentation/bloc/AppBloc.kt:670-688 | a progress value keeps the invariant |
| Bloc.InstallSucceeded | app/src/main/java/com/revanced/net/revancedmanager/presentation/bloc/AppBloc.kt:883-929 | handling a success keeps the invariant |
| Bloc.InstallFailed | app/src/main/java/com/revanced/net/revancedmanager/presentation/bloc/AppBloc.kt:821-878 | handling a failure keeps the invariant |
| Bloc.InstallAborted | app/src/main/java/com/revanced/net/revancedmanager/presentation/bloc/AppBloc.kt:1050-1095 | handling an abort keeps the invariant |
| Bloc.ResultHandled | app/src/main/java/com/revanced/net/revancedmanager/presentation/bloc/AppBloc.kt:145-200 | handling any installer result keeps the invariant |
| Bloc.TimedOut | app/src/main/java/com/revanced/net/revancedmanager/presentation/bloc/AppBloc.kt:183-198 | the timeout keeps the invariant |
| Bloc.StartHandled | app/src/main/java/com/revanced/net/revancedmanager/presentation/bloc/AppBloc.kt:787-816 | the answer to an install start keeps the invariant |
| Bloc.FailureRouting | app/src/main/java/com/revanced/net/revancedmanager/presentation/bloc/AppBloc.kt:157-176 | a failure gives exactly one output; it is the cancelled toast exactly for a user abort, a retry dialog only for a non-abort; the package leaves the queue |
| Bloc.RetryThenGiveUp | app/src/main/java/com/revanced/net/revancedmanager/presentation/bloc/AppBloc.kt:821-878 | a first failure sets the count to 1 and shows the retry dialog; a second removes the count and shows the error; both drop the queue entry |
| Bloc.OutcomesClearRetries | app/src/main/java/com/revanced/net/revancedmanager/presentation/bloc/AppBloc.kt:1050-1095 | an abort clears the retry count, the completion marker and the queue entry and shows only the cancelled toast; an applied success clears the same |
| Bloc.TimeoutGuard | app/src/main/java/com/revanced/net/revancedmanager/presentation/bloc/AppBloc.kt:183-198 | in the background or once the package has left the queue the timeout does nothing; otherwise it aborts the installation |
| Bloc.Reset | app/src/main/java/com/revanced/net/revancedmanager/presentation/bloc/AppBloc.kt:251-285 | the cold-start reset keeps the invariant |
| Bloc.ResetFacts | app/src/main/java/com/revanced/net/revancedmanager/presentation/bloc/AppBloc.kt:251-285 | the reset empties the queue, leaves no app in flight and is idempotent |
| Bloc.Visit | app/src/main/java/com/revanced/net/revancedmanager/presentation/bloc/AppBloc.kt:326-356 | handling one record keeps the invariant and never unqueues a package |
| Bloc.VisitedFacts | app/src/main/java/com/revanced/net/revancedmanager/presentation/bloc/AppBloc.kt:326-356 | a whole pass keeps the invariant and never unqueues a package |
| Bloc.VisitedQueues | app/src/main/java/com/revanced/net/revancedmanager/presentation/bloc/AppBloc.kt:326-356 | a package queued when its record is visited stays queued to the end of the pass |
| Bloc.PassesQueueEveryFile | app/src/main/java/com/revanced/net/revancedmanager/presentation/bloc/AppBloc.kt:326-356 | every completed record with a path, and every active record whose file exists, is queued by its pass |
| Bloc.ResumeFacts | app/src/main/java/com/revanced/net/revancedmanager/presentation/bloc/AppBloc.kt:291-365 | foreground resume keeps the invariant and queues every usable completed download and every active one whose file exists |
| Bloc.Foregrounded | app/src/main/java/com/revanced/net/revancedmanager/presentation/bloc/AppBloc.kt:224-240 | after `onStart` the background flag is false |
| Bloc.StartAfterStop | app/src/main/java/com/revanced/net/revancedmanager/presentation/bloc/AppBloc.kt:224-246 | `onStart` resumes exactly when `onStop` came before it, and otherwise performs the reset and empties the queue |
| Bloc.SingleStatusFacts | app/src/main/java/com/revanced/net/revancedmanager/presentation/bloc/AppBloc.kt:935-1017 | an app in flight is left alone; any other app that is not uninstalling ends with its derived status |
| Bloc.AppBloc.constructor | app/src/main/java/com/revanced/net/revancedmanager/presentation/bloc/AppBloc.kt:55-85 | starts Loading with an empty queue, no retries, no markers and no outputs |
| Bloc.AppBloc.UpdateAppStatus | app/src/main/java/com/revanced/net/revancedmanager/presentation/bloc/AppBloc.kt:1425-1437 | the new state is `StatusSet`: only the named app's status changes |
| Bloc.AppBloc.UpdateAppProgress | app/src/main/java/com/revanced/net/revancedmanager/presentation/bloc/AppBloc.kt:1408-1420 | the new state is `ProgressSet`: only the named app's progress changes |
| Bloc.AppBloc.ShowToast | app/src/main/java/com/revanced/net/revancedmanager/presentation/bloc/AppBloc.kt:1450-1453 | one toast is added to the outputs |
| Bloc.AppBloc.TriggerInstallationImmediately | app/src/main/java/com/revanced/net/revancedmanager/presentation/bloc/AppBloc.kt:1758-1767 | the app becomes INSTALLING and the install is requested |
| Bloc.AppBloc.QueueInstallation | app/src/main/java/com/revanced/net/revancedmanager/presentation/bloc/AppBloc.kt:1735-1752 | the new state is `Queue` of the old one |
| Bloc.AppBloc.ProcessNextInstallation | app/src/main/java/com/revanced/net/revancedmanager/presentation/bloc/AppBloc.kt:1773-1800 | the new state is `ProcessNext` of the old one |
| Bloc.AppBloc.HandleDownloadCompleted | app/src/main/java/com/revanced/net/revancedmanager/presentation/bloc/AppBloc.kt:716-738 | the new state is `DownloadCompleted` of the old one |
| Bloc.AppBloc.HandleDownloadFailed | app/src/main/java/com/revanced/net/revancedmanager/presentation/bloc/AppBloc.kt:743-750 | the new state is `DownloadFailed` of the old one |
| Bloc.AppBloc.CancelDownload | app/src/main/java/com/revanced/net/revancedmanager/presentation/bloc/AppBloc.kt:755-767 | the new state is `Cancelled` of the old one, and the manager drops only that package |
| Bloc.AppBloc.DownloadApp | app/src/main/java/com/revanced/net/revancedmanager/presentation/bloc/AppBloc.kt:629-711 | the new state is `DownloadStarted` of the old one; the manager drops the old entry, gets exactly one start request and is bound, and the first value is what its flow yields |
| Bloc.AppBloc.OnDownloadUpdate | app/src/main/java/com/revanced/net/revancedmanager/presentation/bloc/AppBloc.kt:670-688 | the new state is `DownloadUpdate` of the old one |
| Bloc.AppBloc.RederiveStatus | app/src/main/java/com/revanced/net/revancedmanager/presentation/bloc/AppBloc.kt:825-846 | the app list becomes `Rederived` of the old one |
| Bloc.AppBloc.HandleInstallationSuccess | app/src/main/java/com/revanced/net/revancedmanager/presentation/bloc/AppBloc.kt:883-929 | the new state is `InstallSucceeded`; when it applies, the pending key and the stored record are removed |
| Bloc.AppBloc.HandleInstallationFailedWithRetry | app/src/main/java/com/revanced/net/revancedmanager/presentation/bloc/AppBloc.kt:821-878 | the new state is `InstallFailed`, and the stored record is removed |
| Bloc.AppBloc.HandleInstallationAborted | app/src/main/java/com/revanced/net/revancedmanager/presentation/bloc/AppBloc.kt:1050-1095 | the new state is `InstallAborted`, and the stored record is removed |
| Bloc.AppBloc.OnInstallationSucceeded | app/src/main/java/com/revanced/net/revancedmanager/presentation/bloc/AppBloc.kt:149-155 | success then queue clean-up |
| Bloc.AppBloc.OnInstallationFailed | app/src/main/java/com/revanced/net/revancedmanager/presentation/bloc/AppBloc.kt:157-176 | abort or retry path, chosen by the abort test, then queue clean-up; the stored record is removed |
| Bloc.AppBloc.OnInstallationResult | app/src/main/java/com/revanced/net/revancedmanager/presentation/bloc/AppBloc.kt:145-200 | the new state is `ResultHandled`; the store and preferences change only as the chosen handler says |
| Bloc.AppBloc.OnInstallTimeout | app/src/main/java/com/revanced/net/revancedmanager/presentation/bloc/AppBloc.kt:183-198 | the new state is `TimedOut`; the record is removed only in the foreground and while still queued |
| Bloc.AppBloc.OnInstallStart | app/src/main/java/com/revanced/net/revancedmanager/presentation/bloc/AppBloc.kt:787-816 | the new state is `StartHandled`; the record is removed unless the install started |
| Bloc.AppBloc.OnStop | app/src/main/java/com/revanced/net/revancedmanager/presentation/bloc/AppBloc.kt:242-246 | only the background flag changes, to true |
| Bloc.AppBloc.ResetAllQueuesAndPendingDownloads | app/src/main/java/com/revanced/net/revancedmanager/presentation/bloc/AppBloc.kt:251-285 | the new state is `Reset`, and the store is empty |
| Bloc.AppBloc.CheckDownloadServiceProgress | app/src/main/java/com/revanced/net/revancedmanager/presentation/bloc/AppBloc.kt:370-400 | the loop over the manager's downloads leaves exactly the service pass |
| Bloc.AppBloc.QueueCompletedDownloads | app/src/main/java/com/revanced/net/revancedmanager/presentation/bloc/AppBloc.kt:326-336 | the loop over completed records leaves exactly the completed pass |
| Bloc.AppBloc.RecoverActiveDownloads | app/src/main/java/com/revanced/net/revancedmanager/presentation/bloc/AppBloc.kt:339-356 | the loop over active records leaves exactly the active pass, and the store becomes `Resumed` |
| Bloc.AppBloc.CheckPendingDownloadsOnForeground | app/src/main/java/com/revanced/net/revancedmanager/presentation/bloc/AppBloc.kt:291-365 | the new state is `Resume`, and the store is purged, recovered and swept |
| Bloc.AppBloc.OnStart | app/src/main/java/com/revanced/net/revancedmanager/presentation/bloc/AppBloc.kt:224-240 | the new state is `Foregrounded`; the store is resumed after a stop and emptied otherwise |
| Bloc.AppBloc.UpdateSingleAppStatus | app/src/main/java/com/revanced/net/revancedmanager/presentation/bloc/AppBloc.kt:935-1017 | the new state is `SingleStatusChecked` of the old one |

## Left out

- Coroutines and timing. Each callback is one sequential method, and the
  delays (500 ms, 1 s, 2 s, 3 s, 5 s, 30 s) are not modelled. The 30-second
  timeout is its own event method, and the 5-second removal of a completed
  entry is a method of its own.
- HTTP, streams and files. A fetch is a value: a thrown exception, or a
  response with its code and a body given as the list of reads with their
  times. Files on disk are a set of paths. The install session's write and
  commit are an outcome value. Exceptions thrown in the middle of the copy
  loop are not modelled.
- Floating point. Progress is a real number, exact where Kotlin's Float
  rounds. `formatBytes`, `DecimalFormat` and the average progress of the
  summary notification are left out. The in-flight status text is a list
  of literal pieces and byte counts, each count standing for its
  `formatBytes` rendering.
- Transfer.SummaryText: states the idle texts and the plain active text. The
  "A active, C completed" text is defined but not stated as a separate
  property.
- Iteration order. `ConcurrentHashMap`, map and SQL result orders are list
  parameters that enumerate the keys. Rows are a map, not an ordered
  result.
- Versions: `isDigit` is ASCII '0'..'9', where Kotlin also accepts the other
  Unicode decimal digits. Case-insensitive `contains` and `uppercase` use
  ASCII case mapping only.
- Preferences getters: a key holding a value of another type throws
  ClassCastException in SharedPreferences. The model requires the key to
  hold the asked-for type instead of modelling the exception.
- DownloadManager.SimpleDownloadManager.DownloadApp: takes the binding as
  connected at once. In the app, `isBound` becomes true only when the
  service connects.
- Android platform calls. The package manager is a map from package to
  installed version. Notifications, broadcasts and service binding are
  recorded effects or left out. `AppManager.kt` is not part of this model.
- Localised messages are tokens. The classification of download error
  messages (memory, storage, other) in `downloadApp` is left out: the
  failure carries the message it is given.
- UI actions outside the core are not modelled:
  - `loadApps` and the background-refresh UI flow;
  - `autoInstallAllCompleted`, the public `installApp` and `retryInstallation`;
  - uninstall, reinstall and open-app;
  - dialogs and configuration saving, including the language-code cleaning.
- The log-only read of `isAutoInstallEnabled` in the bloc is left out.
- AppConfig. `AppConfig.kt` declares two fields, but `PreferencesManager`
  builds a three-field value. The model follows the code that reads and
  writes the store: theme, language and compact mode, with compact mode on
  by default.

## Findings

| source | as written | input that shows it | evidently intended | confidence | as-written member | corrected member |
|---|---|---|---|---|---|---|
| app/src/main/java/com/revanced/net/revancedmanager/data/repository/AppRepositoryImpl.kt:253-257 | the cache path compares the installed version with the raw `latestVersionCode`, and a blank code ties with every version | a package "com.google.android.youtube" named "YouTube", with a blank version code and "0.5" installed: shown at latest version "1.0.0" but UP_TO_DATE | compare with the normalised `latestVersion` ("1.0.0" for a blank code), as the refresh path does at lines 294-298, giving UPDATE_AVAILABLE | medium; not executed | AppRepository.BlankCodeMasksUpdateExample | AppRepository.CacheEntry |
| app/src/main/java/com/revanced/net/revancedmanager/data/repository/AppRepositoryImpl.kt:333-337 | the refresh fallback builds its list with the same raw-code comparison as the immediate cache path | a cache holding only "com.google.android.youtube" named "YouTube" with a blank version code, and "0.5" installed: the fallback list shows it UP_TO_DATE | derive each status from the record's own `latestVersion`, giving UPDATE_AVAILABLE | medium; not executed | AppRepository.CacheAppsMasksUpdateExample | AppRepository.CacheAppsCorrected |
| app/src/main/java/com/revanced/net/revancedmanager/data/manager/DownloadService.kt:265-267 | `"Downloaded: …" + if (totalBytes > 0) " / …" else "" + " • …/s"` parses with the speed inside the `else` branch, so the speed is shown only when the length is unknown | a response of known length 2097152 bytes, 1048576 of them read at 524288 bytes/s: the line shows the sizes and no speed | show the speed after the sizes whatever the length | high; not executed | Transfer.StatusLineHidesSpeedExample | Transfer.StatusLineIntended |

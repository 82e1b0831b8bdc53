/** The screen's state holder (`AppBloc`): the app list with per-app status
    and progress, the installation queue, the retry counts, the set of
    downloads whose completion was already handled, the running downloads
    and whether the app went to the background. Every callback of the
    original is one event method here; the installed packages are an input
    map from package name to its version name (which the platform may not
    report), and toasts and dialogs are recorded as output tokens. */
module Bloc {
  import opened Util
  import Versions
  import Catalog
  import Installer
  import DownloadStore
  import DownloadManager
  import Preferences

  type App = Catalog.RevancedApp

  /** The installed packages: present when installed, with the version name
      the platform reports, if any. */
  type Device = map<string, Option<string>>

  /** `AppState`; the dialog and the configuration it carries are left out. */
  datatype AppState = Loading | Success(apps: seq<App>) | Error(message: string)

  datatype PendingInstallation = PendingInstallation(packageName: string, filePath: string, appName: string)

  /** The localised messages the handlers show, as tokens. */
  datatype Message =
    | DownloadStarting
    | DownloadCancelled
    | DownloadCompletedInstalling
    | InstallationStarted
    | InstallationCompleted
    | InstallationCancelledByUser
    | InstallationPendingUserAction
    | AppStatusUpdated
    | UninstallationCompleted

  /** What the user sees or what is handed to the platform. */
  datatype Output =
    | Toast(message: Message)
    | ErrorShown(error: string)
    | FailureShown(error: string)
    | RetryDialog(packageName: string, error: string)
    | InstallRequested(packageName: string, filePath: string)
    | TimeoutScheduled(packageName: string)

  // ----- The app list -----

  /** `apps.find { it.packageName == pkg }`: the first app with that package. */
  function FindApp(apps: seq<App>, pkg: string): (r: Option<App>)
    ensures r.None? <==> forall i :: 0 <= i < |apps| ==> apps[i].packageName != pkg
    ensures r.Some? ==> exists i :: (
      && 0 <= i < |apps| && apps[i] == r.value && apps[i].packageName == pkg
      && forall j :: 0 <= j < i ==> apps[j].packageName != pkg)
  {
    if apps == [] then None
    else if apps[0].packageName == pkg then Some(apps[0])
    else
      var r := FindApp(apps[1..], pkg);
      assert r.Some? ==> exists i :: (
        && 0 <= i < |apps| && apps[i] == r.value && apps[i].packageName == pkg
        && forall j :: 0 <= j < i ==> apps[j].packageName != pkg) by {
        if r.Some? {
          var i :| && 0 <= i < |apps[1..]| && apps[1..][i] == r.value && apps[1..][i].packageName == pkg
                   && forall j :: 0 <= j < i ==> apps[1..][j].packageName != pkg;
          assert apps[i + 1] == r.value;
          assert forall j :: 0 <= j < i + 1 ==> apps[j].packageName != pkg by {
            forall j | 0 <= j < i + 1 ensures apps[j].packageName != pkg {
              if j > 0 { assert apps[j] == apps[1..][j - 1]; }
            }
          }
        }
      }
      r
  }

  /** The three per-app updates the handlers make with `copy`. */
  datatype Patch =
    | StatusPatch(status: Catalog.AppStatus)
    | ProgressPatch(progress: real)
    | OutcomePatch(status: Catalog.AppStatus, currentVersion: Option<string>)

  /** One app after a patch: an outcome also resets the progress to 0; the
      catalogue fields are never touched. */
  function Patched(app: App, patch: Patch): (r: App)
    ensures r.packageName == app.packageName && r.title == app.title && r.latestVersion == app.latestVersion
    ensures r.index == app.index && r.downloadUrl == app.downloadUrl && r.iconUrl == app.iconUrl
    ensures patch.StatusPatch? ==> r == app.(status := patch.status)
    ensures patch.ProgressPatch? ==> r == app.(downloadProgress := patch.progress)
    ensures patch.OutcomePatch? ==> r.status == patch.status && r.currentVersion == patch.currentVersion && r.downloadProgress == 0.0
  {
    match patch
    case StatusPatch(st) => app.(status := st)
    case ProgressPatch(p) => app.(downloadProgress := p)
    case OutcomePatch(st, v) => app.(status := st, currentVersion := v, downloadProgress := 0.0)
  }

  /** `apps.map { if (it.packageName == pkg) it.copy(...) else it }`: the
      apps of that package get the patch, every other app stays, and the
      list keeps its order and length. */
  function Updated(apps: seq<App>, pkg: string, patch: Patch): (r: seq<App>)
    ensures |r| == |apps|
    ensures forall i :: 0 <= i < |r| ==> r[i].packageName == apps[i].packageName
    ensures forall i :: 0 <= i < |r| && apps[i].packageName != pkg ==> r[i] == apps[i]
    ensures forall i :: 0 <= i < |r| && apps[i].packageName == pkg ==> r[i] == Patched(apps[i], patch)
  {
    seq(|apps|, i requires 0 <= i < |apps| => if apps[i].packageName == pkg then Patched(apps[i], patch) else apps[i])
  }

  /** After an update, looking the package up finds the patched version of
      the app found before; any other package is found as before. */
  lemma {:induction false} FindAfterUpdate(apps: seq<App>, pkg: string, patch: Patch, other: string)
    ensures FindApp(Updated(apps, pkg, patch), pkg) ==
      (if FindApp(apps, pkg).Some? then Some(Patched(FindApp(apps, pkg).value, patch)) else None)
    ensures other != pkg ==> FindApp(Updated(apps, pkg, patch), other) == FindApp(apps, other)
  {
    if apps != [] {
      var r := Updated(apps, pkg, patch);
      assert r[1..] == Updated(apps[1..], pkg, patch);
      FindAfterUpdate(apps[1..], pkg, patch, other);
    }
  }

  /** `updateAppStatus` / `updateAppProgress` / an outcome on the screen
      state: only a list on screen is changed. */
  function StateUpdated(s: AppState, pkg: string, patch: Patch): AppState
  {
    if s.Success? then Success(Updated(s.apps, pkg, patch)) else s
  }

  /** Two updates of different packages commute, and repeating a status
      update changes nothing more. */
  lemma UpdatesCommute(s: AppState, p: string, q: string, a: Patch, b: Patch)
    requires p != q
    ensures StateUpdated(StateUpdated(s, p, a), q, b) == StateUpdated(StateUpdated(s, q, b), p, a)
    ensures a.StatusPatch? ==> StateUpdated(StateUpdated(s, p, a), p, a) == StateUpdated(s, p, a)
  {
    if s.Success? {
      assert Updated(Updated(s.apps, p, a), q, b) == Updated(Updated(s.apps, q, b), p, a);
      if a.StatusPatch? {
        assert Updated(Updated(s.apps, p, a), p, a) == Updated(s.apps, p, a);
      }
    }
  }

  /** The title shown for a package, or the package name itself. */
  function AppNameFor(s: AppState, pkg: string): string
  {
    if s.Success? && FindApp(s.apps, pkg).Some? then FindApp(s.apps, pkg).value.title else pkg
  }

  // ----- Status derivation -----

  /** The version the platform reports for an installed package. */
  function InstalledVersion(device: Device, pkg: string): Option<string>
  {
    if pkg in device then device[pkg] else None
  }

  /** The handlers' own status rule: not installed, or installed without a
      version name, is NOT_INSTALLED; otherwise `when (compareVersions)`
      maps 0 and 1 to UP_TO_DATE and anything else to UPDATE_AVAILABLE. */
  function DerivedStatus(device: Device, pkg: string, latest: string): Catalog.AppStatus
  {
    if pkg !in device then Catalog.NOT_INSTALLED
    else if device[pkg].None? then Catalog.NOT_INSTALLED
    else
      var c := Versions.Compare(device[pkg].value, latest);
      if c == 0 || c == 1 then Catalog.UP_TO_DATE else Catalog.UPDATE_AVAILABLE
  }

  /** The handlers' `when (compare) { 0, 1 -> ... }` is the use case's
      `compare >= 0` rule, because the comparison only returns -1, 0 or 1. */
  lemma DerivedStatusAgrees(device: Device, pkg: string, latest: string)
    ensures DerivedStatus(device, pkg, latest) == Catalog.StatusFor(InstalledVersion(device, pkg), latest)
  {
    if pkg in device && device[pkg].Some? {
      var c := Versions.Compare(device[pkg].value, latest);
      assert c >= 0 <==> c == 0 || c == 1;
    }
  }

  /** The version `handleInstallationSuccess` is given: the reported one,
      or "Unknown". */
  function SuccessVersion(device: Device, pkg: string): (v: string)
    ensures InstalledVersion(device, pkg).Some? ==> v == InstalledVersion(device, pkg).value
    ensures InstalledVersion(device, pkg).None? ==> v == "Unknown"
  {
    if pkg in device && device[pkg].Some? then device[pkg].value else "Unknown"
  }

  /** The status after a successful install. */
  function SuccessStatus(installedVersion: string, latest: string): Catalog.AppStatus
  {
    var c := Versions.Compare(installedVersion, latest);
    if c == 0 || c == 1 then Catalog.UP_TO_DATE else Catalog.UPDATE_AVAILABLE
  }

  /** A successful install is up to date unless the reported version
      compares older than the catalogue's latest; when the platform reports
      no version the app is recorded with version "Unknown", which has no
      digits and so reads as 0. */
  lemma SuccessStatusFacts(device: Device, pkg: string, latest: string)
    ensures SuccessStatus(SuccessVersion(device, pkg), latest) == Catalog.StatusFor(Some(SuccessVersion(device, pkg)), latest)
    ensures InstalledVersion(device, pkg).Some? ==> SuccessStatus(SuccessVersion(device, pkg), latest) == DerivedStatus(device, pkg, latest)
  {
    var c := Versions.Compare(SuccessVersion(device, pkg), latest);
    assert c >= 0 <==> c == 0 || c == 1;
    DerivedStatusAgrees(device, pkg, latest);
  }

  /** What `updateSingleAppStatus` does to the app it finds: nothing while it
      downloads or installs; an uninstalling app becomes not installed once
      the package is gone; any other app takes its derived status and the
      reported version, but only when the status changes. */
  function StatusCheck(app: App, device: Device): (p: Option<Patch>)
    ensures p.Some? ==> p.value.OutcomePatch?
    ensures app.status == Catalog.DOWNLOADING || app.status == Catalog.INSTALLING ==> p.None?
    ensures app.status == Catalog.UNINSTALLING ==> (p.Some? <==> app.packageName !in device)
    ensures app.status == Catalog.UNINSTALLING && p.Some? ==> p.value == OutcomePatch(Catalog.NOT_INSTALLED, None)
    ensures app.status != Catalog.DOWNLOADING && app.status != Catalog.INSTALLING && app.status != Catalog.UNINSTALLING ==>
      var st := Catalog.StatusFor(InstalledVersion(device, app.packageName), app.latestVersion);
      (p.Some? <==> st != app.status) && (p.Some? ==> p.value == OutcomePatch(st, InstalledVersion(device, app.packageName)))
  {
    DerivedStatusAgrees(device, app.packageName, app.latestVersion);
    if app.status == Catalog.DOWNLOADING || app.status == Catalog.INSTALLING then None
    else if app.status == Catalog.UNINSTALLING then
      (if app.packageName !in device then Some(OutcomePatch(Catalog.NOT_INSTALLED, None)) else None)
    else
      var st := DerivedStatus(device, app.packageName, app.latestVersion);
      if st != app.status then Some(OutcomePatch(st, InstalledVersion(device, app.packageName))) else None
  }

  // ----- The installation queue -----

  predicate Queued(queue: seq<PendingInstallation>, pkg: string)
  {
    exists i :: 0 <= i < |queue| && queue[i].packageName == pkg
  }

  /** No package is queued twice. */
  predicate UniquePackages(queue: seq<PendingInstallation>)
  {
    forall i, j :: 0 <= i < j < |queue| ==> queue[i].packageName != queue[j].packageName
  }

  /** `queueInstallation`'s effect on the queue: an already queued package
      is left alone, a new one goes to the end. */
  function Enqueued(queue: seq<PendingInstallation>, item: PendingInstallation): (r: seq<PendingInstallation>)
    ensures Queued(r, item.packageName)
    ensures forall p :: Queued(queue, p) ==> Queued(r, p)
    ensures forall p :: Queued(r, p) ==> Queued(queue, p) || p == item.packageName
    ensures Queued(queue, item.packageName) ==> r == queue
    ensures !Queued(queue, item.packageName) ==> r == queue + [item]
    ensures UniquePackages(queue) ==> UniquePackages(r)
  {
    if Queued(queue, item.packageName) then queue
    else
      var r := queue + [item];
      assert r[|queue|] == item;
      assert forall p :: Queued(queue, p) ==> Queued(r, p) by {
        forall p | Queued(queue, p) ensures Queued(r, p) {
          var i :| 0 <= i < |queue| && queue[i].packageName == p;
          assert r[i] == queue[i];
        }
      }
      r
  }

  /** However often a package is offered, it is queued once. */
  lemma EnqueueIdempotent(queue: seq<PendingInstallation>, a: PendingInstallation, b: PendingInstallation)
    requires a.packageName == b.packageName
    ensures Enqueued(Enqueued(queue, a), b) == Enqueued(queue, a)
    ensures UniquePackages(queue) ==> UniquePackages(Enqueued(Enqueued(queue, a), b))
  {
  }

  /** `removeAll { !keep(it) }`: the entries that satisfy `keep`, in order. */
  function Kept(queue: seq<PendingInstallation>, keep: PendingInstallation -> bool): (r: seq<PendingInstallation>)
    ensures forall x :: x in r <==> x in queue && keep(x)
    ensures |r| <= |queue|
    ensures UniquePackages(queue) ==> UniquePackages(r)
  {
    if queue == [] then []
    else
      var rest := Kept(queue[1..], keep);
      if keep(queue[0]) then
        assert UniquePackages(queue) ==> forall x :: x in rest ==> x.packageName != queue[0].packageName by {
          if UniquePackages(queue) {
            forall x | x in rest ensures x.packageName != queue[0].packageName {
              var k :| 0 <= k < |queue[1..]| && queue[1..][k] == x;
              assert queue[k + 1] == x;
            }
          }
        }
        assert UniquePackages(queue) ==> UniquePackages(queue[1..]) by {
          if UniquePackages(queue) {
            forall i, j | 0 <= i < j < |queue[1..]| ensures queue[1..][i].packageName != queue[1..][j].packageName {
              assert queue[1..][i] == queue[i + 1] && queue[1..][j] == queue[j + 1];
            }
          }
        }
        var r := [queue[0]] + rest;
        assert UniquePackages(queue) ==> UniquePackages(r) by {
          if UniquePackages(queue) {
            forall i, j | 0 <= i < j < |r| ensures r[i].packageName != r[j].packageName {
              assert r[j] == rest[j - 1];
              assert rest[j - 1] in rest;
              if i > 0 { assert r[i] == rest[i - 1]; }
            }
          }
        }
        r
      else
        assert UniquePackages(queue) ==> UniquePackages(queue[1..]) by {
          if UniquePackages(queue) {
            forall i, j | 0 <= i < j < |queue[1..]| ensures queue[1..][i].packageName != queue[1..][j].packageName {
              assert queue[1..][i] == queue[i + 1] && queue[1..][j] == queue[j + 1];
            }
          }
        }
        rest
  }

  /** `removeAll` keeps the order of the queue: filtering a queue made of
      two parts is filtering each part and joining the results, and one
      entry stays exactly when it satisfies `keep`. */
  lemma {:induction false} KeptInOrder(a: seq<PendingInstallation>, b: seq<PendingInstallation>,
                                       keep: PendingInstallation -> bool)
    ensures Kept(a + b, keep) == Kept(a, keep) + Kept(b, keep)
    ensures |a| == 1 ==> Kept(a, keep) == if keep(a[0]) then a else []
  {
    if a == [] {
      assert a + b == b;
    } else {
      assert (a + b)[0] == a[0] && (a + b)[1..] == a[1..] + b;
      KeptInOrder(a[1..], b, keep);
      if |a| == 1 {
        assert a[1..] == [];
      }
    }
  }

  /** `installationQueue.removeAll { it.packageName == pkg }`. */
  function WithoutPackage(queue: seq<PendingInstallation>, pkg: string): (r: seq<PendingInstallation>)
    ensures !Queued(r, pkg)
    ensures forall p :: p != pkg ==> (Queued(r, p) <==> Queued(queue, p))
    ensures forall x :: x in r <==> x in queue && x.packageName != pkg
    ensures UniquePackages(queue) ==> UniquePackages(r)
  {
    var r := Kept(queue, (x: PendingInstallation) => x.packageName != pkg);
    assert !Queued(r, pkg) by {
      forall i | 0 <= i < |r| ensures r[i].packageName != pkg {
        assert r[i] in r;
      }
    }
    assert forall p :: p != pkg ==> (Queued(r, p) <==> Queued(queue, p)) by {
      forall p | p != pkg ensures Queued(r, p) <==> Queued(queue, p) {
        if Queued(queue, p) {
          var i :| 0 <= i < |queue| && queue[i].packageName == p;
          assert queue[i] in r;
        }
        if Queued(r, p) {
          var i :| 0 <= i < |r| && r[i].packageName == p;
          assert r[i] in queue;
        }
      }
    }
    r
  }

  /** An entry `processNextInstallation` drops: the screen shows a list in
      which the first app of that package is up to date or not installed. */
  predicate Settled(s: AppState, x: PendingInstallation)
  {
    && s.Success?
    && FindApp(s.apps, x.packageName).Some?
    && (FindApp(s.apps, x.packageName).value.status == Catalog.UP_TO_DATE
        || FindApp(s.apps, x.packageName).value.status == Catalog.NOT_INSTALLED)
  }

  /** The queue after `processNextInstallation`. */
  function WithoutSettled(queue: seq<PendingInstallation>, s: AppState): (r: seq<PendingInstallation>)
    ensures forall x :: x in r <==> x in queue && !Settled(s, x)
    ensures !s.Success? ==> r == queue
    ensures UniquePackages(queue) ==> UniquePackages(r)
  {
    if queue == [] || !s.Success? then queue else Kept(queue, (x: PendingInstallation) => !Settled(s, x))
  }

  /** Dropping settled entries never brings a package into the queue. */
  lemma SettledDropsOnly(queue: seq<PendingInstallation>, s: AppState, pkg: string)
    requires !Queued(queue, pkg)
    ensures !Queued(WithoutSettled(queue, s), pkg)
  {
    var r := WithoutSettled(queue, s);
    forall i | 0 <= i < |r| ensures r[i].packageName != pkg {
      assert r[i] in r;
      var j :| 0 <= j < |queue| && queue[j] == r[i];
    }
  }

  // ----- Retries and aborts -----

  /** Every recorded retry count is 1: a package has had its one retry. */
  predicate RetriesBounded(retries: map<string, int>)
  {
    forall p :: p in retries ==> retries[p] == 1
  }

  datatype RetryStep = RetryStep(retries: map<string, int>, dialog: bool)

  /** The retry bookkeeping of a failed install: below one retry, count it
      and offer the retry dialog; otherwise forget the count and show an
      error. */
  function AfterFailure(retries: map<string, int>, pkg: string): (s: RetryStep)
    ensures s.dialog <==> (if pkg in retries then retries[pkg] else 0) < 1
    ensures RetriesBounded(retries) ==> RetriesBounded(s.retries)
    ensures s.retries - {pkg} == retries - {pkg}
    ensures RetriesBounded(retries) ==> (s.dialog <==> pkg !in retries)
  {
    var current := if pkg in retries then retries[pkg] else 0;
    if current < 1 then RetryStep(retries[pkg := current + 1], true) else RetryStep(retries - {pkg}, false)
  }

  /** Of two failures of the same package in a row exactly one offers the
      retry dialog: from a clean count the first does and the second shows
      the error and clears the count, so a package gets one retry per
      round. */
  lemma RetryAlternates(retries: map<string, int>, pkg: string)
    requires RetriesBounded(retries)
    ensures AfterFailure(retries, pkg).dialog != AfterFailure(AfterFailure(retries, pkg).retries, pkg).dialog
    ensures pkg !in retries ==> (
      && AfterFailure(retries, pkg).dialog
      && pkg !in AfterFailure(AfterFailure(retries, pkg).retries, pkg).retries)
  {
    var s1 := AfterFailure(retries, pkg);
    assert RetriesBounded(s1.retries);
  }

  /** The listener's test for a user abort. */
  predicate IsUserAbort(error: string, statusCode: int)
  {
    || ContainsIgnoreCase(error, "aborted")
    || ContainsIgnoreCase(error, "cancelled")
    || ContainsIgnoreCase(error, "user denied")
    || statusCode == Installer.STATUS_FAILURE_ABORTED
  }

  /** Every broadcast with the aborted code is taken for a user abort,
      whatever its message. */
  lemma AbortedCodeIsAbort(pkg: Option<string>, message: Option<string>)
    ensures Installer.Decode(pkg, Some(Installer.STATUS_FAILURE_ABORTED), message).Failed?
    ensures IsUserAbort(Installer.Decode(pkg, Some(Installer.STATUS_FAILURE_ABORTED), message).error,
                        Installer.Decode(pkg, Some(Installer.STATUS_FAILURE_ABORTED), message).statusCode)
  {
  }

  // ----- Cold start and foreground resume -----

  predicate InFlight(app: App)
  {
    app.status == Catalog.DOWNLOADING || app.status == Catalog.INSTALLING
  }

  /** The app list after the cold-start reset: every downloading or
      installing app is offered as an update again at 0 %, installed or
      not; every other app is kept. */
  function ResetApps(apps: seq<App>): (r: seq<App>)
    ensures |r| == |apps|
    ensures forall i :: 0 <= i < |r| ==> !InFlight(r[i])
    ensures forall i :: 0 <= i < |r| && InFlight(apps[i]) ==>
      r[i] == apps[i].(status := Catalog.UPDATE_AVAILABLE, downloadProgress := 0.0)
    ensures forall i :: 0 <= i < |r| && !InFlight(apps[i]) ==> r[i] == apps[i]
  {
    seq(|apps|, i requires 0 <= i < |apps| =>
      if InFlight(apps[i]) then apps[i].(status := Catalog.UPDATE_AVAILABLE, downloadProgress := 0.0) else apps[i])
  }

  /** Resetting twice resets nothing more. */
  lemma ResetIdempotent(apps: seq<App>)
    ensures ResetApps(ResetApps(apps)) == ResetApps(apps)
  {
    assert forall i :: 0 <= i < |apps| ==> ResetApps(ResetApps(apps))[i] == ResetApps(apps)[i];
  }

  /** The file a stored record points to exists. */
  predicate FileExists(r: DownloadStore.DownloadRecord, files: set<string>)
  {
    r.filePath.Some? && r.filePath.value in files
  }

  /** The table after the resume has handled the running downloads in
      `done`: a running one whose file exists is marked completed at `now`,
      one whose file is missing is deleted. */
  function ResumedPart(t: DownloadStore.Table, files: set<string>, now: int, done: set<string>): (u: DownloadStore.Table)
    ensures forall k :: k in u <==> k in t && !(k in done && t[k].status == DownloadStore.DOWNLOADING && !FileExists(t[k], files))
  {
    map k | k in t && !(k in done && t[k].status == DownloadStore.DOWNLOADING && !FileExists(t[k], files)) ::
      if k in done && t[k].status == DownloadStore.DOWNLOADING
      then t[k].(status := DownloadStore.COMPLETED, filePath := Some(t[k].filePath.value), updatedAt := now)
      else t[k]
  }

  /** The table after the resume has handled every running download. */
  function Resumed(t: DownloadStore.Table, files: set<string>, now: int): (u: DownloadStore.Table)
    ensures forall k :: k in u <==> k in t && (t[k].status != DownloadStore.DOWNLOADING || FileExists(t[k], files))
    ensures forall k :: k in u && t[k].status != DownloadStore.DOWNLOADING ==> u[k] == t[k]
    ensures forall k :: k in u && t[k].status == DownloadStore.DOWNLOADING ==>
      u[k] == t[k].(status := DownloadStore.COMPLETED, updatedAt := now)
  {
    ResumedPart(t, files, now, t.Keys)
  }

  /** Handling one more running download is one store write. */
  lemma ResumeStep(t: DownloadStore.Table, files: set<string>, now: int, done: set<string>, k: string)
    requires k in t && t[k].status == DownloadStore.DOWNLOADING && k !in done
    ensures FileExists(t[k], files) ==>
      ResumedPart(t, files, now, done + {k}) == DownloadStore.SetCompleted(ResumedPart(t, files, now, done), k, DownloadStore.COMPLETED, t[k].filePath.value, now)
    ensures !FileExists(t[k], files) ==>
      ResumedPart(t, files, now, done + {k}) == ResumedPart(t, files, now, done) - {k}
  {
    var before, after := ResumedPart(t, files, now, done), ResumedPart(t, files, now, done + {k});
    if FileExists(t[k], files) {
      var u := DownloadStore.SetCompleted(before, k, DownloadStore.COMPLETED, t[k].filePath.value, now);
      assert after.Keys == u.Keys;
      assert forall j :: j in after ==> after[j] == u[j];
    } else {
      assert after.Keys == (before - {k}).Keys;
    }
  }

  /** Handling the running downloads is all the resume does to the rows. */
  lemma ResumedAll(t: DownloadStore.Table, files: set<string>, now: int, done: set<string>)
    requires DownloadStore.WithStatus(t, DownloadStore.DOWNLOADING).Keys <= done
    ensures ResumedPart(t, files, now, done) == Resumed(t, files, now)
  {
    var a, b := ResumedPart(t, files, now, done), ResumedPart(t, files, now, t.Keys);
    assert forall k :: k in t && t[k].status == DownloadStore.DOWNLOADING ==> k in done by {
      forall k | k in t && t[k].status == DownloadStore.DOWNLOADING ensures k in done {
        assert k in DownloadStore.WithStatus(t, DownloadStore.DOWNLOADING).Keys;
      }
    }
    assert a.Keys == b.Keys;
  }

  /** The repository never stores a path with a running download, so on a
      table it wrote the resume's "file already there" branch never fires:
      every running download is deleted and none is queued. */
  lemma ResumeOnConsistentTable(t: DownloadStore.Table, files: set<string>, now: int)
    requires DownloadStore.Consistent(t)
    ensures Resumed(t, files, now) == DownloadStore.WithoutStatus(t, DownloadStore.DOWNLOADING)
    ensures forall k :: k in t && t[k].status == DownloadStore.DOWNLOADING ==> !FileExists(t[k], files)
  {
    var a, b := Resumed(t, files, now), DownloadStore.WithoutStatus(t, DownloadStore.DOWNLOADING);
    assert a.Keys == b.Keys;
  }

  // ----- The handlers, on the fields they change -----

  /** The fields of `AppBloc` the handlers change, with what was shown. */
  datatype Fields = Fields(
    state: AppState,
    queue: seq<PendingInstallation>,
    retries: map<string, int>,
    completed: set<string>,
    active: set<string>,
    backgrounded: bool,
    outputs: seq<Output>)

  /** What every handler keeps true: no package is queued twice and no
      package has more than its one retry recorded. */
  predicate Inv(b: Fields)
  {
    UniquePackages(b.queue) && RetriesBounded(b.retries)
  }

  /** `updateAppStatus`. */
  function StatusSet(b: Fields, pkg: string, st: Catalog.AppStatus): Fields
  {
    b.(state := StateUpdated(b.state, pkg, StatusPatch(st)))
  }

  /** `updateAppProgress`. */
  function ProgressSet(b: Fields, pkg: string, progress: real): Fields
  {
    b.(state := StateUpdated(b.state, pkg, ProgressPatch(progress)))
  }

  /** `queueInstallation` with `triggerInstallationImmediately`: a package
      already queued is left alone; otherwise the entry is appended, the app
      shows INSTALLING and the install is handed to the platform. */
  function Queue(b: Fields, item: PendingInstallation): (r: Fields)
    ensures r.queue == Enqueued(b.queue, item)
    ensures r.retries == b.retries && r.completed == b.completed && r.active == b.active
    ensures r.backgrounded == b.backgrounded
    ensures Inv(b) ==> Inv(r)
  {
    if Queued(b.queue, item.packageName) then b
    else
      b.(queue := b.queue + [item],
         state := StateUpdated(b.state, item.packageName, StatusPatch(Catalog.INSTALLING)),
         outputs := b.outputs + [InstallRequested(item.packageName, item.filePath)])
  }

  /** Queueing a package twice is queueing it once: the second request
      changes nothing. A new package is appended and shown as installing. */
  lemma QueueFacts(b: Fields, item: PendingInstallation, again: PendingInstallation)
    requires again.packageName == item.packageName
    ensures Queue(Queue(b, item), again) == Queue(b, item)
    ensures Queued(b.queue, item.packageName) ==> Queue(b, item) == b
    ensures !Queued(b.queue, item.packageName) ==> (
      && Queue(b, item).queue == b.queue + [item]
      && Queue(b, item).outputs == b.outputs + [InstallRequested(item.packageName, item.filePath)])
    ensures b.state.Success? && FindApp(b.state.apps, item.packageName).Some? && !Queued(b.queue, item.packageName) ==>
      FindApp(Queue(b, item).state.apps, item.packageName).value.status == Catalog.INSTALLING
  {
    if b.state.Success? {
      FindAfterUpdate(b.state.apps, item.packageName, StatusPatch(Catalog.INSTALLING), item.packageName);
    }
  }

  /** `processNextInstallation`. */
  function ProcessNext(b: Fields): (r: Fields)
    ensures Inv(b) ==> Inv(r)
  {
    b.(queue := WithoutSettled(b.queue, b.state))
  }

  /** `handleDownloadCompleted`: a package whose completion was already
      handled is ignored; otherwise it is marked handled, is no longer a
      running download, and is queued under its title. */
  function DownloadCompleted(b: Fields, pkg: string, filePath: string): (r: Fields)
    ensures Inv(b) ==> Inv(r)
  {
    if pkg in b.completed then b
    else
      var c := b.(completed := b.completed + {pkg}, active := b.active - {pkg});
      var q := Queue(c, PendingInstallation(pkg, filePath, AppNameFor(b.state, pkg)));
      q.(outputs := q.outputs + [Toast(DownloadCompletedInstalling)])
  }

  /** A completion is handled once: the package ends up marked, not running
      and queued, and a second report of it changes nothing. */
  lemma DownloadCompletedOnce(b: Fields, pkg: string, filePath: string, otherPath: string)
    ensures pkg in DownloadCompleted(b, pkg, filePath).completed
    ensures pkg !in b.completed ==> (
      && pkg !in DownloadCompleted(b, pkg, filePath).active
      && Queued(DownloadCompleted(b, pkg, filePath).queue, pkg))
    ensures DownloadCompleted(DownloadCompleted(b, pkg, filePath), pkg, otherPath) == DownloadCompleted(b, pkg, filePath)
  {
  }

  /** `handleDownloadFailed`. */
  function DownloadFailed(b: Fields, pkg: string, error: string): (r: Fields)
    ensures Inv(b) ==> Inv(r)
  {
    var c := ProgressSet(StatusSet(b.(active := b.active - {pkg}), pkg, Catalog.NOT_INSTALLED), pkg, 0.0);
    c.(outputs := c.outputs + [ErrorShown(error)])
  }

  /** The screen side of `cancelDownload`. */
  function Cancelled(b: Fields, pkg: string): (r: Fields)
    ensures Inv(b) ==> Inv(r)
  {
    var c := ProgressSet(StatusSet(b.(active := b.active - {pkg}), pkg, Catalog.NOT_INSTALLED), pkg, 0.0);
    c.(outputs := c.outputs + [Toast(DownloadCancelled)])
  }

  /** The screen side of `downloadApp`: cancel what runs, forget an earlier
      completion, show the app downloading at 0 % and record the new job. */
  function DownloadStarted(b: Fields, pkg: string): (r: Fields)
    ensures Inv(b) ==> Inv(r)
  {
    var c := Cancelled(b, pkg);
    var d := ProgressSet(StatusSet(c.(completed := c.completed - {pkg}), pkg, Catalog.DOWNLOADING), pkg, 0.0);
    d.(outputs := d.outputs + [Toast(DownloadStarting)], active := d.active + {pkg})
  }

  /** Starting a download makes a later completion report count again. */
  lemma RestartAllowsCompletion(b: Fields, pkg: string, filePath: string)
    ensures pkg !in DownloadStarted(b, pkg).completed
    ensures pkg in DownloadStarted(b, pkg).active
    ensures Queued(DownloadCompleted(DownloadStarted(b, pkg), pkg, filePath).queue, pkg)
    ensures pkg !in DownloadCompleted(DownloadStarted(b, pkg), pkg, filePath).active
  {
  }

  /** One value of the manager's flow for a started download. */
  function DownloadUpdate(b: Fields, pkg: string, d: Catalog.AppDownload): (r: Fields)
    ensures Inv(b) ==> Inv(r)
  {
    var c := ProgressSet(b, pkg, d.progress);
    if d.isComplete && d.filePath.Some? then DownloadCompleted(c, pkg, d.filePath.value) else c
  }

  /** `handleInstallationSuccess` acts only when the list is on screen and
      has the app. */
  predicate SuccessApplies(b: Fields, pkg: string)
  {
    b.state.Success? && FindApp(b.state.apps, pkg).Some?
  }

  /** `handleInstallationSuccess`: the app takes the status its installed
      version gives, that version and 0 %, and the package leaves the retry
      counts, the completion markers and the queue. */
  function InstallSucceeded(b: Fields, pkg: string, installedVersion: string): (r: Fields)
    ensures Inv(b) ==> Inv(r)
  {
    if SuccessApplies(b, pkg) then
      var app := FindApp(b.state.apps, pkg).value;
      var st := SuccessStatus(installedVersion, app.latestVersion);
      b.(state := StateUpdated(b.state, pkg, OutcomePatch(st, Some(installedVersion))),
         outputs := b.outputs + [Toast(InstallationCompleted)],
         retries := b.retries - {pkg},
         completed := b.completed - {pkg},
         queue := WithoutPackage(b.queue, pkg))
    else b
  }

  /** The status the failure and abort paths write: the one the installed
      version gives, for an app on screen. */
  function Rederived(s: AppState, pkg: string, device: Device): AppState
  {
    if s.Success? && FindApp(s.apps, pkg).Some? then
      StateUpdated(s, pkg, StatusPatch(DerivedStatus(device, pkg, FindApp(s.apps, pkg).value.latestVersion)))
    else s
  }

  /** `handleInstallationFailedWithRetry`. */
  function InstallFailed(b: Fields, pkg: string, error: string, device: Device): (r: Fields)
    ensures Inv(b) ==> Inv(r)
  {
    var step := AfterFailure(b.retries, pkg);
    b.(state := Rederived(b.state, pkg, device),
       retries := step.retries,
       outputs := b.outputs + [if step.dialog then RetryDialog(pkg, error) else FailureShown(error)],
       queue := WithoutPackage(b.queue, pkg))
  }

  /** `handleInstallationAborted`. */
  function InstallAborted(b: Fields, pkg: string, device: Device): (r: Fields)
    ensures Inv(b) ==> Inv(r)
  {
    b.(retries := b.retries - {pkg},
       state := Rederived(b.state, pkg, device),
       outputs := b.outputs + [Toast(InstallationCancelledByUser)],
       queue := WithoutPackage(b.queue, pkg),
       completed := b.completed - {pkg})
  }

  /** The installer-result listener. */
  function ResultHandled(b: Fields, result: Installer.InstallationResult, device: Device): (r: Fields)
    ensures Inv(b) ==> Inv(r)
  {
    match result
    case Success(pkg, _) => ProcessNext(InstallSucceeded(b, pkg, SuccessVersion(device, pkg)))
    case Failed(pkg, error, code) =>
      ProcessNext(if IsUserAbort(error, code) then InstallAborted(b, pkg, device) else InstallFailed(b, pkg, error, device))
    case PendingUserAction(pkg, _) =>
      b.(outputs := b.outputs + [Toast(InstallationPendingUserAction), TimeoutScheduled(pkg)])
  }

  /** The 30-second timeout after a pending user action: only in the
      foreground and only while the package is still queued is the install
      taken as cancelled. */
  function TimedOut(b: Fields, pkg: string, device: Device): (r: Fields)
    ensures Inv(b) ==> Inv(r)
  {
    if !b.backgrounded && Queued(b.queue, pkg) then ProcessNext(InstallAborted(b, pkg, device)) else b
  }

  /** How the install use case answers `installAppDirect`. */
  datatype InstallStart = Started | NotStarted | StartFailed(message: string)

  /** The localised "installation failed to start" message, by its resource name. */
  const INSTALLATION_FAILED_START: string := "installation_failed_start"

  /** `installAppDirect`'s handling of the use case's answer. */
  function StartHandled(b: Fields, pkg: string, start: InstallStart, device: Device): (r: Fields)
    ensures Inv(b) ==> Inv(r)
  {
    match start
    case Started => b.(outputs := b.outputs + [Toast(InstallationStarted)])
    case NotStarted => InstallFailed(b, pkg, INSTALLATION_FAILED_START, device)
    case StartFailed(message) => InstallFailed(b, pkg, message, device)
  }

  /** A failed install is taken for a user abort exactly when the listener's
      test says so: the abort path answers with the cancelled toast, the
      other path with the retry dialog or the error, never both. */
  lemma FailureRouting(b: Fields, pkg: string, error: string, code: int, device: Device)
    ensures
      var r := ResultHandled(b, Installer.Failed(pkg, error, code), device);
      && |r.outputs| == |b.outputs| + 1
      && (r.outputs[|b.outputs|] == Toast(InstallationCancelledByUser) <==> IsUserAbort(error, code))
      && (r.outputs[|b.outputs|].RetryDialog? ==> !IsUserAbort(error, code))
      && !Queued(r.queue, pkg)
  {
    var r := ResultHandled(b, Installer.Failed(pkg, error, code), device);
    if IsUserAbort(error, code) {
      var a := InstallAborted(b, pkg, device);
      assert r == ProcessNext(a);
      SettledDropsOnly(a.queue, a.state, pkg);
    } else {
      var f := InstallFailed(b, pkg, error, device);
      assert r == ProcessNext(f);
      assert r.outputs[|b.outputs|].RetryDialog? || r.outputs[|b.outputs|].FailureShown?;
      SettledDropsOnly(f.queue, f.state, pkg);
    }
  }

  /** The retry bound, on the handler: from no recorded retry, a failure
      offers the retry dialog and records one retry; the next failure shows
      the error instead and clears the count. Both remove the package from
      the queue. */
  lemma RetryThenGiveUp(b: Fields, pkg: string, e1: string, e2: string, device: Device)
    requires Inv(b) && pkg !in b.retries
    ensures
      var r1 := InstallFailed(b, pkg, e1, device);
      var r2 := InstallFailed(r1, pkg, e2, device);
      && r1.outputs == b.outputs + [RetryDialog(pkg, e1)] && r1.retries == b.retries[pkg := 1]
      && r2.outputs == r1.outputs + [FailureShown(e2)] && pkg !in r2.retries
      && !Queued(r1.queue, pkg) && !Queued(r2.queue, pkg)
  {
  }

  /** Success and abort clear the retry count, and an abort never offers a
      retry: it clears the completion marker and the queue entry too. */
  lemma OutcomesClearRetries(b: Fields, pkg: string, version: string, device: Device)
    ensures pkg !in InstallAborted(b, pkg, device).retries
    ensures pkg !in InstallAborted(b, pkg, device).completed
    ensures !Queued(InstallAborted(b, pkg, device).queue, pkg)
    ensures InstallAborted(b, pkg, device).outputs == b.outputs + [Toast(InstallationCancelledByUser)]
    ensures SuccessApplies(b, pkg) ==> (
      && pkg !in InstallSucceeded(b, pkg, version).retries
      && pkg !in InstallSucceeded(b, pkg, version).completed
      && !Queued(InstallSucceeded(b, pkg, version).queue, pkg))
  {
  }

  /** The timeout does nothing once the app went to the background or the
      package left the queue. */
  lemma TimeoutGuard(b: Fields, pkg: string, device: Device)
    ensures b.backgrounded || !Queued(b.queue, pkg) ==> TimedOut(b, pkg, device) == b
    ensures !b.backgrounded && Queued(b.queue, pkg) ==> (
      && !Queued(TimedOut(b, pkg, device).queue, pkg)
      && TimedOut(b, pkg, device).outputs == b.outputs + [Toast(InstallationCancelledByUser)])
  {
  }

  /** `resetAllQueuesAndPendingDownloads`: empty queue; every app that was
      downloading or installing is offered as an update at 0 %. */
  function Reset(b: Fields): (r: Fields)
    ensures Inv(b) ==> Inv(r)
  {
    b.(queue := [], state := if b.state.Success? then Success(ResetApps(b.state.apps)) else b.state)
  }

  lemma ResetFacts(b: Fields)
    ensures Reset(b).queue == []
    ensures Reset(b).state.Success? ==> forall i :: 0 <= i < |Reset(b).state.apps| ==> !InFlight(Reset(b).state.apps[i])
    ensures Reset(Reset(b)) == Reset(b)
  {
    if b.state.Success? {
      ResetIdempotent(b.state.apps);
    }
  }

  // ----- Foreground resume -----

  /** The three passes of the foreground resume, each over a set of packages. */
  datatype Pass =
    | ServicePass(downloads: DownloadManager.Downloads)
    | CompletedPass(completed: DownloadStore.Table)
    | ActivePass(active: DownloadStore.Table, files: set<string>)

  /** One package of a pass: a manager entry that is complete with a file is
      handled as a completion, one still running shows its progress and
      DOWNLOADING; a stored completed record is queued; a running record
      whose file exists is queued, one whose file is missing is offered as
      an update again. */
  function Visit(b: Fields, pass: Pass, pkg: string): (r: Fields)
    ensures Inv(b) ==> Inv(r)
    ensures forall p :: Queued(b.queue, p) ==> Queued(r.queue, p)
  {
    match pass
    case ServicePass(downloads) =>
      if pkg !in downloads then b
      else if downloads[pkg].isComplete && downloads[pkg].filePath.Some? then DownloadCompleted(b, pkg, downloads[pkg].filePath.value)
      else if !downloads[pkg].isComplete then StatusSet(ProgressSet(b, pkg, downloads[pkg].progress), pkg, Catalog.DOWNLOADING)
      else b
    case CompletedPass(completed) =>
      if pkg in completed && completed[pkg].filePath.Some? then
        Queue(b, PendingInstallation(pkg, completed[pkg].filePath.value, completed[pkg].appName))
      else b
    case ActivePass(active, files) =>
      if pkg !in active then b
      else if FileExists(active[pkg], files) then
        Queue(b, PendingInstallation(pkg, active[pkg].filePath.value, active[pkg].appName))
      else StatusSet(b, pkg, Catalog.UPDATE_AVAILABLE)
  }

  /** A pass over packages in the given order. */
  function Visited(b: Fields, pass: Pass, order: seq<string>): (r: Fields)
  {
    if order == [] then b
    else Visit(Visited(b, pass, order[..|order| - 1]), pass, order[|order| - 1])
  }

  /** A whole pass keeps the invariant and never takes a package out of the
      queue. */
  lemma {:induction false} VisitedFacts(b: Fields, pass: Pass, order: seq<string>)
    ensures Inv(b) ==> Inv(Visited(b, pass, order))
    ensures forall p :: Queued(b.queue, p) ==> Queued(Visited(b, pass, order).queue, p)
  {
    if order != [] {
      VisitedFacts(b, pass, order[..|order| - 1]);
    }
  }

  /** A package a pass queues is still queued after the rest of the pass. */
  lemma {:induction false} VisitedQueues(b: Fields, pass: Pass, order: seq<string>, i: int)
    requires 0 <= i < |order|
    ensures Queued(Visit(Visited(b, pass, order[..i]), pass, order[i]).queue, order[i]) ==>
      Queued(Visited(b, pass, order).queue, order[i])
  {
    if i < |order| - 1 {
      var front := order[..|order| - 1];
      assert front[..i] == order[..i] && front[i] == order[i];
      VisitedQueues(b, pass, front, i);
      VisitedFacts(Visited(b, pass, front), pass, [order[|order| - 1]]);
      assert Visited(Visited(b, pass, front), pass, [order[|order| - 1]]) == Visited(b, pass, order) by {
        assert [order[|order| - 1]][..0] == [];
      }
    } else {
      assert order[..i] == order[..|order| - 1];
    }
  }

  /** `order` lists each package of `keys` once: the order in which the
      store's rows or the manager's map are iterated. */
  ghost predicate Enumerates(order: seq<string>, keys: set<string>)
  {
    && (forall i, j :: 0 <= i < j < |order| ==> order[i] != order[j])
    && (forall k :: k in keys <==> k in order)
  }

  /** The queue pass leaves every completed record with a file queued, and
      the running-record pass every record whose file exists. */
  lemma PassesQueueEveryFile(b: Fields, pass: Pass, order: seq<string>, pkg: string)
    requires pkg in order
    requires pass.CompletedPass? ==> pkg in pass.completed && pass.completed[pkg].filePath.Some?
    requires pass.ActivePass? ==> pkg in pass.active && FileExists(pass.active[pkg], pass.files)
    requires !pass.ServicePass?
    ensures Queued(Visited(b, pass, order).queue, pkg)
  {
    var i :| 0 <= i < |order| && order[i] == pkg;
    VisitedQueues(b, pass, order, i);
  }

  /** `checkPendingDownloadsOnForeground` on the fields: the manager pass,
      then the stored completed records, then the stored running ones. */
  function Resume(b: Fields, downloads: DownloadManager.Downloads, serviceOrder: seq<string>,
                  completed: DownloadStore.Table, completedOrder: seq<string>,
                  active: DownloadStore.Table, files: set<string>, activeOrder: seq<string>): Fields
  {
    var s := Visited(b, ServicePass(downloads), serviceOrder);
    var c := Visited(s, CompletedPass(completed), completedOrder);
    Visited(c, ActivePass(active, files), activeOrder)
  }

  /** The resume keeps the invariant, so however often it runs no package is
      queued twice; and after it every usable completed record and every
      running record whose file exists is queued. */
  lemma ResumeFacts(b: Fields, downloads: DownloadManager.Downloads, serviceOrder: seq<string>,
                    completed: DownloadStore.Table, completedOrder: seq<string>,
                    active: DownloadStore.Table, files: set<string>, activeOrder: seq<string>, pkg: string)
    requires Enumerates(completedOrder, completed.Keys) && Enumerates(activeOrder, active.Keys)
    ensures Inv(b) ==> Inv(Resume(b, downloads, serviceOrder, completed, completedOrder, active, files, activeOrder))
    ensures pkg in completed && completed[pkg].filePath.Some? ==>
      Queued(Resume(b, downloads, serviceOrder, completed, completedOrder, active, files, activeOrder).queue, pkg)
    ensures pkg in active && FileExists(active[pkg], files) ==>
      Queued(Resume(b, downloads, serviceOrder, completed, completedOrder, active, files, activeOrder).queue, pkg)
  {
    var s := Visited(b, ServicePass(downloads), serviceOrder);
    var c := Visited(s, CompletedPass(completed), completedOrder);
    VisitedFacts(b, ServicePass(downloads), serviceOrder);
    VisitedFacts(s, CompletedPass(completed), completedOrder);
    VisitedFacts(c, ActivePass(active, files), activeOrder);
    if pkg in completed && completed[pkg].filePath.Some? {
      PassesQueueEveryFile(s, CompletedPass(completed), completedOrder, pkg);
    }
    if pkg in active && FileExists(active[pkg], files) {
      PassesQueueEveryFile(c, ActivePass(active, files), activeOrder, pkg);
    }
  }

  /** `onStart`: the resume after a stop, the cold-start reset otherwise;
      either way the flag is down afterwards. */
  function Foregrounded(b: Fields, downloads: DownloadManager.Downloads, serviceOrder: seq<string>,
                   completed: DownloadStore.Table, completedOrder: seq<string>,
                   active: DownloadStore.Table, files: set<string>, activeOrder: seq<string>): (r: Fields)
    ensures !r.backgrounded
  {
    var next := if b.backgrounded then Resume(b, downloads, serviceOrder, completed, completedOrder, active, files, activeOrder)
                else Reset(b);
    next.(backgrounded := false)
  }

  /** A start right after a stop resumes; a start with no stop before it
      resets the queue. */
  lemma StartAfterStop(b: Fields, downloads: DownloadManager.Downloads, serviceOrder: seq<string>,
                       completed: DownloadStore.Table, completedOrder: seq<string>,
                       active: DownloadStore.Table, files: set<string>, activeOrder: seq<string>)
    ensures Foregrounded(b.(backgrounded := true), downloads, serviceOrder, completed, completedOrder, active, files, activeOrder) ==
      Resume(b.(backgrounded := true), downloads, serviceOrder, completed, completedOrder, active, files, activeOrder).(backgrounded := false)
    ensures !b.backgrounded ==>
      Foregrounded(b, downloads, serviceOrder, completed, completedOrder, active, files, activeOrder) == Reset(b)
    ensures !b.backgrounded ==>
      Foregrounded(b, downloads, serviceOrder, completed, completedOrder, active, files, activeOrder).queue == []
  {
  }

  /** `updateSingleAppStatus` on the fields. */
  function SingleStatusChecked(b: Fields, pkg: string, device: Device): Fields
  {
    if b.state.Success? && FindApp(b.state.apps, pkg).Some? then
      var app := FindApp(b.state.apps, pkg).value;
      match StatusCheck(app, device)
      case None => b
      case Some(patch) =>
        b.(state := StateUpdated(b.state, pkg, patch),
           outputs := b.outputs + [Toast(if app.status == Catalog.UNINSTALLING then UninstallationCompleted else AppStatusUpdated)])
    else b
  }

  /** The single-app check never touches an app that is downloading or
      installing, and otherwise leaves the app with its derived status. */
  lemma SingleStatusFacts(b: Fields, pkg: string, device: Device)
    requires b.state.Success? && FindApp(b.state.apps, pkg).Some?
    ensures InFlight(FindApp(b.state.apps, pkg).value) ==> SingleStatusChecked(b, pkg, device) == b
    ensures
      var app := FindApp(b.state.apps, pkg).value;
      !InFlight(app) && app.status != Catalog.UNINSTALLING ==>
        FindApp(SingleStatusChecked(b, pkg, device).state.apps, pkg).value.status ==
          Catalog.StatusFor(InstalledVersion(device, pkg), app.latestVersion)
  {
    var app := FindApp(b.state.apps, pkg).value;
    var p := StatusCheck(app, device);
    if p.Some? {
      FindAfterUpdate(b.state.apps, pkg, p.value, pkg);
    }
  }

  // ----- The view model -----

  /** `AppBloc`: the screen state, the installation queue and the
      bookkeeping sets, with the store, the preferences and the download
      manager it drives. Toasts, dialogs and installer hand-offs are
      appended to `outputs`. */
  class AppBloc {
    var state: AppState
    var installationQueue: seq<PendingInstallation>
    var installationRetries: map<string, int>
    var completedDownloads: set<string>
    var activeDownloads: set<string>
    var wasAppBackgrounded: bool
    var outputs: seq<Output>
    const downloadStateRepository: DownloadStore.DownloadStateRepository
    const preferencesManager: Preferences.PreferencesManager
    const simpleDownloadManager: DownloadManager.SimpleDownloadManager

    function Model(): Fields
      reads this
    {
      Fields(state, installationQueue, installationRetries, completedDownloads, activeDownloads, wasAppBackgrounded, outputs)
    }

    ghost predicate Valid()
      reads this, downloadStateRepository.dao
    {
      Inv(Model()) && downloadStateRepository.dao.Valid()
    }

    constructor (downloadStateRepository: DownloadStore.DownloadStateRepository,
                 preferencesManager: Preferences.PreferencesManager,
                 simpleDownloadManager: DownloadManager.SimpleDownloadManager)
      requires downloadStateRepository.dao.Valid()
      ensures Valid()
      ensures Model() == Fields(Loading, [], map[], {}, {}, false, [])
      ensures this.downloadStateRepository == downloadStateRepository
      ensures this.preferencesManager == preferencesManager
      ensures this.simpleDownloadManager == simpleDownloadManager
    {
      state := Loading;
      installationQueue := [];
      installationRetries := map[];
      completedDownloads := {};
      activeDownloads := {};
      wasAppBackgrounded := false;
      outputs := [];
      this.downloadStateRepository := downloadStateRepository;
      this.preferencesManager := preferencesManager;
      this.simpleDownloadManager := simpleDownloadManager;
    }

    method UpdateAppStatus(pkg: string, status: Catalog.AppStatus)
      modifies this
      ensures Model() == StatusSet(old(Model()), pkg, status)
    {
      if state.Success? {
        state := Success(Updated(state.apps, pkg, StatusPatch(status)));
      }
    }

    method UpdateAppProgress(pkg: string, progress: real)
      modifies this
      ensures Model() == ProgressSet(old(Model()), pkg, progress)
    {
      if state.Success? {
        state := Success(Updated(state.apps, pkg, ProgressPatch(progress)));
      }
    }

    method ShowToast(message: Message)
      modifies this
      ensures Model() == old(Model()).(outputs := old(outputs) + [Toast(message)])
    {
      outputs := outputs + [Toast(message)];
    }

    /** `triggerInstallationImmediately`. */
    method TriggerInstallationImmediately(item: PendingInstallation)
      modifies this
      ensures Model() == StatusSet(old(Model()), item.packageName, Catalog.INSTALLING)
                           .(outputs := old(outputs) + [InstallRequested(item.packageName, item.filePath)])
    {
      UpdateAppStatus(item.packageName, Catalog.INSTALLING);
      outputs := outputs + [InstallRequested(item.packageName, item.filePath)];
    }

    /** `queueInstallation`. */
    method QueueInstallation(pkg: string, filePath: string, appName: string)
      modifies this
      ensures Model() == Queue(old(Model()), PendingInstallation(pkg, filePath, appName))
    {
      if Queued(installationQueue, pkg) {
        return;
      }
      var pendingInstallation := PendingInstallation(pkg, filePath, appName);
      installationQueue := installationQueue + [pendingInstallation];
      TriggerInstallationImmediately(pendingInstallation);
    }

    /** `processNextInstallation`. */
    method ProcessNextInstallation()
      modifies this
      ensures Model() == ProcessNext(old(Model()))
    {
      if installationQueue == [] {
        return;
      }
      installationQueue := WithoutSettled(installationQueue, state);
    }

    /** `handleDownloadCompleted`. */
    method HandleDownloadCompleted(pkg: string, filePath: string)
      modifies this
      ensures Model() == DownloadCompleted(old(Model()), pkg, filePath)
    {
      if pkg in completedDownloads {
        return;
      }
      completedDownloads := completedDownloads + {pkg};
      activeDownloads := activeDownloads - {pkg};
      var appName := AppNameFor(state, pkg);
      QueueInstallation(pkg, filePath, appName);
      ShowToast(DownloadCompletedInstalling);
    }

    /** `handleDownloadFailed`. */
    method HandleDownloadFailed(pkg: string, error: string)
      modifies this
      ensures Model() == DownloadFailed(old(Model()), pkg, error)
    {
      activeDownloads := activeDownloads - {pkg};
      UpdateAppStatus(pkg, Catalog.NOT_INSTALLED);
      UpdateAppProgress(pkg, 0.0);
      outputs := outputs + [ErrorShown(error)];
    }

    /** `cancelDownload`. */
    method CancelDownload(pkg: string)
      modifies this, simpleDownloadManager
      ensures Model() == Cancelled(old(Model()), pkg)
      ensures simpleDownloadManager.downloads == old(simpleDownloadManager.downloads) - {pkg}
      ensures unchanged(simpleDownloadManager`isBound, simpleDownloadManager`startRequests)
    {
      activeDownloads := activeDownloads - {pkg};
      simpleDownloadManager.CancelDownload(pkg);
      UpdateAppStatus(pkg, Catalog.NOT_INSTALLED);
      UpdateAppProgress(pkg, 0.0);
      ShowToast(DownloadCancelled);
    }

    /** `downloadApp`: returns the first value of the manager's flow; the
        later values arrive through `OnDownloadUpdate`. */
    method DownloadApp(pkg: string, downloadUrl: string) returns (first: Catalog.AppDownload)
      modifies this, simpleDownloadManager
      ensures Model() == DownloadStarted(old(Model()), pkg)
      ensures simpleDownloadManager.downloads == old(simpleDownloadManager.downloads) - {pkg}
      ensures simpleDownloadManager.startRequests ==
        old(simpleDownloadManager.startRequests) + [DownloadManager.StartRequest(pkg, downloadUrl, pkg)]
      ensures simpleDownloadManager.isBound
      ensures first == DownloadManager.Observed(simpleDownloadManager.downloads, pkg, downloadUrl)
    {
      CancelDownload(pkg);
      completedDownloads := completedDownloads - {pkg};
      UpdateAppStatus(pkg, Catalog.DOWNLOADING);
      UpdateAppProgress(pkg, 0.0);
      ShowToast(DownloadStarting);
      first := simpleDownloadManager.DownloadApp(pkg, downloadUrl, pkg);
      activeDownloads := activeDownloads + {pkg};
    }

    /** One value of the flow `downloadApp` collects. */
    method OnDownloadUpdate(pkg: string, download: Catalog.AppDownload)
      modifies this
      ensures Model() == DownloadUpdate(old(Model()), pkg, download)
    {
      UpdateAppProgress(pkg, download.progress);
      if download.isComplete && download.filePath.Some? {
        HandleDownloadCompleted(pkg, download.filePath.value);
      }
    }

    /** The status rule the failure and abort paths share, written to the app. */
    method RederiveStatus(pkg: string, device: Device)
      modifies this
      ensures Model() == old(Model()).(state := Rederived(old(state), pkg, device))
    {
      if state.Success? {
        var app := FindApp(state.apps, pkg);
        if app.Some? {
          UpdateAppStatus(pkg, DerivedStatus(device, pkg, app.value.latestVersion));
        }
      }
    }

    /** `handleInstallationSuccess`. */
    method HandleInstallationSuccess(pkg: string, installedVersion: string)
      requires Valid()
      modifies this, preferencesManager, downloadStateRepository.dao
      ensures Valid()
      ensures Model() == InstallSucceeded(old(Model()), pkg, installedVersion)
      ensures preferencesManager.store ==
        if SuccessApplies(old(Model()), pkg) then old(preferencesManager.store) - {Preferences.PendingKey(pkg)} else old(preferencesManager.store)
      ensures downloadStateRepository.dao.rows ==
        if SuccessApplies(old(Model()), pkg) then old(downloadStateRepository.dao.rows) - {pkg} else old(downloadStateRepository.dao.rows)
    {
      if state.Success? {
        var app := FindApp(state.apps, pkg);
        if app.Some? {
          var newStatus := SuccessStatus(installedVersion, app.value.latestVersion);
          state := Success(Updated(state.apps, pkg, OutcomePatch(newStatus, Some(installedVersion))));
          ShowToast(InstallationCompleted);
          preferencesManager.RemoveKey(Preferences.PendingKey(pkg));
          installationRetries := installationRetries - {pkg};
          completedDownloads := completedDownloads - {pkg};
          installationQueue := WithoutPackage(installationQueue, pkg);
          downloadStateRepository.RemoveDownloadState(pkg);
        }
      }
    }

    /** `handleInstallationFailedWithRetry`. */
    method HandleInstallationFailedWithRetry(pkg: string, error: string, device: Device)
      requires Valid()
      modifies this, downloadStateRepository.dao
      ensures Valid()
      ensures Model() == InstallFailed(old(Model()), pkg, error, device)
      ensures downloadStateRepository.dao.rows == old(downloadStateRepository.dao.rows) - {pkg}
    {
      var currentRetries := if pkg in installationRetries then installationRetries[pkg] else 0;
      RederiveStatus(pkg, device);
      if currentRetries < 1 {
        installationRetries := installationRetries[pkg := currentRetries + 1];
        outputs := outputs + [RetryDialog(pkg, error)];
      } else {
        installationRetries := installationRetries - {pkg};
        outputs := outputs + [FailureShown(error)];
      }
      installationQueue := WithoutPackage(installationQueue, pkg);
      downloadStateRepository.RemoveDownloadState(pkg);
    }

    /** `handleInstallationAborted`. */
    method HandleInstallationAborted(pkg: string, device: Device)
      requires Valid()
      modifies this, downloadStateRepository.dao
      ensures Valid()
      ensures Model() == InstallAborted(old(Model()), pkg, device)
      ensures downloadStateRepository.dao.rows == old(downloadStateRepository.dao.rows) - {pkg}
    {
      installationRetries := installationRetries - {pkg};
      RederiveStatus(pkg, device);
      ShowToast(InstallationCancelledByUser);
      downloadStateRepository.RemoveDownloadState(pkg);
      installationQueue := WithoutPackage(installationQueue, pkg);
      completedDownloads := completedDownloads - {pkg};
    }

    /** The listener's Success branch. */
    method OnInstallationSucceeded(pkg: string, device: Device)
      requires Valid()
      modifies this, preferencesManager, downloadStateRepository.dao
      ensures Valid()
      ensures Model() == ProcessNext(InstallSucceeded(old(Model()), pkg, SuccessVersion(device, pkg)))
      ensures preferencesManager.store ==
        if SuccessApplies(old(Model()), pkg) then old(preferencesManager.store) - {Preferences.PendingKey(pkg)} else old(preferencesManager.store)
      ensures downloadStateRepository.dao.rows ==
        if SuccessApplies(old(Model()), pkg) then old(downloadStateRepository.dao.rows) - {pkg} else old(downloadStateRepository.dao.rows)
    {
      HandleInstallationSuccess(pkg, SuccessVersion(device, pkg));
      ProcessNextInstallation();
    }

    /** The listener's Failed branch. */
    method OnInstallationFailed(pkg: string, error: string, statusCode: int, device: Device)
      requires Valid()
      modifies this, downloadStateRepository.dao
      ensures Valid()
      ensures Model() == ProcessNext(
        if IsUserAbort(error, statusCode) then InstallAborted(old(Model()), pkg, device) else InstallFailed(old(Model()), pkg, error, device))
      ensures downloadStateRepository.dao.rows == old(downloadStateRepository.dao.rows) - {pkg}
    {
      var isUserAbort := IsUserAbort(error, statusCode);
      if isUserAbort {
        HandleInstallationAborted(pkg, device);
      } else {
        HandleInstallationFailedWithRetry(pkg, error, device);
      }
      ProcessNextInstallation();
    }

    /** The listener on the installer's results. */
    method OnInstallationResult(result: Installer.InstallationResult, device: Device)
      requires Valid()
      modifies this, preferencesManager, downloadStateRepository.dao
      ensures Valid()
      ensures Model() == ResultHandled(old(Model()), result, device)
      ensures preferencesManager.store ==
        if result.Success? && SuccessApplies(old(Model()), result.packageName)
        then old(preferencesManager.store) - {Preferences.PendingKey(result.packageName)}
        else old(preferencesManager.store)
      ensures downloadStateRepository.dao.rows ==
        if result.Failed? || (result.Success? && SuccessApplies(old(Model()), result.packageName))
        then old(downloadStateRepository.dao.rows) - {result.packageName}
        else old(downloadStateRepository.dao.rows)
    {
      match result
      case Success(pkg, _) =>
        OnInstallationSucceeded(pkg, device);
      case Failed(pkg, error, statusCode) =>
        OnInstallationFailed(pkg, error, statusCode, device);
      case PendingUserAction(pkg, _) =>
        ShowToast(InstallationPendingUserAction);
        outputs := outputs + [TimeoutScheduled(pkg)];
    }

    /** The 30-second timeout scheduled for a pending user action, firing. */
    method OnInstallTimeout(pkg: string, device: Device)
      requires Valid()
      modifies this, downloadStateRepository.dao
      ensures Valid()
      ensures Model() == TimedOut(old(Model()), pkg, device)
      ensures downloadStateRepository.dao.rows ==
        if !old(wasAppBackgrounded) && Queued(old(installationQueue), pkg)
        then old(downloadStateRepository.dao.rows) - {pkg}
        else old(downloadStateRepository.dao.rows)
    {
      if !wasAppBackgrounded {
        var stillPending := Queued(installationQueue, pkg);
        if stillPending {
          HandleInstallationAborted(pkg, device);
          ProcessNextInstallation();
        }
      }
    }

    /** `installAppDirect`, from the install use case's answer on. */
    method OnInstallStart(pkg: string, start: InstallStart, device: Device)
      requires Valid()
      modifies this, downloadStateRepository.dao
      ensures Valid()
      ensures Model() == StartHandled(old(Model()), pkg, start, device)
      ensures downloadStateRepository.dao.rows ==
        if start.Started? then old(downloadStateRepository.dao.rows) else old(downloadStateRepository.dao.rows) - {pkg}
    {
      match start
      case Started =>
        ShowToast(InstallationStarted);
      case NotStarted =>
        HandleInstallationFailedWithRetry(pkg, INSTALLATION_FAILED_START, device);
      case StartFailed(message) =>
        HandleInstallationFailedWithRetry(pkg, message, device);
    }

    method OnStop()
      modifies this
      ensures Model() == old(Model()).(backgrounded := true)
    {
      wasAppBackgrounded := true;
    }

    /** `resetAllQueuesAndPendingDownloads`. */
    method ResetAllQueuesAndPendingDownloads()
      requires Valid()
      modifies this, downloadStateRepository.dao
      ensures Valid()
      ensures Model() == Reset(old(Model()))
      ensures downloadStateRepository.dao.rows == map[]
    {
      installationQueue := [];
      downloadStateRepository.ClearAllDownloadStates();
      if state.Success? {
        state := Success(ResetApps(state.apps));
      }
    }

    /** `checkDownloadServiceProgress`: the manager's map, in `order`. */
    method CheckDownloadServiceProgress(order: seq<string>)
      requires Valid()
      requires Enumerates(order, simpleDownloadManager.downloads.Keys)
      modifies this
      ensures Valid()
      ensures Model() == Visited(old(Model()), ServicePass(simpleDownloadManager.downloads), order)
    {
      var activeDownloads := simpleDownloadManager.GetActiveDownloads();
      ghost var b0 := Model();
      var i := 0;
      while i < |order|
        invariant 0 <= i <= |order|
        invariant Model() == Visited(b0, ServicePass(activeDownloads), order[..i])
        invariant Valid()
      {
        var pkg := order[i];
        assert order[..i + 1][..i] == order[..i];
        VisitedFacts(b0, ServicePass(activeDownloads), order[..i + 1]);
        if pkg in activeDownloads {
          var download := activeDownloads[pkg];
          if download.isComplete && download.filePath.Some? {
            HandleDownloadCompleted(pkg, download.filePath.value);
          } else if !download.isComplete {
            UpdateAppProgress(pkg, download.progress);
            UpdateAppStatus(pkg, Catalog.DOWNLOADING);
          }
        }
        i := i + 1;
      }
      assert order[..|order|] == order;
    }

    /** The resume's loop over the usable completed records, in `order`. */
    method QueueCompletedDownloads(completed: DownloadStore.Table, order: seq<string>)
      requires Valid()
      requires Enumerates(order, completed.Keys)
      requires forall k :: k in completed ==> completed[k].filePath.Some?
      modifies this
      ensures Valid()
      ensures Model() == Visited(old(Model()), CompletedPass(completed), order)
    {
      ghost var b0 := Model();
      var i := 0;
      while i < |order|
        invariant 0 <= i <= |order|
        invariant Model() == Visited(b0, CompletedPass(completed), order[..i])
        invariant Valid()
      {
        var pkg := order[i];
        assert order[..i + 1][..i] == order[..i];
        VisitedFacts(b0, CompletedPass(completed), order[..i + 1]);
        var download := completed[pkg];
        QueueInstallation(pkg, download.filePath.value, download.appName);
        i := i + 1;
      }
      assert order[..|order|] == order;
    }

    /** The resume's loop over the running records, in `order`: a record
        whose file exists is marked completed and queued, one whose file is
        missing is deleted and its app offered as an update again. */
    method RecoverActiveDownloads(active: DownloadStore.Table, files: set<string>, now: int, order: seq<string>)
      requires Valid()
      requires active == DownloadStore.WithStatus(downloadStateRepository.dao.rows, DownloadStore.DOWNLOADING)
      requires Enumerates(order, active.Keys)
      modifies this, downloadStateRepository.dao
      ensures Valid()
      ensures Model() == Visited(old(Model()), ActivePass(active, files), order)
      ensures downloadStateRepository.dao.rows == Resumed(old(downloadStateRepository.dao.rows), files, now)
    {
      ghost var b0 := Model();
      ghost var t0 := downloadStateRepository.dao.rows;
      ghost var done: set<string> := {};
      var i := 0;
      while i < |order|
        invariant 0 <= i <= |order|
        invariant Model() == Visited(b0, ActivePass(active, files), order[..i])
        invariant forall k :: k in done <==> k in order[..i]
        invariant downloadStateRepository.dao.rows == ResumedPart(t0, files, now, done)
        invariant Valid()
      {
        var pkg := order[i];
        assert order[..i + 1][..i] == order[..i];
        VisitedFacts(b0, ActivePass(active, files), order[..i + 1]);
        assert pkg !in done by {
          forall j | 0 <= j < i ensures order[j] != pkg { }
        }
        assert pkg in t0 && t0[pkg].status == DownloadStore.DOWNLOADING;
        ResumeStep(t0, files, now, done, pkg);
        var download := active[pkg];
        var filePath := download.filePath;
        if filePath.Some? && filePath.value in files {
          downloadStateRepository.MarkDownloadCompleted(pkg, filePath.value, now);
          QueueInstallation(pkg, filePath.value, download.appName);
        } else {
          UpdateAppStatus(pkg, Catalog.UPDATE_AVAILABLE);
          downloadStateRepository.RemoveDownloadState(pkg);
        }
        done := done + {pkg};
        i := i + 1;
        assert forall k :: k in order[..i] <==> k in order[..i - 1] || k == pkg;
      }
      assert order[..|order|] == order;
      ResumedAll(t0, files, now, done);
    }

    /** `checkPendingDownloadsOnForeground`: the manager pass, the store's
        usable completed records queued, the running records recovered, and
        the expired failures swept. The three orders are those in which the
        map and the two queries happen to list their packages. */
    method CheckPendingDownloadsOnForeground(files: set<string>, now: int,
                                             serviceOrder: seq<string>, completedOrder: seq<string>, activeOrder: seq<string>)
      requires Valid()
      requires Enumerates(serviceOrder, simpleDownloadManager.downloads.Keys)
      requires Enumerates(completedOrder, DownloadStore.UsableCompleted(downloadStateRepository.dao.rows, files).Keys)
      requires Enumerates(activeOrder, DownloadStore.WithStatus(downloadStateRepository.dao.rows, DownloadStore.DOWNLOADING).Keys)
      modifies this, downloadStateRepository.dao
      ensures Valid()
      ensures Model() == Resume(old(Model()), simpleDownloadManager.downloads, serviceOrder,
                                DownloadStore.UsableCompleted(old(downloadStateRepository.dao.rows), files), completedOrder,
                                DownloadStore.WithStatus(old(downloadStateRepository.dao.rows), DownloadStore.DOWNLOADING), files, activeOrder)
      ensures downloadStateRepository.dao.rows ==
        DownloadStore.Swept(Resumed(DownloadStore.Purged(old(downloadStateRepository.dao.rows), files), files, now), now)
    {
      ghost var t0 := downloadStateRepository.dao.rows;
      CheckDownloadServiceProgress(serviceOrder);
      var completedDownloads := downloadStateRepository.GetCompletedDownloads(files);
      var activeDownloads := downloadStateRepository.GetActiveDownloads();
      DownloadStore.PurgeFacts(t0, files);
      assert activeDownloads == DownloadStore.WithStatus(downloadStateRepository.dao.rows, DownloadStore.DOWNLOADING);
      QueueCompletedDownloads(completedDownloads, completedOrder);
      RecoverActiveDownloads(activeDownloads, files, now, activeOrder);
      downloadStateRepository.CleanupOldFailedDownloads(now);
    }

    /** `onStart`. */
    method OnStart(files: set<string>, now: int,
                   serviceOrder: seq<string>, completedOrder: seq<string>, activeOrder: seq<string>)
      requires Valid()
      requires wasAppBackgrounded ==> (
        && Enumerates(serviceOrder, simpleDownloadManager.downloads.Keys)
        && Enumerates(completedOrder, DownloadStore.UsableCompleted(downloadStateRepository.dao.rows, files).Keys)
        && Enumerates(activeOrder, DownloadStore.WithStatus(downloadStateRepository.dao.rows, DownloadStore.DOWNLOADING).Keys))
      modifies this, downloadStateRepository.dao
      ensures Valid()
      ensures Model() == Foregrounded(old(Model()), simpleDownloadManager.downloads, serviceOrder,
                                 DownloadStore.UsableCompleted(old(downloadStateRepository.dao.rows), files), completedOrder,
                                 DownloadStore.WithStatus(old(downloadStateRepository.dao.rows), DownloadStore.DOWNLOADING), files, activeOrder)
      ensures downloadStateRepository.dao.rows ==
        if old(wasAppBackgrounded)
        then DownloadStore.Swept(Resumed(DownloadStore.Purged(old(downloadStateRepository.dao.rows), files), files, now), now)
        else map[]
    {
      if wasAppBackgrounded {
        CheckPendingDownloadsOnForeground(files, now, serviceOrder, completedOrder, activeOrder);
      } else {
        ResetAllQueuesAndPendingDownloads();
      }
      wasAppBackgrounded := false;
    }

    /** `updateSingleAppStatus`. */
    method UpdateSingleAppStatus(pkg: string, device: Device)
      modifies this
      ensures Model() == SingleStatusChecked(old(Model()), pkg, device)
    {
      if state.Success? {
        var appToUpdate := FindApp(state.apps, pkg);
        if appToUpdate.Some? {
          var app := appToUpdate.value;
          var check := StatusCheck(app, device);
          if check.Some? {
            state := Success(Updated(state.apps, pkg, check.value));
            ShowToast(if app.status == Catalog.UNINSTALLING then UninstallationCompleted else AppStatusUpdated);
          }
        }
      }
    }
  }
}

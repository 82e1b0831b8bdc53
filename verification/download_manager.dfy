/** The app-side view of the download service: a map from package name to
    the `AppDownload` the screen shows, refreshed from every snapshot of the
    service's progress records and pruned when the user cancels. */
module DownloadManager {
  import opened Util
  import Catalog
  import Transfer

  type Downloads = map<string, Catalog.AppDownload>

  /** A start request handed to the download service. */
  datatype StartRequest = StartRequest(packageName: string, downloadUrl: string, appName: string)

  /** What the flow returned by `downloadApp(p, url)` yields for one value of
      the map: p's entry, or a fresh entry at 0 % that is not complete. */
  function Observed(downloads: Downloads, pkg: string, url: string): Catalog.AppDownload
  {
    if pkg in downloads then downloads[pkg]
    else Catalog.AppDownload(pkg, url, None, 0.0, false)
  }

  /** `isDownloadActive`: an entry exists and it is not complete. */
  predicate IsActive(downloads: Downloads, pkg: string)
  {
    pkg in downloads && !downloads[pkg].isComplete
  }

  /** One service record as the manager shows it: no URL, the percentage
      scaled to a fraction, completion and file copied. */
  function Converted(pkg: string, p: Transfer.DownloadProgress): (d: Catalog.AppDownload)
    ensures d.packageName == pkg && d.url == ""
    ensures d.progress * 100.0 == p.progress
    ensures d.isComplete == p.isComplete && d.filePath == p.filePath
  {
    Catalog.AppDownload(pkg, "", p.filePath, p.progress / 100.0, p.isComplete)
  }

  /** The map a service snapshot is turned into. */
  function Snapshot(progresses: map<string, Transfer.DownloadProgress>): (r: Downloads)
    ensures r.Keys == progresses.Keys
    ensures forall k :: k in r ==> r[k] == Converted(k, progresses[k])
  {
    map k | k in progresses :: Converted(k, progresses[k])
  }

  /** The observed entry of p is its map entry when it has one; otherwise it
      is a default that is not active and carries the requested URL. */
  lemma ObservedFacts(downloads: Downloads, pkg: string, url: string)
    ensures pkg in downloads ==> Observed(downloads, pkg, url) == downloads[pkg]
    ensures pkg !in downloads ==> (
      && Observed(downloads, pkg, url).packageName == pkg
      && Observed(downloads, pkg, url).url == url
      && Observed(downloads, pkg, url).progress == 0.0
      && !Observed(downloads, pkg, url).isComplete
      && Observed(downloads, pkg, url).filePath.None?)
    ensures !Observed(downloads, pkg, url).isComplete <==> (pkg !in downloads || IsActive(downloads, pkg))
  {
  }

  /** After a snapshot, a package is active exactly when the service holds
      an incomplete record for it, and its fraction is the service's
      percentage over 100. */
  lemma SnapshotActive(progresses: map<string, Transfer.DownloadProgress>, pkg: string)
    ensures IsActive(Snapshot(progresses), pkg) <==> pkg in progresses && !progresses[pkg].isComplete
    ensures pkg in progresses ==> Snapshot(progresses)[pkg].progress * 100.0 == progresses[pkg].progress
  {
  }

  /** A job that finished, well or badly, is never shown as active once the
      next snapshot arrives; a successful one is shown at 100 % with its file. */
  lemma FinishedJobNotActive(progresses: map<string, Transfer.DownloadProgress>, pkg: string, appName: string,
                             result: Transfer.DownloadResult)
    ensures !IsActive(Snapshot(progresses[pkg := Transfer.FinishedProgress(pkg, appName, result)]), pkg)
    ensures result.Success? ==> (
      && Snapshot(progresses[pkg := Transfer.FinishedProgress(pkg, appName, result)])[pkg].progress == 1.0
      && Snapshot(progresses[pkg := Transfer.FinishedProgress(pkg, appName, result)])[pkg].filePath == Some(result.filePath))
  {
    var p := Transfer.FinishedProgress(pkg, appName, result);
    var s := Snapshot(progresses[pkg := p]);
    assert s[pkg] == Converted(pkg, p);
  }

  /** `SimpleDownloadManager`: the map the screen observes and whether the
      service is bound. The start requests it hands to the service are
      recorded in order. */
  class SimpleDownloadManager {
    var downloads: Downloads
    var isBound: bool
    var startRequests: seq<StartRequest>

    constructor ()
      ensures downloads == map[] && !isBound && startRequests == []
    {
      downloads := map[];
      isBound := false;
      startRequests := [];
    }

    /** `downloadApp`: hands the request to the service, binds if not yet
        bound, and returns what the flow yields for the current map. */
    method DownloadApp(pkg: string, url: string, appName: string) returns (first: Catalog.AppDownload)
      modifies this
      ensures downloads == old(downloads)
      ensures isBound
      ensures startRequests == old(startRequests) + [StartRequest(pkg, url, appName)]
      ensures first == Observed(downloads, pkg, url)
    {
      startRequests := startRequests + [StartRequest(pkg, url, appName)];
      if !isBound {
        isBound := true;
      }
      first := if pkg in downloads then downloads[pkg] else Catalog.AppDownload(pkg, url, None, 0.0, false);
    }

    /** `cancelDownload`: drops p's entry and no other. */
    method CancelDownload(pkg: string)
      modifies this`downloads
      ensures downloads == old(downloads) - {pkg}
    {
      var current := downloads;
      current := current - {pkg};
      downloads := current;
    }

    /** `cancelAllDownloads`. */
    method CancelAllDownloads()
      modifies this`downloads
      ensures downloads == map[]
    {
      downloads := map[];
    }

    /** `isDownloadActive`. */
    method IsDownloadActive(pkg: string) returns (active: bool)
      ensures active <==> pkg in downloads && !downloads[pkg].isComplete
    {
      var download := if pkg in downloads then Some(downloads[pkg]) else None;
      active := download.Some? && !download.value.isComplete;
    }

    /** `getActiveDownloads`. */
    method GetActiveDownloads() returns (r: Downloads)
      ensures r == downloads
    {
      r := downloads;
    }

    /** One value collected from the service's progress flow: the map is
        rebuilt entry by entry and then replaces the old one. The packages
        whose records are complete are returned; each is removed later by
        `OnCompletedExpired`. */
    method OnSnapshot(progresses: map<string, Transfer.DownloadProgress>) returns (expiring: set<string>)
      modifies this`downloads
      ensures downloads == Snapshot(progresses)
      ensures expiring == set k | k in progresses && progresses[k].isComplete
    {
      var updated: Downloads := map[];
      var pending := progresses.Keys;
      while pending != {}
        invariant pending <= progresses.Keys
        invariant updated.Keys == progresses.Keys - pending
        invariant forall k :: k in updated ==> updated[k] == Converted(k, progresses[k])
        decreases pending
      {
        var k :| k in pending;
        updated := updated[k := Converted(k, progresses[k])];
        pending := pending - {k};
      }
      assert updated.Keys == Snapshot(progresses).Keys;
      downloads := updated;
      expiring := set k | k in progresses && progresses[k].isComplete;
    }

    /** The delayed removal of a completed package, run five seconds after
        the snapshot that reported it. */
    method OnCompletedExpired(pkg: string)
      modifies this`downloads
      ensures downloads == old(downloads) - {pkg}
    {
      var current := downloads;
      current := current - {pkg};
      downloads := current;
    }
  }

  /** Cancelling p makes p inactive and leaves every other package's entry
      as it was; cancelling everything leaves nothing active. */
  lemma CancelFacts(downloads: Downloads, pkg: string, other: string)
    ensures !IsActive(downloads - {pkg}, pkg)
    ensures other != pkg ==> (
      && (other in downloads - {pkg} <==> other in downloads)
      && (other in downloads ==> (downloads - {pkg})[other] == downloads[other])
      && (IsActive(downloads - {pkg}, other) <==> IsActive(downloads, other)))
    ensures !IsActive(map[], other)
  {
  }
}

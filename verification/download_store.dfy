/** The download-state table (one row per package, kept across process
    death) and the repository that drives it: a download is started, makes
    progress, then is marked completed with a file or failed with a message;
    completed rows whose file has gone are purged lazily, and failed rows
    older than a day are swept. The clock and the file system are parameters:
    `now` in milliseconds and the set of paths that exist. */
module DownloadStore {
  import opened Util

  /** `DownloadStatus`; the table stores its name as text, and only these
      three names are ever written. */
  datatype DownloadStatus = DOWNLOADING | COMPLETED | FAILED

  /** One row of `download_states`; `progress` is Kotlin's Float, read as a real. */
  datatype DownloadRecord = DownloadRecord(
    packageName: string,
    downloadUrl: string,
    appName: string,
    status: DownloadStatus,
    progress: real,
    filePath: Option<string>,
    errorMessage: Option<string>,
    createdAt: int,
    updatedAt: int)

  /** The table, keyed by its primary key `packageName`. */
  type Table = map<string, DownloadRecord>

  /** 24 hours in milliseconds. */
  const DAY_MS: int := 24 * 60 * 60 * 1000

  /** Every row sits under its own package name. */
  predicate Keyed(t: Table)
  {
    forall k :: k in t ==> t[k].packageName == k
  }

  /** What the repository's writes keep true of every row: a running download
      has neither file nor error, a completed one has a file, a failed one
      has an error. */
  predicate Consistent(t: Table)
  {
    Keyed(t) &&
    forall k :: k in t ==>
      && (t[k].status == DOWNLOADING ==> t[k].filePath.None? && t[k].errorMessage.None?)
      && (t[k].status == COMPLETED ==> t[k].filePath.Some?)
      && (t[k].status == FAILED ==> t[k].errorMessage.Some?)
  }

  /** `WHERE status = :status`. */
  function WithStatus(t: Table, status: DownloadStatus): Table
  {
    map k | k in t && t[k].status == status :: t[k]
  }

  /** Every row has exactly one of the three statuses, so the three status
      queries split the table between them. */
  lemma StatusPartition(t: Table)
    ensures WithStatus(t, DOWNLOADING).Keys + WithStatus(t, COMPLETED).Keys + WithStatus(t, FAILED).Keys == t.Keys
    ensures WithStatus(t, DOWNLOADING).Keys !! WithStatus(t, COMPLETED).Keys
    ensures WithStatus(t, COMPLETED).Keys !! WithStatus(t, FAILED).Keys
    ensures WithStatus(t, DOWNLOADING).Keys !! WithStatus(t, FAILED).Keys
  {
    forall k | k in t
      ensures k in WithStatus(t, DOWNLOADING).Keys + WithStatus(t, COMPLETED).Keys + WithStatus(t, FAILED).Keys
    {
      match t[k].status
      case DOWNLOADING =>
      case COMPLETED =>
      case FAILED =>
    }
  }

  /** `INSERT OR REPLACE`: the row under `r.packageName` becomes `r`. */
  function Upsert(t: Table, r: DownloadRecord): (u: Table)
    ensures u.Keys == t.Keys + {r.packageName} && u[r.packageName] == r
    ensures forall k :: k in t && k != r.packageName ==> u[k] == t[k]
    ensures Keyed(t) ==> Keyed(u)
  {
    t[r.packageName := r]
  }

  /** Room's `@Update`: replaces the row with the same key, if there is one. */
  function Replace(t: Table, r: DownloadRecord): (u: Table)
    ensures u.Keys == t.Keys
    ensures forall k :: k in t ==> u[k] == (if k == r.packageName then r else t[k])
    ensures Keyed(t) ==> Keyed(u)
  {
    if r.packageName in t then t[r.packageName := r] else t
  }

  /** `UPDATE ... SET status, updatedAt WHERE packageName = :packageName`. */
  function SetStatus(t: Table, pkg: string, status: DownloadStatus, now: int): (u: Table)
    ensures u.Keys == t.Keys && (Keyed(t) ==> Keyed(u))
    ensures forall k :: k in t ==> u[k] == (if k == pkg then t[k].(status := status, updatedAt := now) else t[k])
  {
    if pkg in t then t[pkg := t[pkg].(status := status, updatedAt := now)] else t
  }

  /** `UPDATE ... SET progress, updatedAt WHERE packageName = :packageName`:
      only those two fields of that one row change, and nothing at all when
      the row is absent. */
  function SetProgress(t: Table, pkg: string, progress: real, now: int): (u: Table)
    ensures u.Keys == t.Keys && (Keyed(t) ==> Keyed(u))
    ensures forall k :: k in t ==> u[k] == (if k == pkg then t[k].(progress := progress, updatedAt := now) else t[k])
    ensures Consistent(t) ==> Consistent(u)
  {
    if pkg in t then t[pkg := t[pkg].(progress := progress, updatedAt := now)] else t
  }

  /** `UPDATE ... SET status, filePath, updatedAt WHERE packageName = :packageName`. */
  function SetCompleted(t: Table, pkg: string, status: DownloadStatus, path: string, now: int): (u: Table)
    ensures u.Keys == t.Keys && (Keyed(t) ==> Keyed(u))
    ensures forall k :: k in t ==> (
      u[k] == if k == pkg then t[k].(status := status, filePath := Some(path), updatedAt := now) else t[k])
    ensures Consistent(t) && status == COMPLETED ==> Consistent(u)
  {
    if pkg in t then t[pkg := t[pkg].(status := status, filePath := Some(path), updatedAt := now)] else t
  }

  /** `UPDATE ... SET status, errorMessage, updatedAt WHERE packageName = :packageName`. */
  function SetFailed(t: Table, pkg: string, status: DownloadStatus, message: string, now: int): (u: Table)
    ensures u.Keys == t.Keys && (Keyed(t) ==> Keyed(u))
    ensures forall k :: k in t ==> (
      u[k] == if k == pkg then t[k].(status := status, errorMessage := Some(message), updatedAt := now) else t[k])
    ensures Consistent(t) && status == FAILED ==> Consistent(u)
  {
    if pkg in t then t[pkg := t[pkg].(status := status, errorMessage := Some(message), updatedAt := now)] else t
  }

  /** `DELETE ... WHERE status = :status`: exactly the rows with that status go. */
  function WithoutStatus(t: Table, status: DownloadStatus): (u: Table)
    ensures u.Keys == t.Keys - WithStatus(t, status).Keys
    ensures forall k :: k in u ==> u[k] == t[k]
    ensures Keyed(t) ==> Keyed(u)
    ensures Consistent(t) ==> Consistent(u)
  {
    map k | k in t && t[k].status != status :: t[k]
  }

  /** The row `startDownload` writes: running, nothing downloaded, no file,
      no error, both timestamps `now`. */
  function NewDownload(pkg: string, url: string, appName: string, now: int): (r: DownloadRecord)
    ensures r.packageName == pkg && r.status == DOWNLOADING && r.progress == 0.0
    ensures r.filePath.None? && r.errorMessage.None?
    ensures r.createdAt == now && r.updatedAt == now
  {
    DownloadRecord(pkg, url, appName, DOWNLOADING, 0.0, None, None, now, now)
  }

  lemma StartKeepsConsistent(t: Table, pkg: string, url: string, appName: string, now: int)
    requires Consistent(t)
    ensures Consistent(Upsert(t, NewDownload(pkg, url, appName, now)))
  {
  }

  /** A completed row whose file no longer exists. */
  predicate Stale(r: DownloadRecord, files: set<string>)
  {
    r.status == COMPLETED && r.filePath.Some? && r.filePath.value !in files
  }

  /** A completed row whose file exists: one that is ready to install. */
  predicate Usable(r: DownloadRecord, files: set<string>)
  {
    r.status == COMPLETED && r.filePath.Some? && r.filePath.value in files
  }

  /** What `getCompletedDownloads` returns. */
  function UsableCompleted(t: Table, files: set<string>): (u: Table)
    ensures forall k :: k in u <==> k in t && Usable(t[k], files)
    ensures forall k :: k in u ==> u[k] == t[k]
  {
    map k | k in t && Usable(t[k], files) :: t[k]
  }

  /** The table after `getCompletedDownloads` has purged it. */
  function Purged(t: Table, files: set<string>): (u: Table)
    ensures forall k :: k in u <==> k in t && !Stale(t[k], files)
    ensures forall k :: k in u ==> u[k] == t[k]
  {
    map k | k in t && !Stale(t[k], files) :: t[k]
  }

  /** The purge deletes only completed rows whose file is gone: completed
      rows without a path are skipped but kept, other rows are untouched,
      and what a later call returns is unchanged. Purging twice purges
      nothing more, and a consistent table stays consistent. */
  lemma PurgeFacts(t: Table, files: set<string>)
    ensures forall k :: k in t && t[k].status == COMPLETED && t[k].filePath.None? ==>
      k in Purged(t, files) && k !in UsableCompleted(t, files)
    ensures WithStatus(Purged(t, files), DOWNLOADING) == WithStatus(t, DOWNLOADING)
    ensures WithStatus(Purged(t, files), FAILED) == WithStatus(t, FAILED)
    ensures UsableCompleted(Purged(t, files), files) == UsableCompleted(t, files)
    ensures Purged(Purged(t, files), files) == Purged(t, files)
    ensures Consistent(t) ==> Consistent(Purged(t, files))
  {
    var p := Purged(t, files);
    assert WithStatus(p, DOWNLOADING).Keys == WithStatus(t, DOWNLOADING).Keys;
    assert WithStatus(p, FAILED).Keys == WithStatus(t, FAILED).Keys;
    assert UsableCompleted(p, files).Keys == UsableCompleted(t, files).Keys;
    assert Purged(p, files).Keys == p.Keys;
  }

  /** In a table the repository has kept consistent every completed row has
      a path, so after the purge the completed rows are exactly those
      `getCompletedDownloads` returns. */
  lemma PurgeLeavesOnlyUsable(t: Table, files: set<string>)
    requires Consistent(t)
    ensures WithStatus(Purged(t, files), COMPLETED) == UsableCompleted(t, files)
  {
    assert WithStatus(Purged(t, files), COMPLETED).Keys == UsableCompleted(t, files).Keys;
  }

  /** A failed row last touched more than a day before `now`. */
  predicate Expired(r: DownloadRecord, now: int)
  {
    r.status == FAILED && r.updatedAt < now - DAY_MS
  }

  /** The table after `cleanupOldFailedDownloads` at time `now`. */
  function Swept(t: Table, now: int): (u: Table)
    ensures forall k :: k in u <==> k in t && !Expired(t[k], now)
    ensures forall k :: k in u ==> u[k] == t[k]
  {
    map k | k in t && !Expired(t[k], now) :: t[k]
  }

  /** The sweep never touches a running or completed row, keeps consistency,
      and a sweep at an earlier time adds nothing to one at a later time. */
  lemma SweepFacts(t: Table, earlier: int, now: int)
    requires earlier <= now
    ensures WithStatus(Swept(t, now), DOWNLOADING) == WithStatus(t, DOWNLOADING)
    ensures WithStatus(Swept(t, now), COMPLETED) == WithStatus(t, COMPLETED)
    ensures Swept(Swept(t, earlier), now) == Swept(t, now)
    ensures Consistent(t) ==> Consistent(Swept(t, now))
  {
    assert WithStatus(Swept(t, now), DOWNLOADING).Keys == WithStatus(t, DOWNLOADING).Keys;
    assert WithStatus(Swept(t, now), COMPLETED).Keys == WithStatus(t, COMPLETED).Keys;
    assert Swept(Swept(t, earlier), now).Keys == Swept(t, now).Keys;
  }

  /** A download that is started and then completed is ready to install as
      long as its file exists, and keeps the URL and name it started with. */
  lemma StartThenComplete(t: Table, pkg: string, url: string, appName: string, path: string, t0: int, t1: int, files: set<string>)
    requires path in files
    ensures var u := SetCompleted(Upsert(t, NewDownload(pkg, url, appName, t0)), pkg, COMPLETED, path, t1);
      && pkg in UsableCompleted(u, files)
      && u[pkg].downloadUrl == url && u[pkg].appName == appName && u[pkg].createdAt == t0
      && u[pkg].errorMessage.None?
  {
  }

  /** `DownloadStateDao`: the Room table, mutated in place. */
  class DownloadStateDao {
    var rows: Table

    /** The primary key: each row is stored under its package name. */
    ghost predicate Valid()
      reads this
    {
      Keyed(rows)
    }

    constructor ()
      ensures Valid() && rows == map[]
    {
      rows := map[];
    }

    /** `getAllDownloadStates`. */
    method GetAllDownloadStates() returns (r: Table)
      ensures r == rows
    {
      r := rows;
    }

    /** `getDownloadStatesByStatus`: exactly the rows with that status. */
    method GetDownloadStatesByStatus(status: DownloadStatus) returns (r: Table)
      ensures forall k :: k in r <==> k in rows && rows[k].status == status
      ensures forall k :: k in r ==> r[k] == rows[k]
    {
      r := WithStatus(rows, status);
    }

    /** `getDownloadStateByPackage`: the row for that key, or null. */
    method GetDownloadStateByPackage(pkg: string) returns (r: Option<DownloadRecord>)
      ensures r.Some? <==> pkg in rows
      ensures r.Some? ==> r.value == rows[pkg]
    {
      r := if pkg in rows then Some(rows[pkg]) else None;
    }

    /** `getCompletedDownloads`: the rows with status 'COMPLETED'. */
    method GetCompletedDownloads() returns (r: Table)
      ensures forall k :: k in r <==> k in rows && rows[k].status == COMPLETED
      ensures forall k :: k in r ==> r[k] == rows[k]
    {
      r := WithStatus(rows, COMPLETED);
    }

    /** `getActiveDownloads`: the rows with status 'DOWNLOADING'. */
    method GetActiveDownloads() returns (r: Table)
      ensures forall k :: k in r <==> k in rows && rows[k].status == DOWNLOADING
      ensures forall k :: k in r ==> r[k] == rows[k]
    {
      r := WithStatus(rows, DOWNLOADING);
    }

    method InsertDownloadState(downloadState: DownloadRecord)
      requires Valid()
      modifies this
      ensures Valid()
      ensures rows == Upsert(old(rows), downloadState)
    {
      rows := rows[downloadState.packageName := downloadState];
    }

    method UpdateDownloadState(downloadState: DownloadRecord)
      requires Valid()
      modifies this
      ensures Valid()
      ensures rows == Replace(old(rows), downloadState)
    {
      if downloadState.packageName in rows {
        rows := rows[downloadState.packageName := downloadState];
      }
    }

    method UpdateDownloadStatus(pkg: string, status: DownloadStatus, now: int)
      requires Valid()
      modifies this
      ensures Valid()
      ensures rows == SetStatus(old(rows), pkg, status, now)
    {
      if pkg in rows {
        rows := rows[pkg := rows[pkg].(status := status, updatedAt := now)];
      }
    }

    method UpdateDownloadProgress(pkg: string, progress: real, now: int)
      requires Valid()
      modifies this
      ensures Valid()
      ensures rows == SetProgress(old(rows), pkg, progress, now)
    {
      if pkg in rows {
        rows := rows[pkg := rows[pkg].(progress := progress, updatedAt := now)];
      }
    }

    method MarkDownloadCompleted(pkg: string, status: DownloadStatus, path: string, now: int)
      requires Valid()
      modifies this
      ensures Valid()
      ensures rows == SetCompleted(old(rows), pkg, status, path, now)
    {
      if pkg in rows {
        rows := rows[pkg := rows[pkg].(status := status, filePath := Some(path), updatedAt := now)];
      }
    }

    method MarkDownloadFailed(pkg: string, status: DownloadStatus, message: string, now: int)
      requires Valid()
      modifies this
      ensures Valid()
      ensures rows == SetFailed(old(rows), pkg, status, message, now)
    {
      if pkg in rows {
        rows := rows[pkg := rows[pkg].(status := status, errorMessage := Some(message), updatedAt := now)];
      }
    }

    /** `deleteDownloadState`: only that key's row goes; an absent key changes nothing. */
    method DeleteDownloadState(pkg: string)
      requires Valid()
      modifies this
      ensures Valid()
      ensures rows == old(rows) - {pkg}
    {
      rows := rows - {pkg};
    }

    method DeleteDownloadStatesByStatus(status: DownloadStatus)
      requires Valid()
      modifies this
      ensures Valid()
      ensures rows == WithoutStatus(old(rows), status)
    {
      rows := map k | k in rows && rows[k].status != status :: rows[k];
    }

    method ClearAllDownloadStates()
      requires Valid()
      modifies this
      ensures Valid()
      ensures rows == map[]
    {
      rows := map[];
    }
  }

  /** `DownloadStateRepository`: every method reads or writes the DAO's table
      and nothing else. */
  class DownloadStateRepository {
    const dao: DownloadStateDao

    constructor (dao: DownloadStateDao)
      ensures this.dao == dao
    {
      this.dao := dao;
    }

    method StartDownload(pkg: string, url: string, appName: string, now: int)
      requires dao.Valid()
      modifies dao
      ensures dao.Valid()
      ensures dao.rows == Upsert(old(dao.rows), NewDownload(pkg, url, appName, now))
    {
      var downloadState := DownloadRecord(pkg, url, appName, DOWNLOADING, 0.0, None, None, now, now);
      dao.InsertDownloadState(downloadState);
    }

    method UpdateDownloadProgress(pkg: string, progress: real, now: int)
      requires dao.Valid()
      modifies dao
      ensures dao.Valid()
      ensures dao.rows == SetProgress(old(dao.rows), pkg, progress, now)
    {
      dao.UpdateDownloadProgress(pkg, progress, now);
    }

    method MarkDownloadCompleted(pkg: string, path: string, now: int)
      requires dao.Valid()
      modifies dao
      ensures dao.Valid()
      ensures dao.rows == SetCompleted(old(dao.rows), pkg, COMPLETED, path, now)
    {
      dao.MarkDownloadCompleted(pkg, COMPLETED, path, now);
    }

    method MarkDownloadFailed(pkg: string, message: string, now: int)
      requires dao.Valid()
      modifies dao
      ensures dao.Valid()
      ensures dao.rows == SetFailed(old(dao.rows), pkg, FAILED, message, now)
    {
      dao.MarkDownloadFailed(pkg, FAILED, message, now);
    }

    /** `getCompletedDownloads`: the filter over the completed rows that
        keeps those whose file exists and deletes those whose file is gone. */
    method GetCompletedDownloads(files: set<string>) returns (result: Table)
      requires dao.Valid()
      modifies dao
      ensures dao.Valid()
      ensures result == UsableCompleted(old(dao.rows), files)
      ensures dao.rows == Purged(old(dao.rows), files)
    {
      var completed := dao.GetCompletedDownloads();
      var pending := completed.Keys;
      result := map[];
      while pending != {}
        invariant pending <= completed.Keys
        invariant forall k :: k in result <==> k in completed && k !in pending && Usable(completed[k], files)
        invariant forall k :: k in result ==> result[k] == completed[k]
        invariant forall k :: k in dao.rows <==>
          k in old(dao.rows) && !(k in completed && k !in pending && Stale(completed[k], files))
        invariant forall k :: k in dao.rows ==> dao.rows[k] == old(dao.rows)[k]
        invariant dao.Valid()
        decreases pending
      {
        var k :| k in pending;
        var download := completed[k];
        if download.filePath.Some? {
          var fileExists := download.filePath.value in files;
          if !fileExists {
            dao.DeleteDownloadState(download.packageName);
          } else {
            result := result[k := download];
          }
        }
        pending := pending - {k};
      }
      assert result.Keys == UsableCompleted(old(dao.rows), files).Keys;
      assert dao.rows.Keys == Purged(old(dao.rows), files).Keys;
    }

    method GetActiveDownloads() returns (r: Table)
      ensures forall k :: k in r <==> k in dao.rows && dao.rows[k].status == DOWNLOADING
      ensures forall k :: k in r ==> r[k] == dao.rows[k]
    {
      r := dao.GetActiveDownloads();
    }

    method GetDownloadState(pkg: string) returns (r: Option<DownloadRecord>)
      ensures r.Some? <==> pkg in dao.rows
      ensures r.Some? ==> r.value == dao.rows[pkg]
    {
      r := dao.GetDownloadStateByPackage(pkg);
    }

    method RemoveDownloadState(pkg: string)
      requires dao.Valid()
      modifies dao
      ensures dao.Valid()
      ensures dao.rows == old(dao.rows) - {pkg}
    {
      dao.DeleteDownloadState(pkg);
    }

    /** `cleanupOldFailedDownloads`: the `forEach` over all rows that deletes
        the failed ones last updated more than 24 hours before `now`. */
    method CleanupOldFailedDownloads(now: int)
      requires dao.Valid()
      modifies dao
      ensures dao.Valid()
      ensures dao.rows == Swept(old(dao.rows), now)
    {
      var allStates := dao.GetAllDownloadStates();
      var twentyFourHoursAgo := now - DAY_MS;
      var pending := allStates.Keys;
      while pending != {}
        invariant pending <= allStates.Keys
        invariant forall k :: k in dao.rows <==>
          k in allStates && !(k !in pending && Expired(allStates[k], now))
        invariant forall k :: k in dao.rows ==> dao.rows[k] == allStates[k]
        invariant dao.Valid()
        decreases pending
      {
        var k :| k in pending;
        var state := allStates[k];
        if state.status == FAILED && state.updatedAt < twentyFourHoursAgo {
          dao.DeleteDownloadState(state.packageName);
        }
        pending := pending - {k};
      }
      assert dao.rows.Keys == Swept(old(dao.rows), now).Keys;
    }

    /** `hasPendingDownloads`: a completed download ready to install or a
        running one exists; the completed-row purge happens on the way. */
    method HasPendingDownloads(files: set<string>) returns (pending: bool)
      requires dao.Valid()
      modifies dao
      ensures dao.Valid()
      ensures pending <==> UsableCompleted(old(dao.rows), files) != map[] || WithStatus(old(dao.rows), DOWNLOADING) != map[]
      ensures dao.rows == Purged(old(dao.rows), files)
    {
      var completed := GetCompletedDownloads(files);
      var active := GetActiveDownloads();
      PurgeFacts(old(dao.rows), files);
      assert active == WithStatus(dao.rows, DOWNLOADING);
      pending := completed != map[] || active != map[];
    }

    method ClearAllDownloadStates()
      requires dao.Valid()
      modifies dao
      ensures dao.Valid()
      ensures dao.rows == map[]
    {
      dao.ClearAllDownloadStates();
    }
  }
}

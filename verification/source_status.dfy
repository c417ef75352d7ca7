/** SourceStatus.DetermineSyncStatus (backend/domain/source_status.go): folds the per-job deployment
    statuses into the source's status and message and reports whether a deployment is still pending.
    Go's map iteration order is the `order` parameter; the properties below hold for every order that
    enumerates the job keys. */
module SyncStatus {
  import opened Wrappers
  import opened Domain

  predicate Running(jobs: map<string, JobStatus>, k: string) {
    k in jobs && jobs[k].deploymentStatus == "running"
  }

  predicate Failed(jobs: map<string, JobStatus>, k: string) {
    k in jobs && jobs[k].deploymentStatus == "failed"
  }

  function PendingMessage(k: string): string {
    "Deployment pending for job: " + k
  }

  function FailedMessage(k: string): string {
    "Deployment failed for job: " + k
  }

  /** The loop state: `pending`, the source's status, and `statusMsg`. */
  datatype Scan = Scan(pending: bool, status: string, message: string)

  /** `order[i]` is the last failed job of `order`. */
  predicate LastFailedAt(jobs: map<string, JobStatus>, order: seq<string>, i: int) {
    0 <= i < |order| && Failed(jobs, order[i]) && forall j | i < j < |order| :: !Failed(jobs, order[j])
  }

  /** `order[i]` is the first running job of `order`. */
  predicate FirstRunningAt(jobs: map<string, JobStatus>, order: seq<string>, i: int) {
    0 <= i < |order| && Running(jobs, order[i]) && forall j | 0 <= j < i :: !Running(jobs, order[j])
  }

  /** One iteration of the loop, for job `k`. */
  function Visit(jobs: map<string, JobStatus>, k: string, acc: Scan): Scan {
    var acc := if Running(jobs, k) then Scan(true, acc.status, if acc.message == "" then PendingMessage(k) else acc.message) else acc;
    if Failed(jobs, k) then Scan(acc.pending, StatusSyncedWithError, FailedMessage(k)) else acc
  }

  /** The loop over the jobs, visited in `order`. */
  function ScanJobs(jobs: map<string, JobStatus>, order: seq<string>, acc: Scan): (r: Scan)
    ensures r.pending <==> acc.pending || exists i | 0 <= i < |order| :: Running(jobs, order[i])
    ensures (exists i | 0 <= i < |order| :: Failed(jobs, order[i])) ==>
      && r.status == StatusSyncedWithError
      && exists i | 0 <= i < |order| :: Failed(jobs, order[i]) && r.message == FailedMessage(order[i])
    ensures !(exists i | 0 <= i < |order| :: Failed(jobs, order[i])) ==>
      && r.status == acc.status
      && (acc.message != "" ==> r.message == acc.message)
      && (acc.message == "" && (exists i | 0 <= i < |order| :: Running(jobs, order[i])) ==>
            exists i | 0 <= i < |order| :: Running(jobs, order[i]) && r.message == PendingMessage(order[i]))
      && (acc.message == "" && !(exists i | 0 <= i < |order| :: Running(jobs, order[i])) ==> r.message == "")
    decreases |order|
  {
    if order == [] then acc
    else
      assert forall i | 1 <= i < |order| :: order[i] == order[1..][i - 1];
      ScanJobs(jobs, order[1..], Visit(jobs, order[0], acc))
  }

  /** The message the scan settles on names the last failed job in the visiting order. */
  lemma {:induction false} ScanJobsNamesLastFailure(jobs: map<string, JobStatus>, order: seq<string>, acc: Scan)
    requires exists i | 0 <= i < |order| :: Failed(jobs, order[i])
    ensures exists i :: LastFailedAt(jobs, order, i) && ScanJobs(jobs, order, acc).message == FailedMessage(order[i])
    decreases |order|
  {
    var k, tail := order[0], order[1..];
    assert forall i | 1 <= i < |order| :: order[i] == tail[i - 1];
    var acc' := Visit(jobs, k, acc);
    assert ScanJobs(jobs, order, acc) == ScanJobs(jobs, tail, acc');
    if exists i | 0 <= i < |tail| :: Failed(jobs, tail[i]) {
      ScanJobsNamesLastFailure(jobs, tail, acc');
      var i :| LastFailedAt(jobs, tail, i) && ScanJobs(jobs, tail, acc').message == FailedMessage(tail[i]);
      assert LastFailedAt(jobs, order, i + 1);
    } else {
      assert LastFailedAt(jobs, order, 0);
    }
  }

  /** Without a failed job and without a message yet, the message names the first running job in the
      visiting order. */
  lemma {:induction false} ScanJobsNamesFirstPending(jobs: map<string, JobStatus>, order: seq<string>, acc: Scan)
    requires !(exists i | 0 <= i < |order| :: Failed(jobs, order[i])) && acc.message == ""
    requires exists i | 0 <= i < |order| :: Running(jobs, order[i])
    ensures exists i :: FirstRunningAt(jobs, order, i) && ScanJobs(jobs, order, acc).message == PendingMessage(order[i])
    decreases |order|
  {
    var k, tail := order[0], order[1..];
    assert forall i | 1 <= i < |order| :: order[i] == tail[i - 1];
    var acc' := Visit(jobs, k, acc);
    assert ScanJobs(jobs, order, acc) == ScanJobs(jobs, tail, acc');
    if Running(jobs, k) {
      assert FirstRunningAt(jobs, order, 0);
    } else {
      ScanJobsNamesFirstPending(jobs, tail, acc');
      var i :| FirstRunningAt(jobs, tail, i) && ScanJobs(jobs, tail, acc').message == PendingMessage(tail[i]);
      assert FirstRunningAt(jobs, order, i + 1);
    }
  }

  /** DetermineSyncStatus: the updated status record and whether some deployment is pending. The
      order-dependent promises hold for every `order` that enumerates the job keys, as Go's map
      iteration does. */
  function DetermineSyncStatus(s: SourceStatus, order: seq<string>): (r: (SourceStatus, bool))
    // Pending exactly when some job's deployment is running.
    ensures Enumerates(order, s.jobs.Keys) ==> (r.1 <==> exists k | k in s.jobs :: s.jobs[k].deploymentStatus == "running")
    // The status becomes syncedwitherror exactly when some deployment failed; otherwise it is kept.
    ensures Enumerates(order, s.jobs.Keys) ==>
      r.0.status == if exists k | k in s.jobs :: s.jobs[k].deploymentStatus == "failed" then StatusSyncedWithError else s.status
    // The message names a failed job if there is one, else a running one, else it is kept.
    ensures Enumerates(order, s.jobs.Keys) && (exists k | k in s.jobs :: s.jobs[k].deploymentStatus == "failed") ==>
      exists k | k in s.jobs :: s.jobs[k].deploymentStatus == "failed" && r.0.message == FailedMessage(k)
    ensures Enumerates(order, s.jobs.Keys) && !(exists k | k in s.jobs :: s.jobs[k].deploymentStatus == "failed") &&
            (exists k | k in s.jobs :: s.jobs[k].deploymentStatus == "running") ==>
      exists k | k in s.jobs :: s.jobs[k].deploymentStatus == "running" && r.0.message == PendingMessage(k)
    ensures Enumerates(order, s.jobs.Keys) && !(exists k | k in s.jobs :: s.jobs[k].deploymentStatus in {"failed", "running"}) ==>
      r.0.message == s.message
    // Nothing else changes.
    ensures r.0.jobs == s.jobs && r.0.lastCheckTime == s.lastCheckTime && r.0.lastUpdateTime == s.lastUpdateTime
  {
    var scan := ScanJobs(s.jobs, order, Scan(false, s.status, ""));
    assert Enumerates(order, s.jobs.Keys) ==>
      ((exists i | 0 <= i < |order| :: Running(s.jobs, order[i])) <==> exists k | k in s.jobs :: s.jobs[k].deploymentStatus == "running") by {
      forall k | Enumerates(order, s.jobs.Keys) && k in s.jobs && s.jobs[k].deploymentStatus == "running" ensures exists i | 0 <= i < |order| :: Running(s.jobs, order[i]) {
        var i :| 0 <= i < |order| && order[i] == k;
        assert Running(s.jobs, order[i]);
      }
    }
    assert Enumerates(order, s.jobs.Keys) ==>
      ((exists i | 0 <= i < |order| :: Failed(s.jobs, order[i])) <==> exists k | k in s.jobs :: s.jobs[k].deploymentStatus == "failed") by {
      forall k | Enumerates(order, s.jobs.Keys) && k in s.jobs && s.jobs[k].deploymentStatus == "failed" ensures exists i | 0 <= i < |order| :: Failed(s.jobs, order[i]) {
        var i :| 0 <= i < |order| && order[i] == k;
        assert Failed(s.jobs, order[i]);
      }
    }
    (s.(status := scan.status, message := if scan.message != "" then scan.message else s.message), scan.pending)
  }

  /** Status and the pending flag do not depend on the iteration order, and a second application (in any
      order) changes neither. */
  lemma StatusIsIdempotent(s: SourceStatus, order: seq<string>, order': seq<string>)
    requires Enumerates(order, s.jobs.Keys) && Enumerates(order', s.jobs.Keys)
    ensures var (s1, p1) := DetermineSyncStatus(s, order);
      && DetermineSyncStatus(s, order').0.status == s1.status
      && DetermineSyncStatus(s, order').1 == p1
      && DetermineSyncStatus(s1, order').0.status == s1.status
      && DetermineSyncStatus(s1, order').1 == p1
  {
  }

  /** With the same iteration order, a second application leaves the record exactly as it is. */
  lemma {:induction false} SameOrderIsIdempotent(s: SourceStatus, order: seq<string>)
    requires Enumerates(order, s.jobs.Keys)
    ensures var (s1, p1) := DetermineSyncStatus(s, order);
      DetermineSyncStatus(s1, order) == (s1, p1)
  {
    var s1 := DetermineSyncStatus(s, order).0;
    ScanIgnoresStatus(s.jobs, order, false, s.status, s1.status, "");
  }

  /** The message and pending flag of the scan depend only on the jobs and the order, not on the incoming
      status. */
  lemma {:induction false} ScanIgnoresStatus(jobs: map<string, JobStatus>, order: seq<string>, pending: bool, status: string, status': string, message: string)
    ensures var r := ScanJobs(jobs, order, Scan(pending, status, message));
      var r' := ScanJobs(jobs, order, Scan(pending, status', message));
      r.pending == r'.pending && r.message == r'.message &&
      (r.status == r'.status || (r.status == status && r'.status == status'))
    decreases |order|
  {
    if order != [] {
      var k := order[0];
      var p := pending || Running(jobs, k);
      var m0 := if Running(jobs, k) && message == "" then PendingMessage(k) else message;
      var m := if Failed(jobs, k) then FailedMessage(k) else m0;
      if Failed(jobs, k) {
        ScanIgnoresStatus(jobs, order[1..], p, StatusSyncedWithError, StatusSyncedWithError, m);
      } else {
        ScanIgnoresStatus(jobs, order[1..], p, status, status', m);
      }
    }
  }
}

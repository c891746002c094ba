/** The drift monitor of scheduler/src/jobs/monitor.py: the row-count alert
  policy and the `Monitor` baseline state machine.

  The record file is a map from path to the snapshot last written there;
  the outcome of reading it at construction is an input.
 */
module Monitoring {
  import opened Wrappers
  import opened Frames

  /** Rows that must be added before retraining is requested. */
  const RetrainThreshold := 30

  /** `DataAmountAlertPolicy.analyze(previous, latest)`. */
  predicate Analyze(previous: Frame, latest: Frame) {
    |latest.rows| - |previous.rows| >= RetrainThreshold
  }

  /** The policy fires from exactly 30 added rows on; a dataset that does not
      grow never fires. */
  lemma AnalyzeThreshold(previous: Frame, latest: Frame)
    ensures |latest.rows| == |previous.rows| + 30 ==> Analyze(previous, latest)
    ensures |latest.rows| == |previous.rows| + 29 ==> !Analyze(previous, latest)
    ensures |latest.rows| <= |previous.rows| ==> !Analyze(previous, latest)
    ensures Analyze(previous, latest) <==> |latest.rows| >= |previous.rows| + RetrainThreshold
  {
  }

  /** Only the two row counts matter, not the rows' contents. */
  lemma AnalyzeCountsOnly(p1: Frame, l1: Frame, p2: Frame, l2: Frame)
    requires |p1.rows| == |p2.rows| && |l1.rows| == |l2.rows|
    ensures Analyze(p1, l1) == Analyze(p2, l2)
  {
  }

  /** The snapshots on disk, by path. */
  type Disk = map<string, Frame>

  /** A monitor: where it persists its record, and the in-memory baseline
      (`current_record`). */
  datatype Monitor = Monitor(recordPath: string, current: Option<Frame>)

  /** `Monitor.__init__`: the baseline is the persisted record, or `None`
      when reading it fails for any reason. */
  function NewMonitor(recordPath: string, stored: Result<Frame>): (m: Monitor)
    ensures m.recordPath == recordPath
    ensures m.current.Some? <==> stored.Ok?
    ensures stored.Ok? ==> m.current.value == stored.value
  {
    Monitor(recordPath, if stored.Ok? then Some(stored.value) else None)
  }

  /** `Monitor.alert`: the policy against the baseline. Without a baseline
      `len(None)` raises. */
  function Alert(m: Monitor, latest: Frame): (r: Result<bool>)
    ensures Raises(r, "TypeError") <==> m.current.None?
    ensures r.Ok? ==> (r.value <==> |latest.rows| >= |m.current.value.rows| + RetrainThreshold)
  {
    match m.current
    case None => TypeError("object of type 'NoneType' has no len()")
    case Some(previous) => Ok(Analyze(previous, latest))
  }

  datatype Updated = Updated(monitor: Monitor, disk: Disk)

  /** What `Monitor.update_record` leaves once the record file is written:
      the snapshot overwrites the file, and the baseline is read back from
      it only while there is none. */
  function Record(m: Monitor, disk: Disk, latest: Frame): (r: Updated)
    ensures r.disk == disk[m.recordPath := latest]
    ensures r.monitor.recordPath == m.recordPath
    ensures m.current.Some? ==> r.monitor.current == m.current
    ensures m.current.None? ==> r.monitor.current == Some(latest)
  {
    var written := disk[m.recordPath := latest];
    var baseline := if m.current.None? then Some(written[m.recordPath]) else m.current;
    Updated(m.(current := baseline), written)
  }

  /** `Monitor.update_record`, given the outcome of `to_csv`: a failed write
      raises its exception before the baseline is touched (a file left half
      written is not modelled); a successful one overwrites the record and
      sets the baseline while there is none. */
  function UpdateRecord(m: Monitor, disk: Disk, latest: Frame, write: Result<Unit>): (r: Result<Updated>)
    ensures r.Raise? <==> write.Raise?
    ensures r.Raise? ==> r.exc == write.exc
    ensures r.Ok? ==> r.value.disk == disk[m.recordPath := latest] && r.value.monitor.recordPath == m.recordPath
    ensures r.Ok? && m.current.Some? ==> r.value.monitor.current == m.current
    ensures r.Ok? && m.current.None? ==> r.value.monitor.current == Some(latest)
  {
    match write
    case Raise(e) => Raise(e)
    case Ok(_) => Ok(Record(m, disk, latest))
  }

  /** After an update `alert` is always defined. */
  lemma UpdateEnablesAlert(m: Monitor, disk: Disk, latest: Frame, next: Frame)
    ensures Alert(Record(m, disk, latest).monitor, next).Ok?
  {
  }

  /** A run of updates, one snapshot after another. */
  function UpdateAll(m: Monitor, disk: Disk, snapshots: seq<Frame>): (r: Updated)
    decreases |snapshots|
  {
    if snapshots == [] then Updated(m, disk)
    else
      var u := Record(m, disk, snapshots[0]);
      UpdateAll(u.monitor, u.disk, snapshots[1..])
  }

  /** However many updates follow, the in-memory baseline is the first one
      ever set, while the file holds the last snapshot. */
  lemma {:induction false} BaselineSetOnce(m: Monitor, disk: Disk, snapshots: seq<Frame>)
    requires snapshots != []
    ensures UpdateAll(m, disk, snapshots).monitor.current == (if m.current.Some? then m.current else Some(snapshots[0]))
    ensures m.recordPath in UpdateAll(m, disk, snapshots).disk
    ensures UpdateAll(m, disk, snapshots).disk[m.recordPath] == snapshots[|snapshots| - 1]
    ensures UpdateAll(m, disk, snapshots).monitor.recordPath == m.recordPath
    decreases |snapshots|
  {
    var u := Record(m, disk, snapshots[0]);
    if |snapshots| > 1 {
      BaselineSetOnce(u.monitor, u.disk, snapshots[1..]);
    } else {
      assert UpdateAll(m, disk, snapshots) == UpdateAll(u.monitor, u.disk, []);
    }
  }
}

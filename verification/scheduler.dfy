/** One cycle of `db_monitoring` in scheduler/main.py: retrieve a snapshot,
  update the monitor's record, then, inside a `try`, ask the policy and
  request retraining; any exception there is reported to the operator by
  email. The database query, the clock and the transports are inputs. */
module Scheduler {
  import opened Wrappers
  import opened Seqs
  import opened Calendar
  import opened Frames
  import opened Monitoring
  import opened Notify
  import opened Report

  /** The SMTP account and the two receivers built at start-up. */
  datatype Setup = Setup(smtpServer: string, port: int, address: string, password: string, operator: Receiver, server: Receiver)

  /** The `EmailSender` of the setup. */
  function Mailer(setup: Setup): (s: Sender)
    ensures s.EmailSender? && s.address == setup.address
  {
    EmailSender(setup.smtpServer, setup.port, setup.address, setup.password)
  }

  /** scheduler/main.py: SMTP on smtp.naver.com:587, the operator's address
      and the model server's URL from the environment. */
  function MainSetup(sendAddress: string, sendPassword: string, receiveAddress: Option<string>, modelServerUrl: Option<string>): (s: Setup)
    ensures Mailer(s) == EmailSender("smtp.naver.com", 587, sendAddress, sendPassword)
    ensures s.operator.email == receiveAddress && s.server.httpServer == modelServerUrl
  {
    Setup("smtp.naver.com", 587, sendAddress, sendPassword,
          Receiver(receiveAddress, None, None),
          Receiver(None, None, modelServerUrl))
  }

  /** Everything outside the program during one cycle. */
  datatype World = World(smtp: SmtpSession, http: HttpOutcome, now: PyDateTime, traceback: string, recordWrite: Result<Unit>)

  /** The monitor and record file after the cycle, the effects, and whether
      the cycle raised. */
  datatype CycleEnd = CycleEnd(monitor: Monitor, disk: Disk, log: seq<Effect>, result: Result<Unit>)

  /** The `try` body: the policy decision, then the retrain request. */
  function TryBody(setup: Setup, m: Monitor, latest: Frame, world: World): Sent<Unit> {
    match Alert(m, latest)
    case Raise(e) => Sent(Raise(e), [])
    case Ok(fire) =>
      if fire then NotifierSend(HttpRequestSender, None, setup.server, world.smtp, world.http)
      else Sent(Ok(Unit), [])
  }

  /** The `except` branch: one report, sent by email to the operator; a
      failure of that email is not caught. */
  function ReportFailure(setup: Setup, e: Exc, world: World): Sent<Unit> {
    NotifierSend(Mailer(setup), Some(GenerateReport(e, world.now, world.traceback)), setup.operator, world.smtp, world.http)
  }

  /** `db_monitoring()`. The record update runs outside the `try`: a failed
      retrieval or a failed write of the record ends the cycle with that
      exception, before the policy is asked and with nothing sent. */
  function DbMonitoring(setup: Setup, m: Monitor, disk: Disk, retrieved: Result<Frame>, world: World): (c: CycleEnd)
    ensures retrieved.Raise? ==> c == CycleEnd(m, disk, [], Raise(retrieved.exc))
    ensures retrieved.Ok? && world.recordWrite.Raise? ==> c == CycleEnd(m, disk, [], Raise(world.recordWrite.exc))
    ensures retrieved.Ok? && world.recordWrite.Ok? ==> c.monitor == Record(m, disk, retrieved.value).monitor
    ensures retrieved.Ok? && world.recordWrite.Ok? ==> c.disk == disk[m.recordPath := retrieved.value]
  {
    if retrieved.Raise? then CycleEnd(m, disk, [], Raise(retrieved.exc))
    else
      var latest := retrieved.value;
      match UpdateRecord(m, disk, latest, world.recordWrite)
      case Raise(e) => CycleEnd(m, disk, [], Raise(e))
      case Ok(u) =>
        var attempt := TryBody(setup, u.monitor, latest, world);
        if attempt.result.Ok? then CycleEnd(u.monitor, u.disk, attempt.log, Ok(Unit))
        else
          var sent := ReportFailure(setup, attempt.result.exc, world);
          CycleEnd(u.monitor, u.disk, attempt.log + sent.log, sent.result)
  }

  /** The policy decision a cycle makes: the new snapshot against the
      baseline after the record update. */
  predicate Fires(m: Monitor, latest: Frame) {
    Analyze(if m.current.Some? then m.current.value else latest, latest)
  }

  /** The decision is taken after the baseline write, so `alert` never
      raises inside a cycle and it compares against the updated baseline. */
  lemma CycleDecision(m: Monitor, disk: Disk, latest: Frame)
    ensures Alert(Record(m, disk, latest).monitor, latest) == Ok(Fires(m, latest))
  {
  }

  /** With no persisted record, the first cycle compares the snapshot with
      itself and does nothing. */
  lemma FirstCycleQuiet(setup: Setup, m: Monitor, disk: Disk, latest: Frame, world: World)
    requires world.recordWrite.Ok?
    requires m.current.None?
    ensures DbMonitoring(setup, m, disk, Ok(latest), world).log == []
    ensures DbMonitoring(setup, m, disk, Ok(latest), world).result == Ok(Unit)
  {
  }

  /** Retraining is requested, with a `None` message to the model server,
      exactly when the policy fires and the server is configured; a
      quiet decision sends nothing. */
  lemma RetrainIffAlert(setup: Setup, m: Monitor, disk: Disk, latest: Frame, world: World)
    requires world.recordWrite.Ok?
    ensures var c := DbMonitoring(setup, m, disk, Ok(latest), world);
      (exists e | e in c.log :: e.Post?) <==> Fires(m, latest) && Present(setup.server.httpServer)
    ensures var c := DbMonitoring(setup, m, disk, Ok(latest), world);
      forall e | e in c.log && e.Post? :: e == Post(setup.server.httpServer.value, None)
    ensures !Fires(m, latest) ==> DbMonitoring(setup, m, disk, Ok(latest), world) == CycleEnd(Record(m, disk, latest).monitor, disk[m.recordPath := latest], [], Ok(Unit))
  {
    var c := DbMonitoring(setup, m, disk, Ok(latest), world);
    var u := Record(m, disk, latest);
    var attempt := TryBody(setup, u.monitor, latest, world);
    if Fires(m, latest) && Present(setup.server.httpServer) {
      assert attempt.log == [Post(setup.server.httpServer.value, None)];
      assert c.log == attempt.log;
      assert c.log[0] in c.log;
    }
    if Fires(m, latest) && !Present(setup.server.httpServer) {
      var sent := ReportFailure(setup, attempt.result.exc, world);
      assert c.log == sent.log;
      assert forall e | e in sent.log :: !e.Post? by {
        ReportSendsNoPost(setup, attempt.result.exc, world);
      }
    }
  }

  /** The email sender's effects never include a POST. */
  lemma ReportSendsNoPost(setup: Setup, e: Exc, world: World)
    ensures forall x | x in ReportFailure(setup, e, world).log :: !x.Post?
  {
  }

  /** The exception a failing retrain request leaves in the `try` body. */
  function MissingServer(): Exc {
    Exc("ValueError", "http_server 정보가 없습니다.")
  }

  /** A firing decision with no model server configured raises inside the
      `try`: one report describing that exception is emailed to the operator
      exactly when the session gets past `sendmail`, and the cycle ends
      normally iff the whole session, `QUIT` included, succeeds. */
  lemma FailureReportedOnce(setup: Setup, m: Monitor, disk: Disk, latest: Frame, world: World)
    requires world.recordWrite.Ok?
    requires Present(setup.operator.email)
    requires Fires(m, latest) && !Present(setup.server.httpServer)
    ensures var c := DbMonitoring(setup, m, disk, Ok(latest), world);
      c.result.Ok? <==> world.smtp.Completes?
    ensures var c := DbMonitoring(setup, m, disk, Ok(latest), world);
      Delivers(world.smtp) <==> Mails(c.log) == [SendMail(setup.address, setup.operator.email.value,
        Mail(GenerateReport(MissingServer(), world.now, world.traceback)["subject"], setup.address,
             setup.operator.email.value, GenerateReport(MissingServer(), world.now, world.traceback)["content"]))]
    ensures var c := DbMonitoring(setup, m, disk, Ok(latest), world);
      world.smtp.FailsAfter? ==> c.result == Raise(world.smtp.exc)
  {
    FailureCycle(setup, m, disk, latest, world);
    MissingServerReport(setup, world);
  }

  /** Such a cycle's effects and outcome are those of reporting the missing server. */
  lemma FailureCycle(setup: Setup, m: Monitor, disk: Disk, latest: Frame, world: World)
    requires world.recordWrite.Ok?
    requires Fires(m, latest) && !Present(setup.server.httpServer)
    ensures DbMonitoring(setup, m, disk, Ok(latest), world).log == ReportFailure(setup, MissingServer(), world).log
    ensures DbMonitoring(setup, m, disk, Ok(latest), world).result == ReportFailure(setup, MissingServer(), world).result
  {
    var u := Record(m, disk, latest);
    var attempt := TryBody(setup, u.monitor, latest, world);
    assert attempt == Sent(Raise(MissingServer()), []);
    RaisingCycle(setup, m, disk, latest, world);
    var sent := ReportFailure(setup, MissingServer(), world);
    assert [] + sent.log == sent.log;
  }

  /** A cycle whose `try` body raises ends with that body's effects
      followed by the report's, and with the report's outcome. */
  lemma RaisingCycle(setup: Setup, m: Monitor, disk: Disk, latest: Frame, world: World)
    requires world.recordWrite.Ok?
    requires TryBody(setup, Record(m, disk, latest).monitor, latest, world).result.Raise?
    ensures var attempt := TryBody(setup, Record(m, disk, latest).monitor, latest, world);
      var sent := ReportFailure(setup, attempt.result.exc, world);
      DbMonitoring(setup, m, disk, Ok(latest), world).log == attempt.log + sent.log
      && DbMonitoring(setup, m, disk, Ok(latest), world).result == sent.result
  {
  }

  /** Reporting the missing server to an operator with an address sends
      exactly one email when the session gets past `sendmail` and none
      otherwise; a failing session raises the transport's exception, even
      after the email went out. */
  lemma MissingServerReport(setup: Setup, world: World)
    requires Present(setup.operator.email)
    ensures var sent := ReportFailure(setup, MissingServer(), world);
      sent.result.Ok? <==> world.smtp.Completes?
    ensures var sent := ReportFailure(setup, MissingServer(), world);
      Delivers(world.smtp) <==> Mails(sent.log) == [SendMail(setup.address, setup.operator.email.value,
        Mail(GenerateReport(MissingServer(), world.now, world.traceback)["subject"], setup.address,
             setup.operator.email.value, GenerateReport(MissingServer(), world.now, world.traceback)["content"]))]
    ensures var sent := ReportFailure(setup, MissingServer(), world);
      world.smtp.FailsAfter? ==> sent.result == Raise(world.smtp.exc)
  {
    var report := GenerateReport(MissingServer(), world.now, world.traceback);
    assert "content" in report && "subject" in report;
    var sent := ReportFailure(setup, MissingServer(), world);
    assert sent == EmailSend(Mailer(setup), Some(report), setup.operator, world.smtp);
    if world.smtp.FailsAfter? {
      assert sent.result.Raise?;
    }
  }

  // ---------------------------------------------------------------- finding

  /** As written the in-memory baseline is never advanced: once a snapshot
      is 30 rows past it, every later cycle requests retraining again, even
      when no row has been added since. */
  lemma StaleBaselineRepeats(setup: Setup, m: Monitor, disk: Disk, latest: Frame, world: World)
    requires world.recordWrite.Ok?
    requires m.current.Some? && Analyze(m.current.value, latest) && Present(setup.server.httpServer)
    ensures var c1 := DbMonitoring(setup, m, disk, Ok(latest), world);
      var c2 := DbMonitoring(setup, c1.monitor, c1.disk, Ok(latest), world);
      Post(setup.server.httpServer.value, None) in c1.log && Post(setup.server.httpServer.value, None) in c2.log
  {
    RetrainIffAlert(setup, m, disk, latest, world);
    var c1 := DbMonitoring(setup, m, disk, Ok(latest), world);
    assert c1.monitor.current == m.current;
    RetrainIffAlert(setup, c1.monitor, c1.disk, latest, world);
  }

  /** The cycle with the baseline advanced whenever retraining is requested:
      growth is counted from the snapshot of the last request (or from the
      first snapshot seen), and the record file holds that baseline. The
      record write is taken to succeed here. */
  function CorrectedMonitoring(setup: Setup, m: Monitor, disk: Disk, retrieved: Result<Frame>, world: World): (c: CycleEnd)
    ensures retrieved.Raise? ==> c == CycleEnd(m, disk, [], Raise(retrieved.exc))
    ensures retrieved.Ok? ==> c.monitor.recordPath == m.recordPath && c.monitor.current.Some?
    ensures retrieved.Ok? && Fires(m, retrieved.value) ==> c.monitor.current == Some(retrieved.value)
    ensures retrieved.Ok? && m.current.Some? && !Fires(m, retrieved.value) ==> c.monitor == m && c.disk == disk
  {
    if retrieved.Raise? then CycleEnd(m, disk, [], Raise(retrieved.exc))
    else
      var latest := retrieved.value;
      var baseline := if m.current.Some? then m.current.value else latest;
      var fire := Analyze(baseline, latest);
      var next := if fire || m.current.None? then latest else baseline;
      var m' := m.(current := Some(next));
      var disk' := if next == baseline && m.current.Some? then disk else disk[m.recordPath := next];
      var attempt := if fire then NotifierSend(HttpRequestSender, None, setup.server, world.smtp, world.http) else Sent(Ok(Unit), []);
      if attempt.result.Ok? then CycleEnd(m', disk', attempt.log, Ok(Unit))
      else
        var sent := ReportFailure(setup, attempt.result.exc, world);
        CycleEnd(m', disk', attempt.log + sent.log, sent.result)
  }

  /** With the baseline advanced, a retrain request is not repeated for the
      same data: the cycle after a firing one, on an unchanged snapshot,
      does nothing. */
  lemma CorrectedNoRepeat(setup: Setup, m: Monitor, disk: Disk, latest: Frame, world: World)
    requires Fires(m, latest)
    ensures var c1 := CorrectedMonitoring(setup, m, disk, Ok(latest), world);
      var c2 := CorrectedMonitoring(setup, c1.monitor, c1.disk, Ok(latest), world);
      c2.log == [] && c2.result == Ok(Unit) && c2.monitor == c1.monitor
  {
    var c1 := CorrectedMonitoring(setup, m, disk, Ok(latest), world);
    assert c1.monitor.current == Some(latest);
    assert !Fires(c1.monitor, latest);
  }

  /** The corrected cycle requests retraining exactly when the snapshot is
      30 rows past the baseline, as the written one does on its first
      comparison. */
  lemma CorrectedAgreesOnDecision(setup: Setup, m: Monitor, disk: Disk, latest: Frame, world: World)
    requires world.recordWrite.Ok?
    requires Present(setup.server.httpServer)
    ensures (exists e | e in CorrectedMonitoring(setup, m, disk, Ok(latest), world).log :: e.Post?) <==> Fires(m, latest)
    ensures (exists e | e in CorrectedMonitoring(setup, m, disk, Ok(latest), world).log :: e.Post?)
        <==> (exists e | e in DbMonitoring(setup, m, disk, Ok(latest), world).log :: e.Post?)
  {
    RetrainIffAlert(setup, m, disk, latest, world);
    var c := CorrectedMonitoring(setup, m, disk, Ok(latest), world);
    if Fires(m, latest) {
      assert c.log == [Post(setup.server.httpServer.value, None)];
      assert c.log[0] in c.log;
    }
  }
}

/** The agent's side of recovery: which persisted reports it announces and which it deletes. */
module AgentRecovery {
  import opened Basics
  import opened Fleet
  import opened FleetProtocol
  import opened FleetInvariant
  import opened FleetRuns
  import opened FleetRecovery
  import opened Receipts
  import opened Coordinators

  /** A report file is named after its job and lease. */
  datatype Path = Path(job: JobId, lease: LeaseId)

  function PathOf(report: Report): Path
  {
    Path(report.job, report.lease)
  }

  /** Two reports share a file name exactly when they are about one job under one lease. */
  lemma PathsApart(a: Report, b: Report)
    ensures PathOf(a) == PathOf(b) <==> a.job == b.job && a.lease == b.lease
  {
  }

  datatype Persisted = Persisted(path: Path, report: Report)

  /** The coordinator's answer to one announced report. */
  datatype Answer = Answer(job: JobId, lease: LeaseId, action: RecoveryAction)

  datatype AgentError =
    | DifferentReport | ForeignReport | TooManyReports | SessionRefused | WrongCount | UnknownRecovery
    | SubmissionFailed | SubmissionRejected

  predicate Names(answer: Answer, p: Persisted)
  {
    answer.job == p.report.job && answer.lease == p.report.lease
  }

  ghost predicate DistinctPaths(persisted: seq<Persisted>)
  {
    forall i, j :: 0 <= i < j < |persisted| ==> persisted[i].path != persisted[j].path
  }

  /** The answers are about the announced reports, in order, and no two of those are about one job. */
  ghost predicate Answered(persisted: seq<Persisted>, answers: seq<Answer>)
  {
    && |answers| == |persisted|
    && (forall k :: 0 <= k < |answers| ==> Names(answers[k], persisted[k]))
    && forall i, j :: 0 <= i < j < |persisted| ==> persisted[i].report.job != persisted[j].report.job
  }

  /** Remove one element by putting the last in its place. */
  function SwapRemove(s: seq<Persisted>, i: nat): (r: seq<Persisted>)
    requires i < |s|
    ensures |r| == |s| - 1
  {
    var last := |s| - 1;
    if i == last then s[..last] else s[..last][i := s[last]]
  }

  lemma SwapRemoveMembers(s: seq<Persisted>, i: nat)
    requires i < |s| && DistinctPaths(s)
    ensures DistinctPaths(SwapRemove(s, i))
    ensures forall p :: p in SwapRemove(s, i) <==> p in s && p != s[i]
  {
    var r, last := SwapRemove(s, i), |s| - 1;
    forall p
      ensures p in r <==> p in s && p != s[i]
    {
      if p in r {
        var k :| 0 <= k < |r| && r[k] == p;
        assert p == s[if k == i then last else k];
      }
      if p in s && p != s[i] {
        var k :| 0 <= k < |s| && s[k] == p;
        if k == last { assert r[i] == p; } else { assert r[k] == p; }
      }
    }
  }

  /** Nothing was added or changed, and every report that is gone has nothing left to do. */
  ghost predicate OnlySpentGone(before: map<Path, Report>, after: map<Path, Report>, c: Config, run: Run)
    requires IsRun(c, run)
  {
    && after.Keys <= before.Keys && (forall path :: path in after ==> after[path] == before[path])
    && forall path :: path in before && path !in after ==> Spent(c, run, before[path].job, before[path].lease)
  }

  lemma GoneLater(before: map<Path, Report>, after: map<Path, Report>, c: Config, q: Run, r: Run)
    requires IsRun(c, q) && IsRun(c, r) && Continues(q, r) && OnlySpentGone(before, after, c, q)
    ensures OnlySpentGone(before, after, c, r)
  {
    hide IsRun, Continues, Spent;
    forall path | path in before && path !in after
      ensures Spent(c, r, before[path].job, before[path].lease)
    {
      SpentLater(c, q, r, before[path].job, before[path].lease);
    }
  }

  lemma OneMoreGone(before: map<Path, Report>, after: map<Path, Report>, c: Config, run: Run, path: Path)
    requires IsRun(c, run) && OnlySpentGone(before, after, c, run) && path in after
    requires Spent(c, run, after[path].job, after[path].lease)
    ensures OnlySpentGone(before, after - {path}, c, run)
  {
    hide IsRun, Spent;
  }

  /** Anything that others may do at the coordinator, any number of times. */
  method Meanwhile(coordinator: Coordinator)
    requires coordinator.Valid()
    modifies coordinator, coordinator.store, coordinator.ledger
    ensures coordinator.Valid() && Continues(old(coordinator.run), coordinator.run)
  {
    hide Continues, IsRun, Lawful, Committed, Inv;
    ContinuesSelf(coordinator.run);
    var rounds: nat :| true;
    for i := 0 to rounds
      invariant coordinator.Valid() && Continues(old(coordinator.run), coordinator.run)
    {
      ghost var start := coordinator.run;
      SomeRequest(coordinator);
      ContinuesOn(old(coordinator.run), start, coordinator.run);
    }
  }

  /** One request of any kind, with any contents, by anybody. */
  method SomeRequest(coordinator: Coordinator)
    requires coordinator.Valid()
    modifies coordinator, coordinator.store, coordinator.ledger
    ensures coordinator.Valid() && Continues(old(coordinator.run), coordinator.run)
  {
    hide *;
    ContinuesSelf(coordinator.run);
    var now: nat := *;
    var device: DeviceId := *;
    var session: SessionId := *;
    var job: JobId := *;
    var fingerprint: Option<nat> := *;
    if {
      case true =>
        var submission: Submission := *;
        var nonce: nat := *;
        var _, _ := coordinator.Enqueue(submission, nonce, now);
      case true => coordinator.CancelJob(job);
      case true => coordinator.Disconnect(device, session, now);
      case true => coordinator.DrainAgents();
      case true => coordinator.ReapExpired(now);
      case true =>
        var hello: Hello := *;
        var _, _ := coordinator.Connect(device, hello, now);
      case true =>
        var event: AgentEvent := *;
        var _, _ := coordinator.HandleAgentEvent(device, session, event, now);
      case true =>
        var report: Report := *;
        var _, _ := coordinator.SubmitResult(session, fingerprint, report, now);
    }
  }

  /** The agent's report directory. */
  class ReportDirectory {
    var files: map<Path, Report>

    constructor (files: map<Path, Report>)
      ensures this.files == files
    {
      this.files := files;
    }

    /** `load_persisted_reports`: every report file, provided all are this agent's and there are not too many. */
    method Load(device: DeviceId, profile: ProfileHash, maxReports: nat) returns (r: Result<seq<Persisted>, AgentError>)
      ensures r.Ok? ==>
                && |r.value| == |files| <= maxReports && DistinctPaths(r.value)
                && (forall p :: p in r.value <==> p.path in files && files[p.path] == p.report)
      ensures r.Ok? ==> forall path :: path in files ==> files[path].device == device && files[path].profile == profile
      ensures r.Err? ==>
                || |files| > maxReports
                || exists path :: path in files && !(files[path].device == device && files[path].profile == profile)
      ensures r.Err? ==> r.error == ForeignReport || r.error == TooManyReports
    {
      var rest, found := files.Keys, [];
      while rest != {}
        invariant rest <= files.Keys && |found| + |rest| == |files|
        invariant DistinctPaths(found)
        invariant forall p :: p in found <==> p.path in files && p.path !in rest && files[p.path] == p.report
        invariant forall path :: path in files && path !in rest ==>
                  files[path].device == device && files[path].profile == profile
        decreases rest
      {
        var path :| path in rest;
        rest := rest - {path};
        var report := files[path];
        if report.device != device || report.profile != profile {
          return Err(ForeignReport);
        }
        assert Persisted(path, report) !in found;
        found := found + [Persisted(path, report)];
      }
      if |found| > maxReports {
        return Err(TooManyReports);
      }
      r := Ok(found);
    }

    /** `persist_report`: a report is written under its own name, never over a different one. */
    method Persist(report: Report) returns (r: Result<Path, AgentError>)
      modifies this
      ensures r.Ok? <==> (PathOf(report) in old(files) ==> old(files)[PathOf(report)] == report)
      ensures r.Ok? ==> r.value == PathOf(report) && files == old(files)[PathOf(report) := report]
      ensures r.Err? ==> files == old(files)
    {
      var path := PathOf(report);
      if path in files {
        if files[path] != report {
          return Err(DifferentReport);
        }
        assert files == files[path := report];
        return Ok(path);
      }
      files := files[path := report];
      r := Ok(path);
    }

    /**
     * `submit_persisted_report`: the file goes only once the coordinator has said that the job is committed. A
     * request or an answer that is lost leaves the file, even if the report was committed.
     */
    method SubmitPersisted(
      coordinator: Coordinator, session: SessionId, fingerprint: Option<nat>, path: Path, report: Report, now: nat)
      returns (error: Option<AgentError>)
      requires coordinator.Valid() && path in files && files[path] == report
      modifies this, coordinator, coordinator.store, coordinator.ledger
      ensures coordinator.Valid() && Continues(old(coordinator.run), coordinator.run)
      ensures error.None? ==> files == old(files) - {path} && report.job in coordinator.ledger.receipts
      ensures error.Some? ==>
                files == old(files) && (error == Some(SubmissionFailed) || error == Some(SubmissionRejected))
    {
      hide *;
      ContinuesSelf(coordinator.run);
      var requestLost: bool := *;
      if requestLost {
        return Some(SubmissionFailed);
      }
      var ack, _ := coordinator.SubmitResult(session, fingerprint, report, now);
      var answerLost: bool := *;
      if answerLost || ack.Err? {
        return Some(SubmissionFailed);
      }
      if ack.value == ResultInvalid {
        return Some(SubmissionRejected);
      }
      files := files - {path};
      error := None;
    }

    /**
     * `reconcile_persisted_reports`, while anything else may happen at the coordinator between two requests: a
     * file is deleted only when its report is spent, and on success every announced report is gone.
     */
    method Reconcile(
      coordinator: Coordinator, session: SessionId, fingerprint: Option<nat>, persisted: seq<Persisted>,
      answers: seq<Answer>, now: nat) returns (error: Option<AgentError>)
      requires coordinator.Valid() && DistinctPaths(persisted)
      requires forall p :: p in persisted ==> p.path in files && files[p.path] == p.report
      requires forall k :: 0 <= k < |answers| && !answers[k].action.SubmitReport? ==>
                 Spent(coordinator.config, coordinator.run, answers[k].job, answers[k].lease)
      modifies this, coordinator, coordinator.store, coordinator.ledger
      ensures coordinator.Valid() && Continues(old(coordinator.run), coordinator.run)
      ensures OnlySpentGone(old(files), files, coordinator.config, coordinator.run)
      ensures error.None? ==> forall p :: p in persisted ==> p.path !in files
      ensures Answered(persisted, answers) ==> error != Some(UnknownRecovery) && error != Some(WrongCount)
    {
      hide Continues, IsRun, Spent, Lawful, OnlySpentGone, Inv, Committed;
      NothingGone(files, coordinator.config, coordinator.run);
      ContinuesSelf(coordinator.run);
      if |answers| != |persisted| {
        return Some(WrongCount);
      }
      ghost var start := coordinator.run;
      var rest := persisted;
      for k := 0 to |answers|
        invariant coordinator.Valid() && Continues(start, coordinator.run)
        invariant |rest| == |answers| - k && DistinctPaths(rest)
        invariant OnlySpentGone(old(files), files, coordinator.config, coordinator.run)
        invariant forall p :: p in rest ==> p.path in files && files[p.path] == p.report
        invariant forall p :: p in persisted ==> p in rest || p.path !in files
        invariant Answered(persisted, answers) ==> forall j :: k <= j < |persisted| ==> persisted[j] in rest
      {
        if Answered(persisted, answers) {
          assert persisted[k] in rest && Names(answers[k], persisted[k]);
        }
        if position: nat :| position < |rest| && Names(answers[k], rest[position]) {
          var found := rest[position];
          SwapRemoveMembers(rest, position);
          assert found in rest;
          rest := SwapRemove(rest, position);
          error := Settle(coordinator, session, fingerprint, found, answers[k], now, old(files), start);
          if error.Some? {
            return;
          }
        } else {
          return Some(UnknownRecovery);
        }
      }
      error := None;
    }

    /** Act on one answer, after whatever else happened since the last one. */
    method Settle(
      coordinator: Coordinator, session: SessionId, fingerprint: Option<nat>, found: Persisted, answer: Answer,
      now: nat, ghost before: map<Path, Report>, ghost start: Run) returns (error: Option<AgentError>)
      requires coordinator.Valid() && IsRun(coordinator.config, start) && Continues(start, coordinator.run)
      requires found.path in files && files[found.path] == found.report && Names(answer, found)
      requires !answer.action.SubmitReport? ==> Spent(coordinator.config, start, answer.job, answer.lease)
      requires OnlySpentGone(before, files, coordinator.config, coordinator.run)
      modifies this, coordinator, coordinator.store, coordinator.ledger
      ensures coordinator.Valid() && Continues(start, coordinator.run)
      ensures OnlySpentGone(before, files, coordinator.config, coordinator.run)
      ensures error.None? ==> files == old(files) - {found.path}
      ensures error.Some? ==>
                files == old(files) && (error == Some(SubmissionFailed) || error == Some(SubmissionRejected))
    {
      hide Continues, IsRun, Lawful, OnlySpentGone, Inv, Committed, NeverCommits;
      ghost var q := coordinator.run;
      Meanwhile(coordinator);
      ContinuesOn(start, q, coordinator.run);
      error := None;
      if answer.action.SubmitReport? {
        ghost var q' := coordinator.run;
        error := SubmitPersisted(coordinator, session, fingerprint, found.path, found.report, now);
        ContinuesOn(q, q', coordinator.run);
        ContinuesOn(start, q, coordinator.run);
        GoneLater(before, old(files), coordinator.config, q, coordinator.run);
      } else {
        GoneLater(before, files, coordinator.config, q, coordinator.run);
        SpentLater(coordinator.config, start, coordinator.run, answer.job, answer.lease);
        files := files - {found.path};
      }
      if error.None? {
        OneMoreGone(before, old(files), coordinator.config, coordinator.run, found.path);
      }
    }
  }

  lemma NothingGone(files: map<Path, Report>, c: Config, run: Run)
    requires IsRun(c, run)
    ensures OnlySpentGone(files, files, c, run)
  {
  }

  // ---- the opening of a session ------------------------------------------------------------

  /** Every file in the directory reports on a lease this device was granted. */
  ghost predicate AllIssued(files: map<Path, Report>, c: Config, r: Run, device: DeviceId)
    requires IsRun(c, r)
  {
    forall path :: path in files ==> Issued(c, r, |r.events|, device, files[path].job, files[path].lease)
  }

  /** What the agent announces about its files. */
  function RecoveriesOf(persisted: seq<Persisted>): seq<Recovery>
  {
    seq(|persisted|, i requires 0 <= i < |persisted| => Recovery(persisted[i].report.job, persisted[i].report.lease))
  }

  /** The coordinator's answers, as the welcome carries them. */
  function AnswersTo(recoveries: seq<Recovery>, dispositions: seq<RecoveryAction>): seq<Answer>
    requires |dispositions| == |recoveries|
  {
    seq(|recoveries|, i requires 0 <= i < |recoveries| =>
        Answer(recoveries[i].job, recoveries[i].lease, dispositions[i]))
  }

  /** The agent's half of the handshake. */
  datatype AgentSettings = AgentSettings(
    device: DeviceId, profile: ProfileHash, capabilities: seq<Capability>, fingerprint: Option<nat>, slots: nat)

  /** Grants remain on record, so an agent's files stay genuine while the coordinator works on. */
  lemma AllIssuedLater(files: map<Path, Report>, c: Config, q: Run, r: Run, device: DeviceId)
    requires IsRun(c, q) && IsRun(c, r) && Continues(q, r) && AllIssued(files, c, q, device)
    ensures AllIssued(files, c, r, device)
  {
    hide IsRun, Issued;
    forall path | path in files
      ensures Issued(c, r, |r.events|, device, files[path].job, files[path].lease)
    {
      IssuedGrows(c, q, r, |q.events|, |r.events|, device, files[path].job, files[path].lease);
    }
  }

  /** A report built from the command of a grant may be persisted. */
  lemma PersistedIsIssued(files: map<Path, Report>, c: Config, r: Run, i: nat, device: DeviceId, job: JobId,
                          lease: LeaseId, profile: ProfileHash, m: Measurement)
    requires IsRun(c, r) && AllIssued(files, c, r, device) && GrantedAt(c, r, i, device, job, lease)
    ensures var report := ReportFrom(c, r, i, device, job, lease, profile, m);
            AllIssued(files[PathOf(report) := report], c, r, device)
  {
    hide IsRun;
    GrantEffect(c, r, i, device, job, lease);
  }

  lemma FewerIssued(before: map<Path, Report>, after: map<Path, Report>, c: Config, r: Run, device: DeviceId)
    requires IsRun(c, r) && AllIssued(before, c, r, device) && OnlySpentGone(before, after, c, r)
    ensures AllIssued(after, c, r, device)
  {
    hide IsRun, Issued, Spent;
  }

  lemma Emptied(before: map<Path, Report>, after: map<Path, Report>, c: Config, r: Run, persisted: seq<Persisted>)
    requires IsRun(c, r) && OnlySpentGone(before, after, c, r)
    requires forall p :: p in persisted <==> p.path in before && before[p.path] == p.report
    requires forall p :: p in persisted ==> p.path !in after
    ensures after == map[]
  {
    hide IsRun, Spent;
    assert forall path :: path in before ==> Persisted(path, before[path]) in persisted;
  }

  /** Every answer but "submit" is about a spent report. */
  lemma AnswersAreHonest(
    c: Config, q: Run, r: Run, at: nat, device: DeviceId, files: map<Path, Report>, persisted: seq<Persisted>,
    dispositions: seq<RecoveryAction>)
    requires IsRun(c, q) && IsRun(c, r) && Continues(q, r) && |q.events| <= at < |r.states|
    requires AllIssued(files, c, q, device) && device !in r.states[at].agents && |dispositions| == |persisted|
    requires forall p :: p in persisted ==> p.path in files && files[p.path] == p.report
    requires forall k :: 0 <= k < |persisted| ==>
               dispositions[k] == Disposition(r.states[at], device, RecoveriesOf(persisted)[k])
    ensures var answers := AnswersTo(RecoveriesOf(persisted), dispositions);
            forall k :: 0 <= k < |answers| && !answers[k].action.SubmitReport? ==>
              Spent(c, r, answers[k].job, answers[k].lease)
  {
    hide IsRun, Issued, Spent, Continues, Disposition;
    forall k | 0 <= k < |persisted| && !dispositions[k].SubmitReport?
      ensures Spent(c, r, persisted[k].report.job, persisted[k].report.lease)
    {
      var report := persisted[k].report;
      assert persisted[k] in persisted;
      IssuedGrows(c, q, r, |q.events|, at, device, report.job, report.lease);
      assert RecoveriesOf(persisted)[k] == Recovery(report.job, report.lease);
      RefusalSpends(c, r, at, device, report.job, report.lease);
    }
  }

  /** Announce the loaded reports; whatever else happens before, the answers are honest and in order. */
  method Handshake(coordinator: Coordinator, settings: AgentSettings, persisted: seq<Persisted>, now: nat,
                   ghost files: map<Path, Report>)
    returns (welcome: Option<(SessionId, seq<Answer>)>)
    requires coordinator.Valid() && AllIssued(files, coordinator.config, coordinator.run, settings.device)
    requires forall p :: p in persisted ==> p.path in files && files[p.path] == p.report
    modifies coordinator, coordinator.store, coordinator.ledger
    ensures coordinator.Valid() && Continues(old(coordinator.run), coordinator.run)
    ensures welcome.Some? ==>
              var answers := welcome.value.1;
              && Answered(persisted, answers)
              && forall k :: 0 <= k < |answers| && !answers[k].action.SubmitReport? ==>
                   Spent(coordinator.config, coordinator.run, answers[k].job, answers[k].lease)
  {
    hide Continues, IsRun, Lawful, Inv, Committed, Issued, Spent, ValidateHello, AllIssued, Disposition, Granted,
      AfterDeparture, Coordinator.RunsAgain;
    ghost var c, start := coordinator.config, coordinator.run;
    Meanwhile(coordinator);
    ghost var met := coordinator.run;
    AllIssuedLater(files, c, start, met, settings.device);
    var recoveries := RecoveriesOf(persisted);
    var hello := Hello(settings.profile, settings.capabilities, settings.fingerprint, settings.slots, recoveries);
    var connected, at := coordinator.Connect(settings.device, hello, now);
    ContinuesOn(start, met, coordinator.run);
    if connected.Err? {
      return None;
    }
    var (session, dispositions) := connected.value;
    AnswersAreHonest(c, met, coordinator.run, at, settings.device, files, persisted, dispositions);
    AnswersInOrder(persisted, dispositions);
    welcome := Some((session, AnswersTo(recoveries, dispositions)));
  }

  lemma AnswersInOrder(persisted: seq<Persisted>, dispositions: seq<RecoveryAction>)
    requires |dispositions| == |persisted| && DistinctJobs(RecoveriesOf(persisted))
    ensures Answered(persisted, AnswersTo(RecoveriesOf(persisted), dispositions))
  {
    var recoveries := RecoveriesOf(persisted);
    assert forall i :: 0 <= i < |persisted| ==> recoveries[i].job == persisted[i].report.job;
  }

  /**
   * How `run_session` begins: load the report files, connect, and reconcile, while others use the coordinator.
   * Every file that is deleted, on whatever path, reports on a job that has its receipt or on a lease under
   * which nothing can be committed any more; and a session starts only with an empty directory.
   */
  method BeginSession(directory: ReportDirectory, coordinator: Coordinator, settings: AgentSettings, now: nat)
    returns (r: Result<SessionId, AgentError>)
    requires coordinator.Valid()
    requires AllIssued(directory.files, coordinator.config, coordinator.run, settings.device)
    modifies directory, coordinator, coordinator.store, coordinator.ledger
    ensures coordinator.Valid() && Continues(old(coordinator.run), coordinator.run)
    ensures OnlySpentGone(old(directory.files), directory.files, coordinator.config, coordinator.run)
    ensures AllIssued(directory.files, coordinator.config, coordinator.run, settings.device)
    ensures r.Ok? ==> directory.files == map[]
    ensures r != Err(UnknownRecovery) && r != Err(WrongCount)
  {
    hide Continues, IsRun, Lawful, OnlySpentGone, Inv, Committed, Issued, Spent, AllIssued, Answered;
    ghost var c, start, before := coordinator.config, coordinator.run, directory.files;
    ContinuesSelf(start);
    NothingGone(before, c, start);
    var loaded := directory.Load(settings.device, settings.profile, settings.slots);
    if loaded.Err? {
      return Err(loaded.error);
    }
    var persisted := loaded.value;
    var welcome := Handshake(coordinator, settings, persisted, now, before);
    ghost var joined := coordinator.run;
    AllIssuedLater(before, c, start, joined, settings.device);
    if welcome.None? {
      GoneLater(before, before, c, start, joined);
      return Err(SessionRefused);
    }
    var (session, answers) := welcome.value;
    var failed := directory.Reconcile(coordinator, session, settings.fingerprint, persisted, answers, now);
    ContinuesOn(start, joined, coordinator.run);
    AllIssuedLater(before, c, joined, coordinator.run, settings.device);
    FewerIssued(before, directory.files, c, coordinator.run, settings.device);
    if failed.Some? {
      return Err(failed.value);
    }
    Emptied(before, directory.files, c, coordinator.run, persisted);
    r := Ok(session);
  }

  // ---- a lost session costs nothing --------------------------------------------------------

  /** The report is one the coordinator would take from this device right now. */
  ghost predicate Acceptable(coordinator: Coordinator, device: DeviceId, report: Report)
    reads coordinator, coordinator.ledger, coordinator.store
  {
    && device in coordinator.agents && report.device == device && report.job in coordinator.jobs
    && ReportValid(coordinator.config, report.job, coordinator.jobs[report.job], device, coordinator.agents[device],
                   coordinator.agents[device].session, report)
    && (coordinator.config.ledger.Directory? ==> |coordinator.ledger.codec.encode(report)| <= MAX_RECORD_BYTES)
  }

  /**
   * An agent that loses its session while it holds an acceptable report, and comes back with the same profile
   * and the report among its recoveries, is told to submit it, and the submission is committed.
   */
  method ReconnectAndSubmit(coordinator: Coordinator, device: DeviceId, hello: Hello, ghost k: nat, report: Report,
                            now: nat)
    returns (r: Result<SubmitAck, ServiceError>)
    requires coordinator.Valid() && Acceptable(coordinator, device, report)
    requires ValidateHello(coordinator.config, hello).None? && hello.profile == coordinator.agents[device].profile
    requires k < |hello.recoveries| && hello.recoveries[k] == Recovery(report.job, report.lease)
    modifies coordinator, coordinator.store, coordinator.ledger
    ensures coordinator.Valid() && Continues(old(coordinator.run), coordinator.run)
    ensures r == Ok(ResultCommitted)
    ensures coordinator.ledger.receipts
            == old(coordinator.ledger.receipts)[report.job := coordinator.ledger.codec.encode(report)]
  {
    hide Continues, IsRun, Lawful, Inv, Committed, EvidenceAcceptable, ValidateHello, Granted;
    ghost var before, job := coordinator.run, coordinator.jobs[report.job];
    coordinator.ValidInv();
    NotCommitted(coordinator.config, coordinator.View(), report.job);
    var connected, at := coordinator.Connect(device, hello, now);
    ghost var joined := coordinator.run;
    NotCommittedBefore(coordinator.config, joined, at, report.job);
    assert connected.value.1[k] == SubmitReport;
    coordinator.ValidInv();
    BoundOf(coordinator.config, coordinator.View(), report.job);
    EvidenceOfSame(coordinator.config, job, coordinator.jobs[report.job], report);
    var ack, _ := coordinator.SubmitResult(connected.value.0, hello.fingerprint, report, now);
    ContinuesOn(before, joined, coordinator.run);
    r := ack;
  }

  lemma NotCommitted(c: Config, s: State, job: JobId)
    requires Inv(c, s) && job in s.jobs
    ensures job !in s.receipts
  {
  }

  lemma NotCommittedBefore(c: Config, r: Run, k: nat, job: JobId)
    requires IsRun(c, r) && k < |r.states| && job !in Last(r).receipts
    ensures job !in r.states[k].receipts
  {
    hide Steps, Init;
    if job in r.states[k].receipts {
      ReceiptsKept(c, r, k, |r.states| - 1, job);
    }
  }
}

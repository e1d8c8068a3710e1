/** Reports that outlive their session: what the coordinator grants, and what the agent may delete. */
module FleetRecovery {
  import opened Basics
  import opened Fleet
  import opened FleetProtocol
  import opened FleetInvariant
  import opened FleetRuns

  datatype RecoveryAction = SubmitReport | AlreadyCommitted | CancelRecovery

  /** What an agent offers to recover: a persisted report's job and lease. */
  datatype Recovery = Recovery(job: JobId, lease: LeaseId)

  /** The coordinator's answer, decided while the device has no session. */
  function Disposition(s: State, device: DeviceId, recovery: Recovery): RecoveryAction
  {
    if recovery.job in s.receipts then AlreadyCommitted
    else if
      && recovery.job in s.jobs && s.jobs[recovery.job].recovery.Some?
      && s.jobs[recovery.job].recovery.value.device == device
        && s.jobs[recovery.job].recovery.value.id == recovery.lease
    then SubmitReport
    else CancelRecovery
  }

  // ---- the agent's half --------------------------------------------------------------------

  /** The command that carries an offer to the agent. */
  datatype LeaseCommand = LeaseCommand(
    session: SessionId, job: JobId, key: MeasurementKey, nonce: nat, lease: LeaseId, kind: Kind,
    engine: EngineIdentity, configHash: nat, target: ProfileHash, subjects: seq<nat>)

  function CommandFor(id: JobId, job: Job, lease: Lease): LeaseCommand
  {
    LeaseCommand(lease.session, id, job.key, job.nonce, lease.id, job.submission.kind, job.submission.engine,
                 job.submission.configHash, job.submission.target,
                 seq(|job.submission.subjects|, i requires 0 <= i < |job.submission.subjects| =>
                     job.submission.subjects[i].graphHash))
  }

  datatype Measurement = Measurement(subjects: seq<Subject>, samples: seq<Sample>, telemetry: nat, outcome: Outcome,
                                     failure: Option<nat>)

  /** The report an agent persists: everything but the measurement is copied from the command. */
  function BuildReport(command: LeaseCommand, device: DeviceId, session: SessionId, profile: ProfileHash,
                       m: Measurement): Report
  {
    Report(command.job, command.lease, device, session, profile, command.key, command.nonce, command.configHash,
           command.kind, command.engine, m.subjects, m.samples, m.telemetry, m.outcome, m.failure)
  }

  // ---- theorems ----------------------------------------------------------------------------

  /** "Submit the report" is granted only for an uncommitted job that has not been leased again. */
  lemma SubmitGrantedOnlyIfOpen(c: Config, r: Run, k: nat, device: DeviceId, recovery: Recovery)
    requires IsRun(c, r) && k < |r.states| && Disposition(r.states[k], device, recovery) == SubmitReport
    ensures var s := r.states[k];
            && recovery.job !in s.receipts && recovery.job in s.jobs && s.jobs[recovery.job].state.Queued?
            && LastGrant(r, k, recovery.job) == Some(recovery.lease)
  {
    hide QueueExact, LeasesExact, SlotsWithin, ReceiptsApart, JobsNamed, HeldDistinct, SessionsDistinct;
    RunInv(c, r, k);
    HeldIsLastGrant(c, r, k, recovery.job, recovery.lease);
  }

  /** A running lease whose session is lost can be recovered by its device, and no other lost lease can. */
  lemma LostRunningIsRecoverable(c: Config, s: State, job: JobId)
    requires Inv(c, s) && job in s.jobs && s.jobs[job].Leased() && Enabled(c, s, Requeue(job, Lost))
    ensures var lease := s.jobs[job].state.lease;
            Disposition(Next(c, s, Requeue(job, Lost)), lease.device, Recovery(job, lease.id))
            == if s.jobs[job].state.Running? then SubmitReport else CancelRecovery
  {
    hide QueueExact, LeasesExact, SlotsWithin, JobsNamed, HeldDistinct, HeldIssued, SessionsDistinct, RecoveryQueued;
  }

  /** The event grants, recovers or removes this job. */
  ghost predicate Touches(s: State, e: Event, job: JobId)
  {
    match e
    case Offer(index, _, _) => index < |s.queue| && s.queue[index] == job
    case Rebind(id, _, _) => id == job
    case Cancel(id) => id == job
    case _ => false
  }

  /** The chance to recover lasts until the job is granted again, recovered or cancelled. */
  lemma {:induction false} RecoverableUntilTouched(c: Config, r: Run, i: nat, k: nat, device: DeviceId,
                                                   recovery: Recovery)
    requires IsRun(c, r) && i <= k < |r.states| && Disposition(r.states[i], device, recovery) == SubmitReport
    requires forall m :: i <= m < k ==> !Touches(r.states[m], r.events[m], recovery.job)
    ensures Disposition(r.states[k], device, recovery) == SubmitReport
    decreases k
  {
    hide Enabled, Next, Inv, Disposition, Touches, Init;
    if i < k {
      RecoverableUntilTouched(c, r, i, k - 1, device, recovery);
      StepOf(c, r, k - 1);
      RecoverableStep(c, r.states[k - 1], r.events[k - 1], device, recovery);
    }
  }

  lemma RecoverableStep(c: Config, s: State, e: Event, device: DeviceId, recovery: Recovery)
    requires Inv(c, s) && Enabled(c, s, e) && Disposition(s, device, recovery) == SubmitReport
             && !Touches(s, e, recovery.job)
    ensures Disposition(Next(c, s, e), device, recovery) == SubmitReport
  {
    hide EvidenceAcceptable, IdentityMatches, Fits, ServableAt, AgentMatches, Without, Retained, Released, Sizes,
      DigestsOf,
      KeyOf, DescriptorsOf, ValidateSubmission, RoomInLedger, FreeAfterReady, Forget, ForgetLease,
      QueueExact, LeasesExact, SlotsWithin, JobsNamed, HeldDistinct, HeldIssued, SessionsDistinct, ReceiptsApart;
  }

  /** Event `i` granted `lease` for `job` to `device`. */
  ghost predicate GrantedAt(c: Config, r: Run, i: nat, device: DeviceId, job: JobId, lease: LeaseId)
    requires IsRun(c, r)
  {
    && i < |r.events| && Grants(r, i, job) && r.events[i].device == device && r.states[i].nextLease == lease
  }

  lemma GrantEffect(c: Config, r: Run, i: nat, device: DeviceId, job: JobId, lease: LeaseId)
    requires IsRun(c, r) && GrantedAt(c, r, i, device, job, lease)
    ensures Held(r.states[i + 1], job, lease) && r.states[i + 1].jobs[job].state.Offered?
    ensures var at := r.states[i + 1].jobs[job].state.lease;
            && at.device == device && at.origin == at.session
            && device in r.states[i].agents && at.session == r.states[i].agents[device].session
    ensures r.states[i + 1].nextLease == lease + 1 && Inv(c, r.states[i + 1])
  {
    hide Inv, ServableAt, AgentMatches, Without;
    StepOf(c, r, i);
  }

  /** The job as it was when the grant was made. */
  ghost function GrantedJob(c: Config, r: Run, i: nat, device: DeviceId, job: JobId, lease: LeaseId): (granted: Job)
    requires IsRun(c, r) && GrantedAt(c, r, i, device, job, lease)
    ensures granted.Leased()
  {
    GrantEffect(c, r, i, device, job, lease);
    r.states[i + 1].jobs[job]
  }

  /** The report the agent builds in the session of the grant. */
  ghost function ReportFrom(
    c: Config, r: Run, i: nat, device: DeviceId, job: JobId, lease: LeaseId, profile: ProfileHash,
      m: Measurement): Report
    requires IsRun(c, r) && GrantedAt(c, r, i, device, job, lease)
  {
    var granted := GrantedJob(c, r, i, device, job, lease);
    BuildReport(CommandFor(job, granted, granted.state.lease), device, granted.state.lease.session, profile, m)
  }

  /**
   * A report built from the command of a grant is acceptable in every later state in which the job runs
   * under that lease and the device is connected with the profile the report names: in particular after the
   * lease was rebound to a new session, until that lease ends.
   */
  lemma PersistedReportAccepted(
    c: Config, r: Run, i: nat, j: nat, device: DeviceId, job: JobId, lease: LeaseId, profile: ProfileHash,
      m: Measurement)
    requires IsRun(c, r) && GrantedAt(c, r, i, device, job, lease) && i < j < |r.states|
    requires Held(r.states[j], job, lease) && r.states[j].jobs[job].state.Running?
    requires device in r.states[j].agents && r.states[j].agents[device].profile == profile
    requires EvidenceAcceptable(c, GrantedJob(c, r, i, device, job, lease),
                                ReportFrom(c, r, i, device, job, lease, profile, m))
    ensures ReportValid(c, job, r.states[j].jobs[job], device, r.states[j].agents[device],
                        r.states[j].agents[device].session,
                        ReportFrom(c, r, i, device, job, lease, profile, m))
  {
    hide Inv, EvidenceAcceptable, IsRun, Grants, Enabled, Next, Init;
    GrantEffect(c, r, i, device, job, lease);
    HeldThroughout(c, r, i + 1, j, job, lease);
    RunInv(c, r, j);
    BoundOf(c, r.states[j], job);
    EvidenceOfSame(c, r.states[i + 1].jobs[job], r.states[j].jobs[job],
                   ReportFrom(c, r, i, device, job, lease, profile, m));
  }

  lemma EvidenceOfSame(c: Config, a: Job, b: Job, report: Report)
    requires SameIdentity(a, b) && EvidenceAcceptable(c, a, report)
    ensures EvidenceAcceptable(c, b, report)
  {
  }

  lemma BoundOf(c: Config, s: State, job: JobId)
    requires Inv(c, s) && job in s.jobs && s.jobs[job].Leased()
    ensures JobBound(s.agents, job, s.jobs[job].state.lease)
  {
  }

  /** The lease was granted to this device for this job before state `k`, or before this run began. */
  ghost predicate Issued(c: Config, r: Run, k: nat, device: DeviceId, job: JobId, lease: LeaseId)
    requires IsRun(c, r)
  {
    lease < r.states[0].nextLease || exists i :: 0 <= i < k && GrantedAt(c, r, i, device, job, lease)
  }

  /** An issued lease is known to the source of fresh ids, and no other job holds it. */
  lemma LeaseHasOneJob(c: Config, r: Run, k: nat, m: nat, device: DeviceId, job: JobId, lease: LeaseId, other: JobId)
    requires IsRun(c, r) && k <= m < |r.states| && Issued(c, r, k, device, job, lease) && other != job
    ensures !Held(r.states[m], other, lease)
  {
    hide Inv, IsRun, Grants, Enabled, Next;
    if lease < r.states[0].nextLease {
      StartsEmpty(c, r);
      LeaseGone(c, r, 0, m, other, lease);
    } else {
      var i :| 0 <= i < k && GrantedAt(c, r, i, device, job, lease);
      GrantEffect(c, r, i, device, job, lease);
      OneHolder(c, r.states[i + 1], job, other, lease);
      LeaseGone(c, r, i + 1, m, other, lease);
    }
  }

  lemma StartsEmpty(c: Config, r: Run)
    requires IsRun(c, r)
    ensures r.states[0].jobs == map[]
  {
  }

  lemma OneHolder(c: Config, s: State, job: JobId, other: JobId, lease: LeaseId)
    requires Inv(c, s) && Held(s, job, lease) && other != job
    ensures !Held(s, other, lease)
  {
  }

  /** A recovery that is refused, for a device without a session, names a lease nobody holds. */
  lemma RefusedIsGone(c: Config, r: Run, k: nat, device: DeviceId, job: JobId, lease: LeaseId)
    requires IsRun(c, r) && k < |r.states| && Issued(c, r, k, device, job, lease)
    requires device !in r.states[k].agents && Disposition(r.states[k], device, Recovery(job, lease)) == CancelRecovery
    ensures !Held(r.states[k], job, lease) && lease < r.states[k].nextLease
  {
    hide Inv, IsRun, Grants, Enabled, Next;
    if lease < r.states[0].nextLease {
      StartsEmpty(c, r);
      LeaseGone(c, r, 0, k, job, lease);
    } else {
      var i :| 0 <= i < k && GrantedAt(c, r, i, device, job, lease);
      GrantEffect(c, r, i, device, job, lease);
      IssuedLater(c, r, i + 1, k);
      if Held(r.states[k], job, lease) {
        HeldThroughout(c, r, i + 1, k, job, lease);
        RunInv(c, r, k);
        if r.states[k].jobs[job].Leased() {
          BoundOf(c, r.states[k], job);
        }
        assert false;
      }
    }
  }

  /**
   * The agent deletes a persisted report on "already committed" and on "cancel". In the first case the job
   * has a receipt, for good; in both no report can ever be committed under that lease again.
   */
  lemma DeletedReportIsUseless(c: Config, r: Run, k: nat, m: nat, device: DeviceId, job: JobId, lease: LeaseId)
    requires IsRun(c, r) && k <= m < |r.events| && Issued(c, r, k, device, job, lease)
    requires device !in r.states[k].agents && Disposition(r.states[k], device, Recovery(job, lease)) != SubmitReport
    ensures Disposition(r.states[k], device, Recovery(job, lease)).AlreadyCommitted? ==> job in r.states[m].receipts
    ensures r.events[m].Commit? ==> r.events[m].report.lease != lease
  {
    hide Inv, Steps, Grants, Init, Next, Enabled, ReceiptsApart, Held, Issued;
    RunInv(c, r, m);
    if Disposition(r.states[k], device, Recovery(job, lease)).AlreadyCommitted? {
      ReceiptsKept(c, r, k, m, job);
      NotOpen(c, r.states[m], job);
      NotHeld(r.states[m], job, lease);
    } else {
      RefusedIsGone(c, r, k, device, job, lease);
      LeaseGone(c, r, k, m, job, lease);
    }
    if r.events[m].Commit? && r.events[m].report.lease == lease {
      CommitHeld(c, r, m);
      LeaseHasOneJob(c, r, k, m, device, job, lease, r.events[m].job);
    }
  }

  lemma NotHeld(s: State, job: JobId, lease: LeaseId)
    requires job !in s.jobs
    ensures !Held(s, job, lease)
  {
  }

  lemma CommitHeld(c: Config, r: Run, m: nat)
    requires IsRun(c, r) && m < |r.events| && m < |r.states| && r.events[m].Commit?
    ensures Held(r.states[m], r.events[m].job, r.events[m].report.lease)
  {
    hide Inv, Next, IdentityMatches, EvidenceAcceptable;
    StepOf(c, r, m);
  }

  lemma NotOpen(c: Config, s: State, job: JobId)
    requires Inv(c, s) && job in s.receipts
    ensures job !in s.jobs
  {
  }

  // ---- reports that may be deleted ---------------------------------------------------------

  /** However the run goes on, no report is committed under this lease any more. */
  ghost predicate NeverCommits(c: Config, r: Run, lease: LeaseId)
  {
    forall q, m :: IsRun(c, q) && Continues(r, q) && |r.events| <= m < |q.events| && q.events[m].Commit? ==>
      q.events[m].report.lease != lease
  }

  /** A report for this job under this lease has nothing left to do. */
  ghost predicate Spent(c: Config, r: Run, job: JobId, lease: LeaseId)
    requires IsRun(c, r)
  {
    job in Last(r).receipts || NeverCommits(c, r, lease)
  }

  lemma IssuedGrows(c: Config, q: Run, r: Run, k: nat, l: nat, device: DeviceId, job: JobId, lease: LeaseId)
    requires IsRun(c, q) && IsRun(c, r) && Continues(q, r) && k <= l && Issued(c, q, k, device, job, lease)
    ensures Issued(c, r, l, device, job, lease)
  {
    hide Steps, Init;
    if lease >= q.states[0].nextLease {
      var i :| 0 <= i < k && GrantedAt(c, q, i, device, job, lease);
      assert GrantedAt(c, r, i, device, job, lease);
    }
  }

  /** What is spent stays spent. */
  lemma SpentLater(c: Config, q: Run, r: Run, job: JobId, lease: LeaseId)
    requires IsRun(c, q) && IsRun(c, r) && Continues(q, r) && Spent(c, q, job, lease)
    ensures Spent(c, r, job, lease)
  {
    hide Steps, Init;
    if job in Last(q).receipts {
      ReceiptsKept(c, r, |q.states| - 1, |r.states| - 1, job);
    } else {
      forall p, m | IsRun(c, p) && Continues(r, p) && |r.events| <= m < |p.events| && p.events[m].Commit?
        ensures p.events[m].report.lease != lease
      {
        assert Continues(q, p);
      }
    }
  }

  /** An answer other than "submit" is given only for a spent report, whether the lease is of this run or older. */
  lemma RefusalSpends(c: Config, r: Run, k: nat, device: DeviceId, job: JobId, lease: LeaseId)
    requires IsRun(c, r) && k < |r.states| && Issued(c, r, k, device, job, lease)
    requires device !in r.states[k].agents && Disposition(r.states[k], device, Recovery(job, lease)) != SubmitReport
    ensures Spent(c, r, job, lease)
  {
    hide Steps, Init, Issued;
    forall q, m | IsRun(c, q) && Continues(r, q) && |r.events| <= m < |q.events| && q.events[m].Commit?
      ensures q.events[m].report.lease != lease
    {
      IssuedGrows(c, r, q, k, k, device, job, lease);
      DeletedReportIsUseless(c, q, k, m, device, job, lease);
    }
  }
}

/** What runs say about devices, reports and deadlines, in terms of what callers submit and agents declare. */
module FleetService {
  import opened Basics
  import opened Fleet
  import opened FleetProtocol
  import opened FleetInvariant
  import opened FleetRuns

  // ---- which device gets a job -------------------------------------------------------------

  lemma SubjectFormats(id: JobId, job: Job)
    requires NamedBy(id, job)
    ensures |job.descriptors| == |job.submission.subjects|
    ensures forall i :: 0 <= i < |job.descriptors| ==> job.descriptors[i].format == job.submission.subjects[i].format
  {
  }

  lemma JobAt(c: Config, s: State, id: JobId)
    requires Inv(c, s) && id in s.jobs
    ensures NamedBy(id, s.jobs[id])
  {
  }

  /**
   * Over every run, a lease is granted only to a connected agent that is not draining, has a free slot and the
   * submission's target profile, and declares one capability for the submission's engine, the format of every
   * subject, its configuration encoding and measurement protocol 1.
   */
  lemma LeasedDeviceCanMeasure(c: Config, r: Run, k: nat)
    requires IsRun(c, r) && k < |r.events| && r.events[k].Offer?
    ensures var s, e := r.states[k], r.events[k];
            && e.index < |s.queue| && s.queue[e.index] in s.jobs && e.device in s.agents
            && var submission, agent := s.jobs[s.queue[e.index]].submission, s.agents[e.device];
               && !agent.draining && agent.free > 0 && agent.profile == submission.target
               && (exists cap ::
                     && cap in agent.capabilities && cap.engine == submission.engine
                     && (forall i :: 0 <= i < |submission.subjects| ==> submission.subjects[i].format in cap.formats)
                     && submission.encoding in cap.encodings && 1 in cap.versions)
  {
    hide Inv, ServableAt, NamedBy, Next;
    StepOf(c, r, k);
    var s, e := r.states[k], r.events[k];
    var id := s.queue[e.index];
    JobAt(c, s, id);
    var job := s.jobs[id];
    SubjectFormats(id, job);
    var cap :| cap in s.agents[e.device].capabilities && Supports(cap, job);
    forall i | 0 <= i < |job.submission.subjects|
      ensures job.submission.subjects[i].format in cap.formats
    {
      assert job.descriptors[i] in job.descriptors;
    }
  }

  /** The agent cannot be given this submission: no slot, draining, another profile, or no sufficient capability. */
  ghost predicate Unable(agent: Agent, submission: Submission)
  {
    || agent.free == 0 || agent.draining || agent.profile != submission.target
    || forall cap :: cap in agent.capabilities ==>
         || cap.engine != submission.engine
         || (exists i :: 0 <= i < |submission.subjects| && submission.subjects[i].format !in cap.formats)
         || submission.encoding !in cap.encodings
         || 1 !in cap.versions
  }

  lemma UnsuitedIsUnable(agent: Agent, id: JobId, job: Job)
    requires NamedBy(id, job) && !AgentMatches(agent, job)
    ensures Unable(agent, job.submission)
  {
    SubjectFormats(id, job);
    hide NamedBy;
    var submission := job.submission;
    forall cap | cap in agent.capabilities && agent.free > 0 && !agent.draining && agent.profile == submission.target
      ensures || cap.engine != submission.engine
              || (exists i :: 0 <= i < |submission.subjects| && submission.subjects[i].format !in cap.formats)
              || submission.encoding !in cap.encodings
              || 1 !in cap.versions
    {
      assert !Supports(cap, job);
      if exists d :: d in job.descriptors && d.format !in cap.formats {
        var k :| 0 <= k < |job.descriptors| && job.descriptors[k].format !in cap.formats;
        assert submission.subjects[k].format !in cap.formats;
      }
    }
  }

  /**
   * When no queued job is servable, every connected agent fails every queued job: it has no free slot, is draining,
   * has another profile, or each of its capabilities lacks something the submission needs.
   */
  lemma UnservedMeansUnable(c: Config, s: State, id: JobId, device: DeviceId)
    requires Inv(c, s) && (forall i: nat :: !ServableAt(s, i))
    requires id in s.jobs && s.jobs[id].state.Queued? && device in s.agents
    ensures var submission, agent := s.jobs[id].submission, s.agents[device];
            || agent.free == 0 || agent.draining || agent.profile != submission.target
            || forall cap :: cap in agent.capabilities ==>
                 || cap.engine != submission.engine
                 || (exists i :: 0 <= i < |submission.subjects| && submission.subjects[i].format !in cap.formats)
                 || submission.encoding !in cap.encodings
                 || 1 !in cap.versions
    ensures Unable(s.agents[device], s.jobs[id].submission)
  {
    hide Inv, NamedBy, AgentMatches, Supports;
    JobAt(c, s, id);
    QueuedAt(c, s, id);
    var i: nat :| i < |s.queue| && s.queue[i] == id;
    assert !ServableAt(s, i);
    UnsuitedIsUnable(s.agents[device], id, s.jobs[id]);
  }

  lemma QueuedAt(c: Config, s: State, id: JobId)
    requires Inv(c, s) && id in s.jobs && s.jobs[id].state.Queued?
    ensures id in s.queue
  {
  }

  // ---- which report is committed -----------------------------------------------------------

  /** A 64-bit float is finite exactly when its eleven exponent bits, above the 52 bits of the mantissa, are not all set. */
  lemma FiniteBits(sign: nat, exponent: nat, mantissa: nat)
    requires sign < 2 && exponent < 2048 && mantissa < 0x10_0000_0000_0000
    ensures var d := sign * 0x8000_0000_0000_0000 + exponent * 0x10_0000_0000_0000 + mantissa;
            d <= 0xFFFF_FFFF_FFFF_FFFF && (IsFinite(d) <==> exponent < 2047)
  {
    var d := sign * 0x8000_0000_0000_0000 + exponent * 0x10_0000_0000_0000 + mantissa;
    assert d / 0x10_0000_0000_0000 == sign * 2048 + exponent;
  }

  /**
   * A report is valid if and only if it names the running lease and its holder, the job's identity, exactly the
   * submitted subjects in order, bounded evidence numbered without gaps, and one of two outcomes: success with a
   * finite reward for every subject and no message, or a failure with a short message and no reward.
   */
  lemma ReportValidExactly(c: Config, id: JobId, job: Job, device: DeviceId, agent: Agent, session: SessionId,
                           report: Report)
    ensures ReportValid(c, id, job, device, agent, session, report) <==>
            && job.state.Running? && id in agent.active && agent.active[id] == report.lease
            && job.state.lease == Lease(device, session, report.origin, report.lease, job.state.lease.deadline)
            && report.profile == agent.profile && report.key == job.key && report.nonce == job.nonce
            && report.configHash == job.submission.configHash && report.kind == job.submission.kind
            && report.engine == job.submission.engine
            && |report.subjects| == |job.submission.subjects|
            && (forall i :: 0 <= i < |report.subjects| ==>
                  && report.subjects[i].logicalIndex == i
                  && report.subjects[i].graphHash == job.submission.subjects[i].graphHash
                  && report.subjects[i].metadataBytes <= c.maxMetadataBytes)
            && |report.samples| <= c.maxSamples * |report.subjects| && report.telemetry <= c.maxTelemetry
            && (forall k :: 0 <= k < |report.samples| ==>
                  && report.samples[k].scheduleIndex == k
                  && report.samples[k].logicalIndex < |report.subjects|
                  && report.samples[k].subjectSampleIndex == SamplesOf(report.samples[..k], report.samples[k].logicalIndex))
            && (|| (&& report.outcome.Succeeded? && report.failureMessage.None?
                    && forall i :: 0 <= i < |report.subjects| ==>
                         report.subjects[i].reward.Some? && IsFinite(report.subjects[i].reward.value))
                || (&& report.outcome.Failed? && report.failureMessage.Some? && report.failureMessage.value <= 512
                    && forall i :: 0 <= i < |report.subjects| ==> report.subjects[i].reward.None?))
  {
    forall i | 0 <= i < |report.subjects| ensures report.subjects[i] in report.subjects { }
  }

  /**
   * Over every run, a committed report answers its job's submission: one subject per submitted artifact, and either
   * success with a finite reward for each and no message, or a failure with a message of at most 512 bytes and no
   * reward; never an unknown or unspecified outcome.
   */
  lemma CommittedReportAnswers(c: Config, r: Run, k: nat)
    requires IsRun(c, r) && k < |r.events| && r.events[k].Commit?
    ensures var e, s := r.events[k], r.states[k];
            && e.job in s.jobs && e.report.job == e.job
            && var report, submission := e.report, s.jobs[e.job].submission;
               && |report.subjects| == |submission.subjects|
               && (forall i :: 0 <= i < |report.subjects| ==>
                     report.subjects[i].graphHash == submission.subjects[i].graphHash)
               && report.engine == submission.engine && report.configHash == submission.configHash
               && report.kind == submission.kind
               && (|| (&& report.outcome.Succeeded? && report.failureMessage.None?
                       && forall i :: 0 <= i < |report.subjects| ==>
                            report.subjects[i].reward.Some? && IsFinite(report.subjects[i].reward.value))
                   || (&& report.outcome.Failed? && report.failureMessage.Some? && report.failureMessage.value <= 512
                       && forall i :: 0 <= i < |report.subjects| ==> report.subjects[i].reward.None?))
  {
    hide Inv, Next, ReportValid;
    StepOf(c, r, k);
    var e, s := r.events[k], r.states[k];
    ReportValidExactly(c, e.job, s.jobs[e.job], e.device, s.agents[e.device], s.agents[e.device].session, e.report);
  }

  // ---- deadlines ---------------------------------------------------------------------------

  /** Event `k` sets the deadline of this job's lease. */
  ghost predicate SetsDeadline(s: State, e: Event, job: JobId)
  {
    match e
    case Offer(index, _, _) => index < |s.queue| && s.queue[index] == job
    case Accept(id, _) => id == job
    case Heartbeat(id, _) => id == job
    case Rebind(id, _, _) => id == job
    case _ => false
  }

  /** The time an event allows from when it happens: to accept an offer, or to report again. */
  function Allowance(c: Config, e: Event): nat
  {
    if e.Offer? then e.now + c.acceptTimeout
    else if e.Accept? || e.Heartbeat? || e.Rebind? then e.now + c.leaseDuration
    else 0
  }

  lemma DeadlineStep(c: Config, s: State, e: Event, job: JobId)
    requires Inv(c, s) && Enabled(c, s, e) && job in Next(c, s, e).jobs && Next(c, s, e).jobs[job].Leased()
    ensures if SetsDeadline(s, e, job) then Next(c, s, e).jobs[job].state.lease.deadline == Allowance(c, e)
            else job in s.jobs && s.jobs[job].Leased()
                 && Next(c, s, e).jobs[job].state.lease.deadline == s.jobs[job].state.lease.deadline
  {
    hide Inv, ReportValid, Fits, ServableAt, AgentMatches, Without, Retained, Released, Sizes, DigestsOf, KeyOf,
      DescriptorsOf, ValidateSubmission, RoomInLedger, FreeAfterReady, Forget, ForgetLease;
  }

  /**
   * The deadline of a held lease: the accept timeout after its grant, or the lease duration after the acceptance,
   * heartbeat or rebind that came last.
   */
  lemma {:induction false} DeadlineIs(c: Config, r: Run, k: nat, job: JobId) returns (m: nat)
    requires IsRun(c, r) && k < |r.states| && job in r.states[k].jobs && r.states[k].jobs[job].Leased()
    ensures m < k && SetsDeadline(r.states[m], r.events[m], job)
    ensures forall q :: m < q < k ==> !SetsDeadline(r.states[q], r.events[q], job)
    ensures r.states[k].jobs[job].state.lease.deadline
            == r.events[m].now + if r.events[m].Offer? then c.acceptTimeout else c.leaseDuration
  {
    hide Enabled, Next, Inv;
    if k == 0 {
      assert false;
    } else {
      StepOf(c, r, k - 1);
      DeadlineStep(c, r.states[k - 1], r.events[k - 1], job);
      if SetsDeadline(r.states[k - 1], r.events[k - 1], job) {
        m := k - 1;
      } else {
        m := DeadlineIs(c, r, k - 1, job);
      }
    }
  }

  /**
   * A lease is requeued as expired no sooner than the accept timeout after its grant, if nothing has been heard of it
   * since, or the lease duration after the acceptance, heartbeat or rebind that came last.
   */
  lemma ExpiresNoSooner(c: Config, r: Run, k: nat) returns (m: nat)
    requires IsRun(c, r) && k < |r.events| && r.events[k].Requeue? && r.events[k].why.Expired?
    ensures m < k && SetsDeadline(r.states[m], r.events[m], r.events[k].job)
    ensures forall q :: m < q < k ==> !SetsDeadline(r.states[q], r.events[q], r.events[k].job)
    ensures r.events[m].now + (if r.events[m].Offer? then c.acceptTimeout else c.leaseDuration) <= r.events[k].why.now
  {
    hide Next, Inv;
    StepOf(c, r, k);
    m := DeadlineIs(c, r, k, r.events[k].job);
  }

  // ---- leases that are over ----------------------------------------------------------------

  /** A lease that expired or was rejected never commits, however the run goes on. */
  lemma EndedLeaseNeverCommits(c: Config, r: Run, k: nat, m: nat)
    requires IsRun(c, r) && k < m < |r.events| && r.events[k].Requeue? && !r.events[k].why.Lost?
    ensures r.events[k].job in r.states[k].jobs && r.states[k].jobs[r.events[k].job].Leased()
    ensures r.events[m].Commit? && r.events[m].job == r.events[k].job ==>
              r.events[m].report.lease != r.states[k].jobs[r.events[k].job].state.lease.id
  {
    hide Inv, ReportValid, Forget;
    StepOf(c, r, k);
    var job, lease := r.events[k].job, r.states[k].jobs[r.events[k].job].state.lease.id;
    InvHeld(c, r.states[k]);
    assert !Held(r.states[k + 1], job, lease);
    HeldIsIssued(c, r.states[k], job, lease);
    LeaseGone(c, r, k + 1, m, job, lease);
    if r.events[m].Commit? {
      CommitUnderLastGrant(c, r, m);
    }
  }

  // ---- job ids -----------------------------------------------------------------------------

  /** Submissions have one measurement key exactly when they ask for the same measurement. */
  lemma KeyDetermines(a: Submission, b: Submission)
    ensures KeyOf(a) == KeyOf(b) <==>
            && a.kind == b.kind && a.engine == b.engine && a.configHash == b.configHash && a.target == b.target
            && a.subjects == b.subjects
  {
    if KeyOf(a) == KeyOf(b) {
      assert |KeyOf(a).subjects| == |a.subjects| && |KeyOf(b).subjects| == |b.subjects|;
      forall i | 0 <= i < |a.subjects|
        ensures a.subjects[i] == b.subjects[i]
      {
        assert KeyOf(a).subjects[i] == (a.subjects[i].graphHash, DescriptorOf(a.subjects[i]));
        assert KeyOf(b).subjects[i] == (b.subjects[i].graphHash, DescriptorOf(b.subjects[i]));
      }
    }
  }
}

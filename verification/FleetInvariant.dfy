/** What every step of the coordinator keeps. */
module FleetInvariant {
  import opened Basics
  import opened Fleet
  import opened FleetProtocol
  import opened FleetArtifacts

  // ---- the queue lists exactly the queued jobs ---------------------------------------------

  ghost predicate QueueExact(queue: seq<JobId>, jobs: map<JobId, Job>)
  {
    && NoRepeats(queue)
    && forall j :: j in queue <==> j in jobs && jobs[j].state.Queued?
  }

  lemma {:induction false} WithoutMembers(queue: seq<JobId>, job: JobId)
    requires NoRepeats(queue)
    ensures NoRepeats(Without(queue, job))
    ensures forall j :: j in Without(queue, job) <==> j in queue && j != job
  {
    if queue != [] {
      var rest := queue[1..];
      WithoutMembers(rest, job);
      assert forall j :: j in queue <==> j == queue[0] || j in rest;
      assert queue[0] !in rest;
    }
  }

  lemma QueueAppended(queue: seq<JobId>, jobs: map<JobId, Job>, id: JobId, job: Job)
    requires QueueExact(queue, jobs) && (id in jobs ==> jobs[id].Leased()) && job.state.Queued?
    ensures QueueExact(queue + [id], jobs[id := job])
  {
  }

  lemma QueueTaken(queue: seq<JobId>, jobs: map<JobId, Job>, id: JobId, job: Job)
    requires QueueExact(queue, jobs) && id in jobs && job.Leased()
    ensures QueueExact(Without(queue, id), jobs[id := job])
  {
    WithoutMembers(queue, id);
  }

  lemma QueueDropped(queue: seq<JobId>, jobs: map<JobId, Job>, id: JobId)
    requires QueueExact(queue, jobs) && id in jobs
    ensures QueueExact(Without(queue, id), jobs - {id})
  {
    WithoutMembers(queue, id);
  }

  lemma QueueUntouched(queue: seq<JobId>, jobs: map<JobId, Job>, id: JobId, job: Job)
    requires QueueExact(queue, jobs) && id in jobs && jobs[id].state.Queued? == job.state.Queued?
    ensures QueueExact(queue, jobs[id := job])
  {
  }

  // ---- leases: jobs and agents agree -------------------------------------------------------

  /** The agent that holds the lease has it on record, in the same session. */
  ghost predicate JobBound(agents: map<DeviceId, Agent>, id: JobId, lease: Lease)
  {
    && lease.device in agents && agents[lease.device].session == lease.session
    && id in agents[lease.device].active && agents[lease.device].active[id] == lease.id
  }

  /** What an agent has on record is a lease of that job. */
  ghost predicate EntryBound(jobs: map<JobId, Job>, device: DeviceId, id: JobId, lease: LeaseId)
  {
    && id in jobs && jobs[id].Leased()
    && jobs[id].state.lease.device == device && jobs[id].state.lease.id == lease
  }

  ghost predicate LeasesExact(agents: map<DeviceId, Agent>, jobs: map<JobId, Job>)
  {
    && (forall j :: j in jobs && jobs[j].Leased() ==> JobBound(agents, j, jobs[j].state.lease))
    && (forall d, j :: d in agents && j in agents[d].active ==> EntryBound(jobs, d, j, agents[d].active[j]))
  }

  /** A fresh or rebound lease, entered on both sides. */
  lemma LeaseEntered(agents: map<DeviceId, Agent>, jobs: map<JobId, Job>, id: JobId, job: Job, agent: Agent)
    requires LeasesExact(agents, jobs) && id in jobs && !jobs[id].Leased() && job.Leased()
    requires job.state.lease.device in agents
    requires agent.session == job.state.lease.session == agents[job.state.lease.device].session
    requires agent.active == agents[job.state.lease.device].active[id := job.state.lease.id]
    ensures LeasesExact(agents[job.state.lease.device := agent], jobs[id := job])
  {
    var device := job.state.lease.device;
    var agents', jobs' := agents[device := agent], jobs[id := job];
    forall j | j in jobs' && jobs'[j].Leased()
      ensures JobBound(agents', j, jobs'[j].state.lease)
    {
      if j != id { assert JobBound(agents, j, jobs[j].state.lease); }
    }
    forall d, j | d in agents' && j in agents'[d].active
      ensures EntryBound(jobs', d, j, agents'[d].active[j])
    {
      if j != id {
        assert j in agents[d].active;
        assert EntryBound(jobs, d, j, agents[d].active[j]);
      }
    }
  }

  /** A lease struck out on both sides; the job stays or goes. */
  lemma LeaseStruck(agents: map<DeviceId, Agent>, jobs: map<JobId, Job>, id: JobId, jobs': map<JobId, Job>)
    requires LeasesExact(agents, jobs) && id in jobs
    requires forall j :: j != id ==> (j in jobs' <==> j in jobs)
    requires forall j :: j != id && j in jobs ==> jobs'[j] == jobs[j]
    requires id in jobs' ==> !jobs'[id].Leased()
    ensures LeasesExact(ForgetLease(agents, id, jobs[id]), jobs')
  {
    var agents' := ForgetLease(agents, id, jobs[id]);
    forall j | j in jobs' && jobs'[j].Leased()
      ensures JobBound(agents', j, jobs'[j].state.lease)
    {
      assert JobBound(agents, j, jobs[j].state.lease);
    }
    forall d, j | d in agents' && j in agents'[d].active
      ensures EntryBound(jobs', d, j, agents'[d].active[j])
    {
      assert j in agents[d].active;
      assert EntryBound(jobs, d, j, agents[d].active[j]);
    }
  }

  /** Changes that leave every lease and every record alone. */
  lemma LeasesUntouched(
    agents: map<DeviceId, Agent>, jobs: map<JobId, Job>, agents': map<DeviceId, Agent>, jobs': map<JobId, Job>)
    requires LeasesExact(agents, jobs)
    requires forall d :: d in agents' ==>
               if d in agents then agents'[d].session == agents[d].session && agents'[d].active == agents[d].active
               else agents'[d].active == map[]
    requires forall d :: d in agents && d !in agents' ==> agents[d].active == map[]
    requires forall j :: j in jobs ==> j in jobs' && jobs'[j].Leased() == jobs[j].Leased()
    requires forall j :: j in jobs' ==> if j in jobs then SameLease(jobs[j], jobs'[j]) else !jobs'[j].Leased()
    ensures LeasesExact(agents', jobs')
  {
    forall j | j in jobs' && jobs'[j].Leased()
      ensures JobBound(agents', j, jobs'[j].state.lease)
    {
      assert JobBound(agents, j, jobs[j].state.lease);
    }
    forall d, j | d in agents' && j in agents'[d].active
      ensures EntryBound(jobs', d, j, agents'[d].active[j])
    {
      assert EntryBound(jobs, d, j, agents[d].active[j]);
    }
  }

  /** The lease is the same up to its deadline. */
  ghost predicate SameLease(a: Job, b: Job)
  {
    && a.Leased() == b.Leased()
    && (a.Leased() ==>
          && a.state.lease.device == b.state.lease.device && a.state.lease.session == b.state.lease.session
          && a.state.lease.id == b.state.lease.id)
  }

  // ---- slots -------------------------------------------------------------------------------

  ghost predicate SlotsWithin(agents: map<DeviceId, Agent>)
  {
    forall d :: d in agents ==> agents[d].free + |agents[d].active| <= agents[d].slots
  }

  lemma SlotsForget(agents: map<DeviceId, Agent>, device: DeviceId, job: JobId)
    requires SlotsWithin(agents)
    ensures SlotsWithin(Forget(agents, device, job))
  {
    if device in agents {
      var active := agents[device].active;
      assert (active - {job}).Keys <= active.Keys;
      SubsetCard((active - {job}).Keys, active.Keys);
      assert |active - {job}| == |(active - {job}).Keys| && |active| == |active.Keys|;
    }
  }

  /** Entering a lease: one slot moves from free to active, or an unclaimed slot is used. */
  lemma SlotsEnter(agents: map<DeviceId, Agent>, device: DeviceId, agent: Agent, id: JobId, lease: LeaseId)
    requires SlotsWithin(agents) && device in agents
    requires agent.active == agents[device].active[id := lease] && agent.slots == agents[device].slots
    requires agent.free + |agents[device].active| < agent.slots
    ensures SlotsWithin(agents[device := agent])
  {
    var active := agents[device].active;
    assert agent.active.Keys == active.Keys + {id};
    assert |agent.active| == |active.Keys + {id}| <= |active| + 1;
  }

  // ---- recovery leases and fresh ids -------------------------------------------------------

  /** The lease a job holds: the one it runs under, or the one kept for its recovery. */
  function Holding(job: Job): Option<Lease>
  {
    if job.Leased() then Some(job.state.lease) else job.recovery
  }

  ghost predicate RecoveryQueued(jobs: map<JobId, Job>)
  {
    forall j :: j in jobs && jobs[j].recovery.Some? ==> jobs[j].state.Queued?
  }

  /** Held lease ids have been issued. */
  ghost predicate HeldIssued(jobs: map<JobId, Job>, nextLease: LeaseId)
  {
    forall j :: j in jobs && Holding(jobs[j]).Some? ==> Holding(jobs[j]).value.id < nextLease
  }

  /** No two jobs hold one lease id. */
  ghost predicate HeldDistinct(jobs: map<JobId, Job>)
  {
    forall i, j :: i in jobs && j in jobs && i != j && Holding(jobs[i]).Some? && Holding(jobs[j]).Some? ==>
      Holding(jobs[i]).value.id != Holding(jobs[j]).value.id
  }

  /** Sessions have been issued, and no two agents share one. */
  ghost predicate SessionsDistinct(agents: map<DeviceId, Agent>, nextSession: SessionId)
  {
    && (forall d :: d in agents ==> agents[d].session < nextSession)
    && forall d, e :: d in agents && e in agents && agents[d].session == agents[e].session ==> d == e
  }

  /** A job whose held lease id is new, unchanged or gone. */
  lemma HeldUpdate(jobs: map<JobId, Job>, id: JobId, job: Job, nextLease: LeaseId, nextLease': LeaseId)
    requires HeldIssued(jobs, nextLease) && HeldDistinct(jobs) && nextLease <= nextLease'
    requires Holding(job).Some? ==>
               || nextLease <= Holding(job).value.id < nextLease'
               || (id in jobs && Holding(jobs[id]).Some? && Holding(jobs[id]).value.id == Holding(job).value.id)
    ensures HeldIssued(jobs[id := job], nextLease') && HeldDistinct(jobs[id := job])
  {
    hide Holding;
  }

  // ---- receipts ----------------------------------------------------------------------------

  /** No job is both open and committed, and a bounded ledger has room for every open job. */
  ghost predicate ReceiptsApart(c: Config, jobs: map<JobId, Job>, receipts: map<JobId, Bytes>)
  {
    && (forall j :: j in jobs ==> j !in receipts)
    && (c.ledger.Memory? ==> |jobs| + |receipts| <= c.ledger.capacity)
  }

  /** Each open job is filed under the id of its own submission. */
  ghost predicate JobsNamed(jobs: map<JobId, Job>)
  {
    forall j :: j in jobs ==> NamedBy(j, jobs[j])
  }

  ghost predicate NamedBy(id: JobId, job: Job)
  {
    && job.key == KeyOf(job.submission) && id == JobId(job.key, job.nonce)
    && job.descriptors == DescriptorsOf(job.submission.subjects)
  }

  // ---- the invariant -----------------------------------------------------------------------

  ghost predicate Inv(c: Config, s: State)
  {
    && QueueExact(s.queue, s.jobs)
    && LeasesExact(s.agents, s.jobs) && SlotsWithin(s.agents)
    && RecoveryQueued(s.jobs)
    && HeldIssued(s.jobs, s.nextLease) && HeldDistinct(s.jobs) && SessionsDistinct(s.agents, s.nextSession)
    && ReceiptsApart(c, s.jobs, s.receipts) && JobsNamed(s.jobs)
    && ArtifactsExact(s.artifacts, s.artifactBytes, Occurrences(s.jobs))
    && ArtifactsWithin(c, s.artifacts, s.artifactBytes)
  }

  /** An empty coordinator, over whatever receipts a reopened ledger brings. */
  ghost predicate Init(c: Config, s: State)
  {
    && s.agents == map[] && s.jobs == map[] && s.queue == [] && s.artifacts == map[] && s.artifactBytes == 0
    && (c.ledger.Memory? ==> |s.receipts| <= c.ledger.capacity)
  }

  lemma InitInv(c: Config, s: State)
    requires Init(c, s)
    ensures Inv(c, s)
  {
  }

  /** The parts of a job that never change while it is open. */
  ghost predicate SameIdentity(a: Job, b: Job)
  {
    a.submission == b.submission && a.descriptors == b.descriptors && a.key == b.key && a.nonce == b.nonce
  }

  /** A job that only changes its lease keeps its name, its artifacts and its place beside the receipts. */
  lemma JobRestated(c: Config, s: State, id: JobId, job: Job)
    requires Inv(c, s) && id in s.jobs && SameIdentity(s.jobs[id], job) && (job.recovery.Some? ==> job.state.Queued?)
    ensures RecoveryQueued(s.jobs[id := job]) && JobsNamed(s.jobs[id := job])
    ensures ReceiptsApart(c, s.jobs[id := job], s.receipts)
    ensures Occurrences(s.jobs[id := job]) == Occurrences(s.jobs)
  {
    hide QueueExact, LeasesExact, SlotsWithin, HeldIssued, HeldDistinct, SessionsDistinct, ArtifactsExact, Occurrences,
      KeyOf;
    OccurrencesSame(s.jobs, id, job);
    assert s.jobs[id := job].Keys == s.jobs.Keys;
    assert |s.jobs[id := job]| == |s.jobs|;
  }

  lemma AdmitKeeps(c: Config, s: State, submission: Submission, nonce: nat)
    requires Inv(c, s) && Enabled(c, s, Admit(submission, nonce))
    ensures Inv(c, Next(c, s, Admit(submission, nonce)))
  {
    hide QueueExact, LeasesExact, SlotsWithin, HeldIssued, HeldDistinct, SessionsDistinct, ArtifactsExact,
      ArtifactsWithin,
      Occurrences, KeyOf, Fits, DescriptorsOf, DigestsOf, KeySet, Retained, Sizes, ValidateSubmission,
      RecoveryQueued, JobsNamed, ReceiptsApart, RoomInLedger;
    var id, job := JobId(KeyOf(submission), nonce), NewJob(submission, nonce);
    var more := DigestsOf(job.descriptors);
    QueueAppended(s.queue, s.jobs, id, job);
    LeasesUntouched(s.agents, s.jobs, s.agents, s.jobs[id := job]);
    HeldUpdate(s.jobs, id, job, s.nextLease, s.nextLease);
    OccurrencesWith(s.jobs, id, job);
    RetainedExact(s.artifacts, s.artifactBytes, Occurrences(s.jobs), more);
    RetainedWithin(c, s, more);
    JobAdded(c, s, id, job);
  }

  lemma JobAdded(c: Config, s: State, id: JobId, job: Job)
    requires RecoveryQueued(s.jobs) && JobsNamed(s.jobs) && ReceiptsApart(c, s.jobs, s.receipts)
    requires id !in s.jobs && id !in s.receipts && job.recovery.None? && NamedBy(id, job) && RoomInLedger(c, s)
    ensures RecoveryQueued(s.jobs[id := job]) && JobsNamed(s.jobs[id := job])
            && ReceiptsApart(c, s.jobs[id := job], s.receipts)
  {
    hide NamedBy;
    assert |s.jobs[id := job]| == |s.jobs| + 1;
  }

  lemma OfferKeeps(c: Config, s: State, index: nat, device: DeviceId, now: nat)
    requires Inv(c, s) && Enabled(c, s, Offer(index, device, now))
    ensures Inv(c, Next(c, s, Offer(index, device, now)))
  {
    hide LeasesExact, SlotsWithin, HeldIssued, HeldDistinct, ArtifactsExact, ArtifactsWithin, Occurrences,
      RecoveryQueued, JobsNamed, ReceiptsApart, ServableAt, Supports, Without;
    var id, s' := s.queue[index], OfferedTo(c, s, index, device, now);
    assert id in s.queue;
    var job := s'.jobs[id];
    JobRestated(c, s, id, job);
    QueueTaken(s.queue, s.jobs, id, job);
    LeaseEntered(s.agents, s.jobs, id, job, s'.agents[device]);
    assert s.agents[device].free + |s.agents[device].active| <= s.agents[device].slots by { SlotsAt(s.agents, device); }
    SlotsEnter(s.agents, device, s'.agents[device], id, s.nextLease);
    HeldUpdate(s.jobs, id, job, s.nextLease, s.nextLease + 1);
  }

  lemma SlotsAt(agents: map<DeviceId, Agent>, device: DeviceId)
    requires SlotsWithin(agents) && device in agents
    ensures agents[device].free + |agents[device].active| <= agents[device].slots
  {
  }

  lemma RenewKeeps(c: Config, s: State, id: JobId, now: nat)
    requires Inv(c, s) && id in s.jobs && s.jobs[id].Leased()
    ensures Inv(c, Renewed(c, s, id, now))
  {
    hide LeasesExact, SlotsWithin, HeldIssued, HeldDistinct, ArtifactsExact, ArtifactsWithin, Occurrences,
      JobsNamed, ReceiptsApart, SessionsDistinct, QueueExact;
    var job := Renewed(c, s, id, now).jobs[id];
    JobRestated(c, s, id, job);
    QueueUntouched(s.queue, s.jobs, id, job);
    LeasesUntouched(s.agents, s.jobs, s.agents, s.jobs[id := job]);
    HeldUpdate(s.jobs, id, job, s.nextLease, s.nextLease);
  }

  lemma RequeueKeeps(c: Config, s: State, id: JobId, preserve: bool)
    requires Inv(c, s) && id in s.jobs && s.jobs[id].Leased()
    ensures Inv(c, Requeued(s, id, preserve))
  {
    hide LeasesExact, SlotsWithin, HeldIssued, HeldDistinct, ArtifactsExact, ArtifactsWithin, Occurrences,
      JobsNamed, ReceiptsApart, QueueExact, RecoveryQueued;
    var s' := Requeued(s, id, preserve);
    var job := s'.jobs[id];
    JobRestated(c, s, id, job);
    QueueAppended(s.queue, s.jobs, id, job);
    LeaseStruck(s.agents, s.jobs, id, s'.jobs);
    SlotsForget(s.agents, s.jobs[id].state.lease.device, id);
    HeldUpdate(s.jobs, id, job, s.nextLease, s.nextLease);
  }

  lemma RebindKeeps(c: Config, s: State, id: JobId, device: DeviceId, now: nat)
    requires Inv(c, s) && Enabled(c, s, Rebind(id, device, now))
    ensures Inv(c, Next(c, s, Rebind(id, device, now)))
  {
    hide LeasesExact, SlotsWithin, HeldIssued, HeldDistinct, ArtifactsExact, ArtifactsWithin, Occurrences,
      JobsNamed, ReceiptsApart, QueueExact, Without;
    var s' := Rebound(c, s, id, device, now);
    var job := s'.jobs[id];
    JobRestated(c, s, id, job);
    QueueTaken(s.queue, s.jobs, id, job);
    LeaseEntered(s.agents, s.jobs, id, job, s'.agents[device]);
    SlotsEnter(s.agents, device, s'.agents[device], id, job.state.lease.id);
    HeldUpdate(s.jobs, id, job, s.nextLease, s.nextLease);
  }

  /** A job leaves, by cancellation or by commit. */
  lemma RemoveKeeps(c: Config, s: State, id: JobId)
    requires Inv(c, s) && id in s.jobs
    ensures Inv(c, Removed(s, id)) && |Removed(s, id).jobs| == |s.jobs| - 1
  {
    hide LeasesExact, SlotsWithin, ArtifactsExact, ArtifactsWithin, Occurrences, QueueExact, Without, Released,
      DigestsOf, Sizes,
      JobsNamed, RecoveryQueued, HeldIssued, HeldDistinct, ReceiptsApart;
    var s' := Removed(s, id);
    QueueDropped(s.queue, s.jobs, id);
    LeaseStruck(s.agents, s.jobs, id, s'.jobs);
    if s.jobs[id].Leased() {
      SlotsForget(s.agents, s.jobs[id].state.lease.device, id);
    }
    JobDropped(c, s, id);
    ReleasedExact(c, s.artifacts, s.artifactBytes, Occurrences(s'.jobs), DigestsOf(s.jobs[id].descriptors));
  }

  lemma JobDropped(c: Config, s: State, id: JobId)
    requires Inv(c, s) && id in s.jobs
    ensures RecoveryQueued(s.jobs - {id}) && JobsNamed(s.jobs - {id})
    ensures HeldIssued(s.jobs - {id}, s.nextLease) && HeldDistinct(s.jobs - {id})
    ensures ReceiptsApart(c, s.jobs - {id}, s.receipts) && |s.jobs - {id}| == |s.jobs| - 1
    ensures Occurrences(s.jobs) == Occurrences(s.jobs - {id}) + DigestsOf(s.jobs[id].descriptors)
  {
    hide LeasesExact, SlotsWithin, ArtifactsExact, ArtifactsWithin, Occurrences, QueueExact, DigestsOf, NamedBy,
      Holding,
      SessionsDistinct;
    OccurrencesWithout(s.jobs, id);
    assert (s.jobs - {id}).Keys == s.jobs.Keys - {id};
    assert |s.jobs - {id}| == |(s.jobs - {id}).Keys| && |s.jobs| == |s.jobs.Keys|;
  }

  lemma CommitKeeps(c: Config, s: State, id: JobId, device: DeviceId, report: Report, digest: Bytes)
    requires Inv(c, s) && Enabled(c, s, Commit(id, device, report, digest))
    ensures Inv(c, Next(c, s, Commit(id, device, report, digest)))
  {
    hide LeasesExact, SlotsWithin, ArtifactsExact, ArtifactsWithin, Occurrences, QueueExact, JobsNamed, HeldIssued,
      HeldDistinct, SessionsDistinct, RecoveryQueued, ReportValid, ReceiptsApart, Without, Released, Sizes, DigestsOf,
        Less;
    RemoveKeeps(c, s, id);
    ReceiptAdded(c, s.jobs, s.receipts, id, digest);
  }

  /** One job becomes one receipt. */
  lemma ReceiptAdded(c: Config, jobs: map<JobId, Job>, receipts: map<JobId, Bytes>, id: JobId, digest: Bytes)
    requires ReceiptsApart(c, jobs, receipts) && id in jobs
    ensures ReceiptsApart(c, jobs - {id}, receipts[id := digest])
  {
    assert |receipts[id := digest]| == |receipts| + 1;
    assert (jobs - {id}).Keys == jobs.Keys - {id};
    assert |jobs - {id}| == |(jobs - {id}).Keys| && |jobs| == |jobs.Keys|;
  }

  lemma JoinKeeps(c: Config, s: State, device: DeviceId, agent: Agent)
    requires Inv(c, s) && device !in s.agents && agent.session == s.nextSession && agent.active == map[]
             && agent.free == 0
    ensures Inv(c, s.(agents := s.agents[device := agent], nextSession := s.nextSession + 1))
  {
    hide LeasesExact, ArtifactsExact, ArtifactsWithin, Occurrences, QueueExact, JobsNamed, HeldIssued,
      HeldDistinct, RecoveryQueued, ReceiptsApart, SlotsWithin, SessionsDistinct;
    LeasesUntouched(s.agents, s.jobs, s.agents[device := agent], s.jobs);
    SlotsUpdate(s.agents, device, agent);
    SessionAdded(s.agents, s.nextSession, device, agent);
  }

  lemma LeaveKeeps(c: Config, s: State, device: DeviceId)
    requires Inv(c, s) && device in s.agents && s.agents[device].active == map[]
    ensures Inv(c, s.(agents := s.agents - {device}))
  {
    hide LeasesExact, ArtifactsExact, ArtifactsWithin, Occurrences, QueueExact, JobsNamed, HeldIssued,
      HeldDistinct, RecoveryQueued, ReceiptsApart, SlotsWithin, SessionsDistinct;
    LeasesUntouched(s.agents, s.jobs, s.agents - {device}, s.jobs);
    AgentGone(s.agents, s.nextSession, device);
  }

  /** Reporting free slots and draining touch no lease. */
  lemma RestateKeeps(c: Config, s: State, device: DeviceId, agent: Agent)
    requires Inv(c, s) && device in s.agents
    requires agent.session == s.agents[device].session && agent.active == s.agents[device].active
    requires agent.slots == s.agents[device].slots
    requires agent.free == 0 || agent.free + |agent.active| <= agent.slots
    ensures Inv(c, s.(agents := s.agents[device := agent]))
  {
    hide LeasesExact, ArtifactsExact, ArtifactsWithin, Occurrences, QueueExact, JobsNamed, HeldIssued,
      HeldDistinct, RecoveryQueued, ReceiptsApart, SlotsWithin, SessionsDistinct;
    LeasesUntouched(s.agents, s.jobs, s.agents[device := agent], s.jobs);
    AgentRestated(s.agents, s.nextSession, device, agent);
  }

  lemma AgentRestated(agents: map<DeviceId, Agent>, nextSession: SessionId, device: DeviceId, agent: Agent)
    requires SessionsDistinct(agents, nextSession) && SlotsWithin(agents) && device in agents
    requires agent.session == agents[device].session && agent.active == agents[device].active
             && agent.slots == agents[device].slots
    requires agent.free == 0 || agent.free + |agent.active| <= agent.slots
    ensures SessionsDistinct(agents[device := agent], nextSession) && SlotsWithin(agents[device := agent])
  {
    SlotsUpdate(agents, device, agent);
  }

  lemma SlotsUpdate(agents: map<DeviceId, Agent>, device: DeviceId, agent: Agent)
    requires SlotsWithin(agents) && agent.free + |agent.active| <= agent.slots
    ensures SlotsWithin(agents[device := agent])
  {
  }

  lemma SessionAdded(agents: map<DeviceId, Agent>, nextSession: SessionId, device: DeviceId, agent: Agent)
    requires SessionsDistinct(agents, nextSession) && device !in agents && agent.session == nextSession
    ensures SessionsDistinct(agents[device := agent], nextSession + 1)
  {
  }

  lemma AgentGone(agents: map<DeviceId, Agent>, nextSession: SessionId, device: DeviceId)
    requires SessionsDistinct(agents, nextSession) && SlotsWithin(agents)
    ensures SessionsDistinct(agents - {device}, nextSession) && SlotsWithin(agents - {device})
  {
  }

  /** Every step keeps the invariant. */
  lemma StepKeepsInv(c: Config, s: State, e: Event)
    requires Inv(c, s) && Enabled(c, s, e)
    ensures Inv(c, Next(c, s, e))
  {
    hide Inv, ReportValid, Assignable, Fits, ValidateSubmission, RoomInLedger, Admitted, OfferedTo, Renewed, Requeued,
      Removed, Rebound;
    match e
    case Admit(submission, nonce) => AdmitKeeps(c, s, submission, nonce);
    case Offer(index, device, now) => OfferKeeps(c, s, index, device, now);
    case Accept(job, now) => RenewKeeps(c, s, job, now);
    case Heartbeat(job, now) => RenewKeeps(c, s, job, now);
    case Requeue(job, why) => RequeueKeeps(c, s, job, why.Lost? && s.jobs[job].state.Running?);
    case Cancel(job) => RemoveKeeps(c, s, job);
    case Rebind(job, device, now) => RebindKeeps(c, s, job, device, now);
    case Commit(job, device, report, digest) => CommitKeeps(c, s, job, device, report, digest);
    case Join(device, _, _, _, _) => JoinKeeps(c, s, device, Next(c, s, e).agents[device]);
    case Leave(device) => LeaveKeeps(c, s, device);
    case Ready(device, free) => RestateKeeps(c, s, device, Next(c, s, e).agents[device]);
    case Drain(device) => RestateKeeps(c, s, device, Next(c, s, e).agents[device]);
  }
}

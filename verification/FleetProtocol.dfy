/** The coordinator as a state machine: what one locked section may do, cut into its smallest changes. */
module FleetProtocol {
  import opened Basics
  import opened Fleet

  datatype State = State(
    agents: map<DeviceId, Agent>,
    jobs: map<JobId, Job>,
    queue: seq<JobId>,
    artifacts: map<Digest, ArtifactRecord>,
    artifactBytes: nat,
    /** Committed report digests; the digest is represented by the encoded report. */
    receipts: map<JobId, Bytes>,
    /** Random lease and session ids are taken to be fresh, so they are numbered. */
    nextLease: LeaseId,
    nextSession: SessionId)

  datatype Reason = Expired(now: nat) | Rejected | Lost

  datatype Event =
    | Admit(submission: Submission, nonce: nat)
    | Offer(index: nat, device: DeviceId, now: nat)
    | Accept(job: JobId, now: nat)
    | Heartbeat(job: JobId, now: nat)
    | Requeue(job: JobId, why: Reason)
    | Cancel(job: JobId)
    | Join(device: DeviceId, profile: ProfileHash, capabilities: seq<Capability>, fingerprint: Option<nat>, slots: nat)
    | Rebind(job: JobId, device: DeviceId, now: nat)
    | Leave(device: DeviceId)
    | Ready(device: DeviceId, free: nat)
    | Drain(device: DeviceId)
    | Commit(job: JobId, device: DeviceId, report: Report, digest: Bytes)

  // ---- artifacts ---------------------------------------------------------------------------

  /** The digests a job refers to, each as often as its descriptors name it. */
  ghost function DigestsOf(descriptors: seq<Descriptor>): multiset<Digest>
  {
    if descriptors == [] then multiset{}
    else DigestsOf(descriptors[..|descriptors| - 1]) + multiset{descriptors[|descriptors| - 1].digest}
  }

  ghost function KeySet(m: multiset<Digest>): set<Digest>
  {
    set d | d in m
  }

  ghost function Sizes(digests: set<Digest>): nat
  {
    if digests == {} then 0
    else
      var d :| d in digests;
      |d.bytes| + Sizes(digests - {d})
  }

  ghost function RefsIn(artifacts: map<Digest, ArtifactRecord>, d: Digest): nat
  {
    if d in artifacts then artifacts[d].references else 0
  }

  ghost function Retained(artifacts: map<Digest, ArtifactRecord>, more: multiset<Digest>): map<Digest, ArtifactRecord>
  {
    map d | d in artifacts.Keys + KeySet(more) :: ArtifactRecord(d.bytes, RefsIn(artifacts, d) + more[d])
  }

  ghost function Released(artifacts: map<Digest, ArtifactRecord>, less: multiset<Digest>): map<Digest, ArtifactRecord>
  {
    map d | d in artifacts && artifacts[d].references > less[d] ::
      ArtifactRecord(d.bytes, artifacts[d].references - less[d])
  }

  /** Saturating subtraction. */
  function Less(a: nat, b: nat): nat
  {
    if b <= a then a - b else 0
  }

  /** The new artifacts of an admission fit both capacities. */
  ghost predicate Fits(c: Config, s: State, more: multiset<Digest>)
  {
    && |s.artifacts.Keys + KeySet(more)| <= c.itemCapacity
    && s.artifactBytes + Sizes(KeySet(more) - s.artifacts.Keys) <= c.byteCapacity
  }

  // ---- the queue ---------------------------------------------------------------------------

  function Without(queue: seq<JobId>, job: JobId): seq<JobId>
  {
    if queue == [] then []
    else if queue[0] == job then queue[1..]
    else [queue[0]] + Without(queue[1..], job)
  }

  /** The job at this place of the queue has an agent that can take it. */
  ghost predicate ServableAt(s: State, index: nat)
  {
    index < |s.queue| && s.queue[index] in s.jobs
    && exists d :: d in s.agents && AgentMatches(s.agents[d], s.jobs[s.queue[index]])
  }

  /** The earliest servable job, and the least device that can take it. */
  ghost predicate Assignable(s: State, index: nat, device: DeviceId)
  {
    && index < |s.queue| && s.queue[index] in s.jobs
    && (forall i: nat :: i < index ==> !ServableAt(s, i))
    && device in s.agents && AgentMatches(s.agents[device], s.jobs[s.queue[index]])
    && forall d :: d in s.agents && d < device ==> !AgentMatches(s.agents[d], s.jobs[s.queue[index]])
  }

  // ---- agents ------------------------------------------------------------------------------

  function Forget(agents: map<DeviceId, Agent>, device: DeviceId, job: JobId): map<DeviceId, Agent>
  {
    if device in agents then agents[device := agents[device].(active := agents[device].active - {job})] else agents
  }

  function ForgetLease(agents: map<DeviceId, Agent>, id: JobId, job: Job): map<DeviceId, Agent>
  {
    if job.Leased() then Forget(agents, job.state.lease.device, id) else agents
  }

  function FreeAfterReady(agent: Agent, free: nat): nat
  {
    var room := if |agent.active| <= agent.slots then agent.slots - |agent.active| else 0;
    if free <= room then free else room
  }

  // ---- steps -------------------------------------------------------------------------------

  ghost predicate RoomInLedger(c: Config, s: State)
  {
    c.ledger.Memory? ==> |s.jobs| + |s.receipts| < c.ledger.capacity
  }

  ghost predicate Enabled(c: Config, s: State, e: Event)
  {
    match e
    case Admit(submission, nonce) =>
      var id := JobId(KeyOf(submission), nonce);
      && ValidateSubmission(c, submission).None?
      && id !in s.jobs && id !in s.receipts
      && |s.queue| < c.queueCapacity && RoomInLedger(c, s)
      && Fits(c, s, DigestsOf(DescriptorsOf(submission.subjects)))
    case Offer(index, device, now) => Assignable(s, index, device)
    case Accept(job, now) => job in s.jobs && s.jobs[job].state.Offered?
    case Heartbeat(job, now) => job in s.jobs && s.jobs[job].state.Running?
    case Requeue(job, why) =>
      && job in s.jobs && s.jobs[job].Leased()
      && (why.Expired? ==> s.jobs[job].state.lease.deadline <= why.now)
    case Cancel(job) => job in s.jobs
    case Join(device, _, _, _, _) => device !in s.agents
    case Rebind(job, device, now) =>
      && job in s.jobs && s.jobs[job].recovery.Some? && s.jobs[job].recovery.value.device == device
      && device in s.agents && s.agents[device].free + |s.agents[device].active| < s.agents[device].slots
    case Leave(device) => device in s.agents && s.agents[device].active == map[]
    case Ready(device, free) => device in s.agents && free <= s.agents[device].slots
    case Drain(device) => device in s.agents
    case Commit(job, device, report, _) =>
      && job in s.jobs && job !in s.receipts && device in s.agents
      && report.job == job && report.device == device
      && ReportValid(c, job, s.jobs[job], device, s.agents[device], s.agents[device].session, report)
  }

  ghost function Next(c: Config, s: State, e: Event): State
    requires Enabled(c, s, e)
  {
    match e
    case Admit(submission, nonce) => Admitted(c, s, submission, nonce)
    case Offer(index, device, now) => OfferedTo(c, s, index, device, now)
    case Accept(job, now) => Renewed(c, s, job, now)
    case Heartbeat(job, now) => Renewed(c, s, job, now)
    case Requeue(job, why) => Requeued(s, job, why.Lost? && s.jobs[job].state.Running?)
    case Cancel(job) => Removed(s, job)
    case Join(device, profile, capabilities, fingerprint, slots) =>
      s.(agents := s.agents[device := Agent(s.nextSession, profile, capabilities, fingerprint, slots, 0, false, map[])],
         nextSession := s.nextSession + 1)
    case Rebind(job, device, now) => Rebound(c, s, job, device, now)
    case Leave(device) => s.(agents := s.agents - {device})
    case Ready(device, free) =>
      s.(agents := s.agents[device := s.agents[device].(free := FreeAfterReady(s.agents[device], free))])
    case Drain(device) => s.(agents := s.agents[device := s.agents[device].(draining := true, free := 0)])
    case Commit(job, device, report, digest) => Removed(s, job).(receipts := s.receipts[job := digest])
  }

  function NewJob(submission: Submission, nonce: nat): Job
  {
    Job(submission, DescriptorsOf(submission.subjects), KeyOf(submission), nonce, Queued, None)
  }

  ghost function Admitted(c: Config, s: State, submission: Submission, nonce: nat): State
  {
    var id := JobId(KeyOf(submission), nonce);
    var more := DigestsOf(DescriptorsOf(submission.subjects));
    s.(jobs := s.jobs[id := NewJob(submission, nonce)],
       queue := s.queue + [id],
       artifacts := Retained(s.artifacts, more),
       artifactBytes := s.artifactBytes + Sizes(KeySet(more) - s.artifacts.Keys))
  }

  ghost function OfferedTo(c: Config, s: State, index: nat, device: DeviceId, now: nat): State
    requires index < |s.queue| && s.queue[index] in s.jobs
    requires device in s.agents && s.agents[device].free > 0
  {
    var id, agent := s.queue[index], s.agents[device];
    var lease := Lease(device, agent.session, agent.session, s.nextLease, now + c.acceptTimeout);
    s.(jobs := s.jobs[id := s.jobs[id].(state := Offered(lease), recovery := None)],
       queue := Without(s.queue, id),
       agents := s.agents[device := agent.(free := agent.free - 1, active := agent.active[id := s.nextLease])],
       nextLease := s.nextLease + 1)
  }

  ghost function Renewed(c: Config, s: State, job: JobId, now: nat): State
    requires job in s.jobs && s.jobs[job].Leased()
  {
    var lease := s.jobs[job].state.lease.(deadline := now + c.leaseDuration);
    s.(jobs := s.jobs[job := s.jobs[job].(state := Running(lease))])
  }

  ghost function Requeued(s: State, job: JobId, preserve: bool): State
    requires job in s.jobs && s.jobs[job].Leased()
  {
    var lease := s.jobs[job].state.lease;
    s.(jobs := s.jobs[job := s.jobs[job].(state := Queued, recovery := if preserve then Some(lease) else None)],
       queue := s.queue + [job],
       agents := Forget(s.agents, lease.device, job))
  }

  /** The job leaves the coordinator, with its queue place, its lease and its artifact references. */
  ghost function Removed(s: State, job: JobId): State
    requires job in s.jobs
  {
    var left := Released(s.artifacts, DigestsOf(s.jobs[job].descriptors));
    s.(jobs := s.jobs - {job},
       queue := Without(s.queue, job),
       agents := ForgetLease(s.agents, job, s.jobs[job]),
       artifacts := left,
       artifactBytes := Less(s.artifactBytes, Sizes(s.artifacts.Keys - left.Keys)))
  }

  ghost function Rebound(c: Config, s: State, job: JobId, device: DeviceId, now: nat): State
    requires job in s.jobs && s.jobs[job].recovery.Some? && device in s.agents
  {
    var agent := s.agents[device];
    var lease := s.jobs[job].recovery.value.(session := agent.session, deadline := now + c.leaseDuration);
    s.(jobs := s.jobs[job := s.jobs[job].(state := Running(lease), recovery := None)],
       queue := Without(s.queue, job),
       agents := s.agents[device := agent.(active := agent.active[job := lease.id])])
  }
}

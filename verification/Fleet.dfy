/** The measurement fleet: what callers submit, what agents report, and when a report is acceptable. */
module Fleet {
  import opened Basics

  type DeviceId = nat
  type SessionId = nat
  type LeaseId = nat
  type ProfileHash = nat
  type EngineIdentity = nat

  const MEASUREMENT_PROTOCOL_VERSION: nat := 1

  datatype Kind = Single | SymmetricPair {
    function SubjectCount(): nat { if Single? then 1 else 2 }
  }

  datatype Format = Format(kind: nat, adapter: nat)

  datatype Artifact = Artifact(graphHash: nat, format: Format, bytes: Bytes)

  /** Digests are taken to be injective, so a digest is represented by what it was taken of. */
  datatype Digest = Digest(format: Format, bytes: Bytes)

  datatype Descriptor = Descriptor(digest: Digest, size: nat, format: Format)

  datatype Submission = Submission(
    kind: Kind, engine: EngineIdentity, subjects: seq<Artifact>,
    configHash: nat, encoding: nat, payload: Bytes, target: ProfileHash)

  /** The measurement key and the job id are hashes too. */
  datatype MeasurementKey = MeasurementKey(
    kind: Kind, engine: EngineIdentity, configHash: nat, target: ProfileHash, subjects: seq<(nat, Descriptor)>)

  datatype JobId = JobId(key: MeasurementKey, nonce: nat)

  function DescriptorOf(a: Artifact): Descriptor
  {
    Descriptor(Digest(a.format, a.bytes), |a.bytes|, a.format)
  }

  function DescriptorsOf(subjects: seq<Artifact>): seq<Descriptor>
  {
    seq(|subjects|, i requires 0 <= i < |subjects| => DescriptorOf(subjects[i]))
  }

  function KeyOf(s: Submission): MeasurementKey
  {
    MeasurementKey(s.kind, s.engine, s.configHash, s.target,
                   seq(|s.subjects|, i requires 0 <= i < |s.subjects| =>
                       (s.subjects[i].graphHash, DescriptorOf(s.subjects[i]))))
  }

  datatype Capability = Capability(engine: EngineIdentity, formats: seq<Format>, encodings: seq<nat>,
                                   versions: seq<nat>)

  datatype Agent = Agent(
    session: SessionId, profile: ProfileHash, capabilities: seq<Capability>, fingerprint: Option<nat>,
    slots: nat, free: nat, draining: bool, active: map<JobId, LeaseId>)

  datatype Lease = Lease(device: DeviceId, session: SessionId, origin: SessionId, id: LeaseId, deadline: nat)

  datatype JobState = Queued | Offered(lease: Lease) | Running(lease: Lease)

  datatype Job = Job(
    submission: Submission, descriptors: seq<Descriptor>, key: MeasurementKey, nonce: nat,
    state: JobState, recovery: Option<Lease>)
  {
    predicate Leased() { !state.Queued? }
  }

  datatype ArtifactRecord = ArtifactRecord(bytes: Bytes, references: nat)

  datatype LedgerConfig = Memory(capacity: nat) | Directory

  datatype Config = Config(
    queueCapacity: nat, itemCapacity: nat, byteCapacity: nat, ledger: LedgerConfig, commandCapacity: nat,
    maxArtifactBytes: nat, maxConfigBytes: nat, maxMetadataBytes: nat, maxSamples: nat, maxTelemetry: nat,
    acceptTimeout: nat, leaseDuration: nat)

  predicate Supports(cap: Capability, job: Job)
  {
    && cap.engine == job.submission.engine
    && (forall d :: d in job.descriptors ==> d.format in cap.formats)
    && job.submission.encoding in cap.encodings
    && MEASUREMENT_PROTOCOL_VERSION in cap.versions
  }

  /** A free, non-draining agent of the target profile with a capability for everything the job needs. */
  predicate AgentMatches(agent: Agent, job: Job)
  {
    && agent.free > 0 && !agent.draining
    && agent.profile == job.submission.target
    && exists cap :: cap in agent.capabilities && Supports(cap, job)
  }

  datatype ServiceError =
    | Protocol(message: string) | Capacity(message: string) | Configuration(message: string)
    | PermissionDenied | NotFound | FailedPrecondition(message: string) | InvalidArgument(message: string)

  /** What a caller may submit. */
  function ValidateSubmission(c: Config, s: Submission): (error: Option<ServiceError>)
    ensures error.None? <==>
            && |s.subjects| == (match s.kind case Single => 1 case SymmetricPair => 2)
            && (forall i :: 0 <= i < |s.subjects| ==> |s.subjects[i].bytes| <= c.maxArtifactBytes)
            && s.encoding > 0 && |s.payload| <= c.maxConfigBytes
  {
    if |s.subjects| != s.kind.SubjectCount() then Some(Configuration("measurement kind has the wrong subject count"))
    else if exists a :: a in s.subjects && |a.bytes| > c.maxArtifactBytes
      then Some(Capacity("artifact exceeds configured maximum"))
    else if s.encoding == 0 then Some(Configuration("measure config encoding must be non-zero"))
    else if |s.payload| > c.maxConfigBytes then Some(Capacity("measure config exceeds configured maximum"))
    else None
  }

  // ---- reports -----------------------------------------------------------------------------

  /** A 64-bit float is given by its bit pattern; it is finite unless all exponent bits are set. */
  type Double = u64

  predicate IsFinite(d: Double)
  {
    (d / 0x10_0000_0000_0000) % 0x800 != 0x7FF
  }

  datatype Subject = Subject(logicalIndex: nat, graphHash: nat, metadataBytes: nat, reward: Option<Double>)
  datatype Sample = Sample(scheduleIndex: nat, logicalIndex: nat, subjectSampleIndex: nat)
  datatype Outcome = Unknown | Unspecified | Succeeded | Failed(code: nat)

  datatype Report = Report(
    job: JobId, lease: LeaseId, device: DeviceId, origin: SessionId, profile: ProfileHash,
    key: MeasurementKey, nonce: nat, configHash: nat, kind: Kind, engine: EngineIdentity,
    subjects: seq<Subject>, samples: seq<Sample>, telemetry: nat, outcome: Outcome, failureMessage: Option<nat>)

  /** The report names the lease the job is running under, and the agent's session holds it. */
  predicate LeaseHeld(job: Job, id: JobId, device: DeviceId, agent: Agent, session: SessionId, lease: LeaseId)
  {
    && job.state.Running?
    && job.state.lease.device == device && job.state.lease.session == session && job.state.lease.id == lease
    && id in agent.active && agent.active[id] == lease
  }

  /** The report is about this job, on the lease's own origin session and the agent's profile. */
  predicate IdentityMatches(job: Job, agent: Agent, report: Report)
    requires job.state.Running?
  {
    && report.origin == job.state.lease.origin && report.profile == agent.profile
    && report.key == job.key && report.nonce == job.nonce
    && report.configHash == job.submission.configHash && report.kind == job.submission.kind
    && report.engine == job.submission.engine
  }

  predicate SubjectsMatch(subjects: seq<Subject>, expected: seq<Artifact>)
  {
    && |subjects| == |expected|
    && forall i :: 0 <= i < |subjects| ==>
         subjects[i].logicalIndex == i && subjects[i].graphHash == expected[i].graphHash
  }

  /** Samples are numbered in order, and each subject's own samples are numbered in order. */
  ghost predicate SamplesContiguous(samples: seq<Sample>, subjects: nat)
  {
    forall k :: 0 <= k < |samples| ==>
      && samples[k].scheduleIndex == k && samples[k].logicalIndex < subjects
      && samples[k].subjectSampleIndex == SamplesOf(samples[..k], samples[k].logicalIndex)
  }

  ghost function SamplesOf(samples: seq<Sample>, subject: nat): nat
  {
    if samples == [] then 0
    else SamplesOf(samples[..|samples| - 1], subject) + if samples[|samples| - 1].logicalIndex == subject then 1 else 0
  }

  predicate OutcomeWellFormed(report: Report)
  {
    match report.outcome
    case Unknown => false
    case Unspecified => false
    case Succeeded =>
      report.failureMessage.None?
      && forall s :: s in report.subjects ==> s.reward.Some? && IsFinite(s.reward.value)
    case Failed(_) =>
      report.failureMessage.Some?
      && (forall s :: s in report.subjects ==> s.reward.None?)
      && report.failureMessage.value <= 512
  }

  /** Everything `validate_report` asks of the measured evidence, apart from lease and identity. */
  ghost predicate EvidenceAcceptable(c: Config, job: Job, report: Report)
  {
    && SubjectsMatch(report.subjects, job.submission.subjects)
    && (forall s :: s in report.subjects ==> s.metadataBytes <= c.maxMetadataBytes)
    && |report.samples| <= c.maxSamples * |report.subjects| && report.telemetry <= c.maxTelemetry
    && SamplesContiguous(report.samples, |report.subjects|)
    && OutcomeWellFormed(report)
  }

  ghost predicate ReportValid(c: Config, id: JobId, job: Job, device: DeviceId, agent: Agent, session: SessionId,
                              report: Report)
  {
    && LeaseHeld(job, id, device, agent, session, report.lease)
    && IdentityMatches(job, agent, report)
    && EvidenceAcceptable(c, job, report)
  }

  /** One sample more. */
  lemma SamplesSnoc(samples: seq<Sample>, subjects: nat, k: nat)
    requires k < |samples| && SamplesContiguous(samples[..k], subjects)
    requires var s := samples[k]; s.scheduleIndex == k && s.logicalIndex < subjects
    requires samples[k].subjectSampleIndex == SamplesOf(samples[..k], samples[k].logicalIndex)
    ensures SamplesContiguous(samples[..k + 1], subjects)
  {
    var longer := samples[..k + 1];
    forall j | 0 <= j < k + 1
      ensures longer[j].scheduleIndex == j && longer[j].logicalIndex < subjects
      ensures longer[j].subjectSampleIndex == SamplesOf(longer[..j], longer[j].logicalIndex)
    {
      assert longer[..j] == samples[..j];
      if j < k {
        assert samples[..k][..j] == samples[..j] && samples[..k][j] == samples[j];
      }
    }
  }

  lemma CountSnoc(samples: seq<Sample>, k: nat, subject: nat)
    requires k < |samples|
    ensures SamplesOf(samples[..k + 1], subject) ==
            SamplesOf(samples[..k], subject) + if samples[k].logicalIndex == subject then 1 else 0
  {
    assert samples[..k + 1][..k] == samples[..k];
  }

  /** A wrong sample stays wrong, whatever follows it. */
  lemma WrongSample(samples: seq<Sample>, subjects: nat, k: nat)
    requires k < |samples| && SamplesContiguous(samples, subjects)
    ensures var s := samples[k];
            s.scheduleIndex == k && s.logicalIndex < subjects
            && s.subjectSampleIndex == SamplesOf(samples[..k], s.logicalIndex)
  {
  }

  /** The counter loop of `validate_report` decides contiguity. */
  method CheckSamples(samples: seq<Sample>, subjects: nat) returns (ok: bool)
    ensures ok <==> SamplesContiguous(samples, subjects)
  {
    hide SamplesContiguous, SamplesOf;
    var next := new nat[subjects](_ => 0);
    NoSamples(subjects);
    assert samples[..0] == [];
    for k := 0 to |samples|
      invariant SamplesContiguous(samples[..k], subjects)
      invariant forall s :: 0 <= s < subjects ==> next[s] == SamplesOf(samples[..k], s)
    {
      var sample := samples[k];
      if sample.scheduleIndex != k || sample.logicalIndex >= subjects
        || sample.subjectSampleIndex != next[sample.logicalIndex] {
        if SamplesContiguous(samples, subjects) { WrongSample(samples, subjects, k); }
        return false;
      }
      SamplesSnoc(samples, subjects, k);
      next[sample.logicalIndex] := next[sample.logicalIndex] + 1;
      forall s | 0 <= s < subjects
        ensures next[s] == SamplesOf(samples[..k + 1], s)
      {
        CountSnoc(samples, k, s);
      }
    }
    assert samples[..|samples|] == samples;
    ok := true;
  }

  lemma NoSamples(subjects: nat)
    ensures SamplesContiguous([], subjects) && forall s: nat :: SamplesOf([], s) == 0
  {
  }

  /** `validate_report`: the checks in the order the source makes them. */
  method ValidateReport(c: Config, id: JobId, job: Job, device: DeviceId, agent: Agent, session: SessionId,
                        report: Report)
    returns (error: Option<ServiceError>)
    ensures error.None? <==> ReportValid(c, id, job, device, agent, session, report)
    ensures error.Some? && error.value.FailedPrecondition? <==>
              !LeaseHeld(job, id, device, agent, session, report.lease)
  {
    if job.state.Offered? { return Some(FailedPrecondition("job was not accepted")); }
    if job.state.Queued? { return Some(FailedPrecondition("job is not leased")); }
    if !LeaseHeld(job, id, device, agent, session, report.lease) { return Some(FailedPrecondition("stale lease")); }
    if !IdentityMatches(job, agent, report) { return Some(InvalidArgument("report identity mismatch")); }
    if !SubjectsMatch(report.subjects, job.submission.subjects) {
      return Some(InvalidArgument("report subject mismatch"));
    }
    if exists s :: s in report.subjects && s.metadataBytes > c.maxMetadataBytes {
      return Some(Capacity("engine metadata is too large"));
    }
    if |report.samples| > c.maxSamples * |report.subjects| || report.telemetry > c.maxTelemetry {
      return Some(Capacity("report evidence is too large"));
    }
    var contiguous := CheckSamples(report.samples, |report.subjects|);
    if !contiguous { return Some(InvalidArgument("samples are not contiguous")); }
    if !OutcomeWellFormed(report) { return Some(InvalidArgument("report outcome is malformed")); }
    error := None;
  }
}

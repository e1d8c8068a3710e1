/** Scheduling gives out work in turn: free slots become leases, and nobody overtakes. */
module FleetProgress {
  import opened Basics
  import opened Fleet
  import opened FleetProtocol
  import opened FleetInvariant
  import opened FleetArtifacts

  // ---- slots become leases -----------------------------------------------------------------

  /** The agent declares the same, keeps its leases, and every slot it lost became a lease. */
  ghost predicate Served(before: Agent, after: Agent)
  {
    && after == before.(free := after.free, active := after.active)
    && (forall j :: j in before.active ==> j in after.active && after.active[j] == before.active[j])
    && after.free + |after.active| == before.free + |before.active|
  }

  ghost predicate AllServed(before: map<DeviceId, Agent>, after: map<DeviceId, Agent>)
  {
    forall d :: d in after ==> d in before && Served(before[d], after[d])
  }

  lemma ServedOnce(before: Agent, agent: Agent, id: JobId, lease: LeaseId)
    requires Served(before, agent) && id !in agent.active && agent.free > 0
    ensures Served(before, agent.(free := agent.free - 1, active := agent.active[id := lease]))
  {
    var active := agent.active[id := lease];
    assert active.Keys == agent.active.Keys + {id};
    assert |active| == |active.Keys| && |agent.active| == |agent.active.Keys|;
  }

  lemma QueuedIsNotActive(c: Config, s: State, index: nat, device: DeviceId)
    requires Inv(c, s) && index < |s.queue| && device in s.agents
    ensures s.queue[index] in s.jobs && s.jobs[s.queue[index]].state.Queued?
    ensures s.queue[index] !in s.agents[device].active
  {
    hide SlotsWithin, ReceiptsApart, JobsNamed, HeldDistinct, HeldIssued, SessionsDistinct, RecoveryQueued,
      ArtifactsExact, ArtifactsWithin;
    assert s.queue[index] in s.queue;
  }

  lemma OfferServes(c: Config, s0: State, s: State, index: nat, device: DeviceId, now: nat)
    requires Inv(c, s) && Assignable(s, index, device) && AllServed(s0.agents, s.agents)
    ensures AllServed(s0.agents, OfferedTo(c, s, index, device, now).agents)
  {
    hide Inv, ServableAt, Supports, Without, Served;
    QueuedIsNotActive(c, s, index, device);
    ServedOnce(s0.agents[device], s.agents[device], s.queue[index], s.nextLease);
  }

  // ---- places in the queue -----------------------------------------------------------------

  /** The jobs in the queue before this one. */
  function AheadOf(queue: seq<JobId>, job: JobId): set<JobId>
  {
    if queue == [] || queue[0] == job then {} else {queue[0]} + AheadOf(queue[1..], job)
  }

  /** These are the jobs at smaller indices. */
  lemma {:induction false} AheadAt(queue: seq<JobId>, i: nat)
    requires NoRepeats(queue) && i < |queue|
    ensures forall j :: j in AheadOf(queue, queue[i]) <==> j in queue[..i]
  {
    if i > 0 {
      assert queue[0] != queue[i];
      AheadAt(queue[1..], i - 1);
      assert queue[..i] == [queue[0]] + queue[1..][..i - 1];
    }
  }

  lemma {:induction false} AheadAppend(queue: seq<JobId>, more: seq<JobId>, job: JobId)
    requires job in queue
    ensures AheadOf(queue + more, job) == AheadOf(queue, job)
  {
    if queue[0] != job {
      AheadAppend(queue[1..], more, job);
      assert (queue + more)[1..] == queue[1..] + more;
    }
  }

  lemma {:induction false} AheadWithout(queue: seq<JobId>, other: JobId, job: JobId)
    requires job in queue && other != job
    ensures AheadOf(Without(queue, other), job) <= AheadOf(queue, job) && job in Without(queue, other)
  {
    if queue[0] == other {
    } else if queue[0] == job {
    } else {
      AheadWithout(queue[1..], other, job);
      assert Without(queue, other)[1..] == Without(queue[1..], other);
    }
  }

  // ---- no overtaking -----------------------------------------------------------------------

  /** The agent could take the job if it had a free slot. */
  predicate Suits(agent: Agent, job: Job)
  {
    AgentMatches(agent.(free := 1), job)
  }

  /** A queued job that this device can measure, and no other connected device. */
  ghost predicate OnlyFor(s: State, device: DeviceId, job: JobId)
  {
    && device in s.agents && job in s.queue && job in s.jobs && Suits(s.agents[device], s.jobs[job])
    && forall d :: d in s.agents && d != device ==> !Suits(s.agents[d], s.jobs[job])
  }

  /** The job waits, and only jobs ahead of it were given to the device. */
  ghost predicate Waits(s0: State, s: State, device: DeviceId, job: JobId)
    requires device in s0.agents && device in s.agents && job in s0.jobs && job in s.jobs
  {
    && s.jobs[job] == s0.jobs[job] && job in s.queue && AheadOf(s.queue, job) <= AheadOf(s0.queue, job)
    && forall j :: j in s.agents[device].active && j !in s0.agents[device].active ==> j in AheadOf(s0.queue, job)
  }

  /** The device has the job, or the job waits its turn. */
  ghost predicate InTurn(s0: State, s: State, device: DeviceId, job: JobId)
    requires device in s0.agents && device in s.agents
  {
    && job in s.jobs && job in s0.jobs
    && ((s.jobs[job].Leased() && s.jobs[job].state.lease.device == device) || Waits(s0, s, device, job))
  }

  lemma QueueOf(c: Config, s: State)
    requires Inv(c, s)
    ensures NoRepeats(s.queue)
  {
  }

  /** A job given to a device that could take the job at place `i` is ahead of it, or is that job. */
  lemma EarlierIsAhead(s: State, index: nat, device: DeviceId, i: nat)
    requires NoRepeats(s.queue) && Assignable(s, index, device) && i < |s.queue| && s.queue[i] in s.jobs && i != index
    requires Suits(s.agents[device], s.jobs[s.queue[i]])
    ensures s.queue[index] in AheadOf(s.queue, s.queue[i])
  {
    hide Supports, AheadOf;
    assert AgentMatches(s.agents[device], s.jobs[s.queue[i]]);
    assert ServableAt(s, i);
    AheadAt(s.queue, i);
    assert s.queue[..i][index] == s.queue[index];
  }

  lemma SuitsAlike(before: Agent, after: Agent, job: Job)
    requires Served(before, after)
    ensures Suits(before, job) == Suits(after, job) && (AgentMatches(after, job) ==> Suits(before, job))
  {
  }

  /** An earlier job is given out while this one waits. */
  lemma OfferWhileWaiting(c: Config, s0: State, s: State, index: nat, device: DeviceId, now: nat, d: DeviceId, job: JobId)
    requires NoRepeats(s.queue) && Assignable(s, index, device) && s.queue[index] != job
    requires d in s0.agents && d in s.agents && job in s0.jobs && job in s.jobs && Waits(s0, s, d, job)
    requires Suits(s.agents[d], s.jobs[job])
    ensures Waits(s0, OfferedTo(c, s, index, device, now), d, job)
  {
    hide AgentMatches, Suits, ServableAt, Without, AheadOf;
    var i: nat :| i < |s.queue| && s.queue[i] == job;
    AheadWithout(s.queue, s.queue[index], job);
    if device == d { EarlierIsAhead(s, index, d, i); }
  }

  /** Only this device is given the job. */
  lemma OfferOfIt(c: Config, s0: State, s: State, index: nat, device: DeviceId, now: nat, d: DeviceId)
    requires Assignable(s, index, device) && AllServed(s0.agents, s.agents)
    requires OnlyFor(s0, d, s.queue[index]) && s.jobs[s.queue[index]] == s0.jobs[s.queue[index]]
    ensures device == d
    ensures var after := OfferedTo(c, s, index, device, now).jobs[s.queue[index]];
            after.Leased() && after.state.lease.device == d
  {
    hide Supports, Suits, Served, ServableAt, Without;
    SuitsAlike(s0.agents[device], s.agents[device], s.jobs[s.queue[index]]);
  }

  lemma OfferInTurn(c: Config, s0: State, s: State, index: nat, device: DeviceId, now: nat, d: DeviceId, job: JobId)
    requires Inv(c, s) && Assignable(s, index, device) && AllServed(s0.agents, s.agents)
    requires OnlyFor(s0, d, job) && d in s.agents && InTurn(s0, s, d, job)
    ensures InTurn(s0, OfferedTo(c, s, index, device, now), d, job)
  {
    hide Inv, Supports, Suits, Served, ServableAt, Without, AheadOf, NoRepeats;
    QueueOf(c, s);
    QueuedIsNotActive(c, s, index, device);
    if s.queue[index] == job {
      OfferOfIt(c, s0, s, index, device, now, d);
    } else if !(s.jobs[job].Leased() && s.jobs[job].state.lease.device == d) {
      SuitsAlike(s0.agents[d], s.agents[d], s.jobs[job]);
      OfferWhileWaiting(c, s0, s, index, device, now, d, job);
    }
  }

  /** The end of another device's session: its jobs go to the end of the queue, and nothing else changes. */
  ghost predicate DepartsFrom(s: State, s': State, device: DeviceId)
  {
    && s'.agents == s.agents - {device} && s'.jobs.Keys == s.jobs.Keys && s.queue <= s'.queue
    && forall j :: j in s.jobs && !(s.jobs[j].Leased() && s.jobs[j].state.lease.device == device) ==>
         s'.jobs[j] == s.jobs[j]
  }

  lemma QueuedIsFree(c: Config, s: State, job: JobId)
    requires Inv(c, s) && job in s.queue
    ensures job in s.jobs && !s.jobs[job].Leased()
  {
    hide LeasesExact, SlotsWithin, ReceiptsApart, JobsNamed, HeldDistinct, HeldIssued, SessionsDistinct, RecoveryQueued,
      ArtifactsExact, ArtifactsWithin;
  }

  lemma DepartureInTurn(c: Config, s0: State, s: State, s': State, device: DeviceId, d: DeviceId, job: JobId)
    requires Inv(c, s) && DepartsFrom(s, s', device) && d != device && d in s0.agents && d in s.agents
    requires InTurn(s0, s, d, job)
    ensures InTurn(s0, s', d, job)
  {
    hide Inv, AheadOf;
    assert s'.agents[d] == s.agents[d];
    if Waits(s0, s, d, job) {
      QueuedIsFree(c, s, job);
      var tail := s'.queue[|s.queue|..];
      assert s'.queue == s.queue + tail;
      AheadAppend(s.queue, tail, job);
      assert Waits(s0, s', d, job);
    }
  }

  /**
   * When scheduling is over, a job only this device can measure is leased to it, or as many jobs as the device had
   * free slots were ahead of it.
   */
  lemma TurnComes(c: Config, s0: State, s: State, device: DeviceId, job: JobId)
    requires Inv(c, s0) && Inv(c, s) && AllServed(s0.agents, s.agents) && forall i: nat :: !ServableAt(s, i)
    requires OnlyFor(s0, device, job) && device in s.agents && InTurn(s0, s, device, job)
    requires |AheadOf(s0.queue, job)| < s0.agents[device].free
    ensures s.jobs[job].Leased() && s.jobs[job].state.lease.device == device
  {
    hide LeasesExact, SlotsWithin, ReceiptsApart, JobsNamed, HeldDistinct, HeldIssued, SessionsDistinct, RecoveryQueued,
      Supports, AheadOf, Inv;
    if !(s.jobs[job].Leased() && s.jobs[job].state.lease.device == device) {
      var i: nat :| i < |s.queue| && s.queue[i] == job;
      var before, after := s0.agents[device], s.agents[device];
      assert Served(before, after);
      assert !ServableAt(s, i);
      assert !AgentMatches(after, s.jobs[job]);
      assert after.free == 0;
      var gained := after.active.Keys - before.active.Keys;
      assert after.active.Keys == before.active.Keys + gained;
      assert |after.active| == |after.active.Keys| && |before.active| == |before.active.Keys|;
      SubsetCard(gained, AheadOf(s0.queue, job));
    }
  }
}

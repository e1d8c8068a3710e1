/** The coordinator's locked state, updated in place; every change is recorded as a run of protocol steps. */
module Coordinators {
  import opened Basics
  import opened Fleet
  import opened FleetProtocol
  import opened FleetArtifacts
  import opened ArtifactStores
  import opened FleetInvariant
  import opened FleetRuns
  import opened FleetRecovery
  import opened FleetService
  import opened FleetProgress
  import opened Receipts
  import opened ReportCodec

  /** The total number of free slots. */
  ghost function FreeSlots(agents: map<DeviceId, Agent>): nat
  {
    if agents == map[] then 0
    else
      var d :| d in agents;
      agents[d].free + FreeSlots(agents - {d})
  }

  lemma {:induction false} FreeSlotsWithout(agents: map<DeviceId, Agent>, device: DeviceId)
    requires device in agents
    ensures FreeSlots(agents) == agents[device].free + FreeSlots(agents - {device})
  {
    var d :| d in agents && FreeSlots(agents) == agents[d].free + FreeSlots(agents - {d});
    if d != device {
      FreeSlotsWithout(agents - {d}, device);
      FreeSlotsWithout(agents - {device}, d);
      assert agents - {d} - {device} == agents - {device} - {d};
    }
  }

  lemma FreeSlotsUpdate(agents: map<DeviceId, Agent>, device: DeviceId, agent: Agent)
    requires device in agents
    ensures FreeSlots(agents[device := agent]) == FreeSlots(agents) - agents[device].free + agent.free
  {
    FreeSlotsWithout(agents, device);
    FreeSlotsWithout(agents[device := agent], device);
    assert agents[device := agent] - {device} == agents - {device};
  }

  /** One more recorded step. */
  ghost function Extended(r: Run, e: Event, s: State): Run
  {
    Run(r.states + [s], r.events + [e])
  }

  /** A lease whose time ran out goes back to the queue. */
  ghost predicate Reaps(e: Event, now: nat)
  {
    e.Requeue? && e.why == Expired(now)
  }

  /** A session ends: its leases go back to the queue and the agent leaves. */
  ghost predicate Departs(e: Event, device: DeviceId)
  {
    e == Leave(device) || (e.Requeue? && e.why == Lost)
  }

  /** Leases are granted, and agents that cannot be reached depart. */
  ghost predicate Schedules(e: Event)
  {
    e.Offer? || e.Leave? || (e.Requeue? && e.why == Lost)
  }

  /** A job whose lease was lost with its session: a running lease is kept for recovery. */
  function AfterLoss(job: Job): Job
    requires job.Leased()
  {
    job.(state := Queued, recovery := if job.state.Running? then Some(job.state.lease) else None)
  }

  /** What the end of a device's session makes of a job. */
  function AfterDeparture(job: Job, device: DeviceId): Job
  {
    if job.Leased() && job.state.lease.device == device then AfterLoss(job) else job
  }

  lemma RunGrows(c: Config, r: Run, e: Event, s: State)
    requires IsRun(c, r) && Steps(c, Last(r), e, s)
    ensures IsRun(c, Extended(r, e, s)) && Last(Extended(r, e, s)) == s && Continues(r, Extended(r, e, s))
  {
    hide Steps, Init;
    var q := Extended(r, e, s);
    forall k | 0 <= k < |q.events|
      ensures Steps(c, q.states[k], q.events[k], q.states[k + 1])
    {
      if k < |r.events| {
        assert Steps(c, r.states[k], r.events[k], r.states[k + 1]);
      }
    }
  }

  class Coordinator {
    const config: Config
    const ledger: ReceiptLedger
    const store: ArtifactStore
    var agents: map<DeviceId, Agent>
    var jobs: map<JobId, Job>
    var queue: seq<JobId>
    /** Sources of fresh ids. */
    var nextLease: LeaseId
    var nextSession: SessionId
    /** Everything that has happened. */
    ghost var run: Run

    ghost function View(): State
      reads this, ledger, store
    {
      State(agents, jobs, queue, store.artifacts, store.artifactBytes, ledger.receipts, nextLease, nextSession)
    }

    /** The recorded run is a run of the protocol and ends in the present state. */
    ghost predicate Valid()
      reads this, ledger, store
    {
      && ledger.Valid() && ledger.config == config.ledger
      && IsRun(config, run) && |run.states| > 0 && Last(run) == View()
    }

    lemma ValidInv()
      requires Valid()
      ensures Inv(config, View())
    {
      hide Inv, Enabled, Next, Init, Steps;
      RunInv(config, run, |run.states| - 1);
    }

    /** A coordinator over an opened ledger. No id it gives out is one that was given out before. */
    constructor (config: Config, ledger: ReceiptLedger, nextLease: LeaseId, nextSession: SessionId)
      requires ledger.Valid() && ledger.config == config.ledger
      ensures Valid() && this.config == config && this.ledger == ledger && fresh(store)
      ensures agents == map[] && jobs == map[] && queue == []
      ensures run.events == [] && run.states[0].nextLease == nextLease && run.states[0].nextSession == nextSession
    {
      this.config, this.ledger := config, ledger;
      store := new ArtifactStore();
      agents, jobs, queue := map[], map[], [];
      this.nextLease, this.nextSession := nextLease, nextSession;
      run := Run([State(map[], map[], [], map[], 0, ledger.receipts, nextLease, nextSession)], []);
    }

    // ---- requeueing ------------------------------------------------------------------------

    /** `requeue_active`, as written: the job goes back to the queue, the agent's record of the lease goes. */
    method RequeueActive(job: JobId, active: Lease, preserve: bool)
      modifies this`jobs, this`queue, this`agents
      ensures job in old(jobs) ==>
                && jobs == old(jobs)[
                     job := old(jobs)[job].(state := Queued, recovery := if preserve then Some(active) else None)]
                && queue == if job in old(queue) then old(queue) else old(queue) + [job]
      ensures job !in old(jobs) ==> jobs == old(jobs) && queue == old(queue)
      ensures agents ==
              if JobBound(old(agents), job, active)
              then
                var agent := old(agents)[active.device];
                old(agents)[active.device := agent.(active := agent.active - {job})]
              else old(agents)
    {
      if job in jobs {
        jobs := jobs[job := jobs[job].(state := Queued, recovery := if preserve then Some(active) else None)];
        if job !in queue {
          queue := queue + [job];
        }
      }
      if active.device in agents && agents[active.device].session == active.session
         && job in agents[active.device].active && agents[active.device].active[job] == active.id {
        var agent := agents[active.device];
        agents := agents[active.device := agent.(active := agent.active - {job})];
      }
    }

    /** Requeue a leased job and record the step. */
    method RequeueStep(job: JobId, ghost why: Reason, preserve: bool)
      requires Valid() && Enabled(config, View(), Requeue(job, why))
      requires preserve == (why.Lost? && jobs[job].state.Running?)
      modifies this`jobs, this`queue, this`agents, this`run
      ensures Valid() && Continues(old(run), run) && run == Extended(old(run), Requeue(job, why), View())
      ensures View() == Requeued(old(View()), job, preserve)
      ensures agents.Keys == old(agents).Keys && jobs.Keys == old(jobs).Keys
      ensures forall d :: d in agents ==> agents[d] == old(agents)[d].(active := agents[d].active)
    {
      hide Inv, Init, IsRun, Lawful;
      ValidInv();
      LeasedFacts(config, View(), job);
      RequeueActive(job, jobs[job].state.lease, preserve);
      RunGrows(config, run, Requeue(job, why), View());
      run := Extended(run, Requeue(job, why), View());
    }

    /** The lease has run out. */
    predicate Overdue(job: Job, now: nat)
    {
      job.Leased() && job.state.lease.deadline <= now
    }

    /** `expire_leases`: exactly the overdue jobs go back to the queue, in whatever order they are visited. */
    method ExpireLeases(now: nat)
      requires Valid()
      modifies this`jobs, this`queue, this`agents, this`run
      ensures Valid() && Continues(old(run), run)
      ensures jobs.Keys == old(jobs).Keys && agents.Keys == old(agents).Keys
      ensures forall j :: j in jobs ==>
                jobs[j] == if old(jobs)[j].Leased() && old(jobs)[j].state.lease.deadline <= now
                           then old(jobs)[j].(state := Queued, recovery := None) else old(jobs)[j]
      ensures forall d :: d in agents ==> agents[d] == old(agents)[d].(active := agents[d].active)
      ensures forall k :: |old(run).events| <= k < |run.events| ==> Reaps(run.events[k], now)
    {
      hide Valid, Forget, Continues;
      ContinuesSelf(run);
      var rest := set j | j in jobs && Overdue(jobs[j], now);
      while rest != {}
        invariant Valid() && Continues(old(run), run)
        invariant jobs.Keys == old(jobs).Keys && agents.Keys == old(agents).Keys
        invariant forall d :: d in agents ==> agents[d] == old(agents)[d].(active := agents[d].active)
        invariant forall j :: j in rest ==> j in jobs && Overdue(jobs[j], now)
        invariant forall j :: j in jobs ==>
                    jobs[j] == if j !in rest && Overdue(old(jobs)[j], now)
                               then old(jobs)[j].(state := Queued, recovery := None) else old(jobs)[j]
        invariant forall k :: |old(run).events| <= k < |run.events| ==> Reaps(run.events[k], now)
        decreases rest
      {
        var job :| job in rest;
        ghost var before := run;
        RequeueStep(job, Expired(now), false);
        ContinuesOn(old(run), before, run);
        rest := rest - {job};
      }
    }

    /** The recorded run ends in the present state, but with `agent` still connected. */
    ghost predicate WithAgent(device: DeviceId, agent: Agent)
      reads this, ledger, store
    {
      device !in agents && IsRun(config, run) && |run.states| > 0
        && Last(run) == View().(agents := agents[device := agent])
    }

    /** One lease of a removed agent goes back to the queue. */
    method RequeueLost(device: DeviceId, agent: Agent, job: JobId)
      requires WithAgent(device, agent) && job in agent.active
      modifies this`jobs, this`queue, this`agents, this`run
      ensures WithAgent(device, agent.(active := agent.active - {job})) && Continues(old(run), run)
      ensures agents == old(agents) && job in old(jobs) && old(jobs)[job].Leased()
      ensures jobs == old(jobs)[job := AfterLoss(old(jobs)[job])] && old(queue) <= queue
      ensures run.events == old(run).events + [Requeue(job, Lost)]
    {
      hide Inv, Init, IsRun, Lawful;
      ghost var s := Last(run);
      EntryFacts(config, run, device, job);
      var preserve := jobs[job].state.Running?;
      RequeueActive(job, jobs[job].state.lease, preserve);
      ghost var s' := View().(agents := agents[device := agent.(active := agent.active - {job})]);
      assert s'.agents == Forget(s.agents, device, job);
      RunGrows(config, run, Requeue(job, Lost), s');
      run := Extended(run, Requeue(job, Lost), s');
    }

    /** All leases of a removed agent go back, in whatever order they are visited. */
    method RequeueAllLost(device: DeviceId, agent: Agent)
      requires WithAgent(device, agent)
      modifies this`jobs, this`queue, this`agents, this`run
      ensures WithAgent(device, agent.(active := map[])) && Continues(old(run), run)
      ensures agents == old(agents) && jobs.Keys == old(jobs).Keys && old(queue) <= queue
      ensures forall j :: j in jobs ==>
                jobs[j] == if j in agent.active && old(jobs)[j].Leased() then AfterLoss(old(jobs)[j]) else old(jobs)[j]
      ensures forall k :: |old(run).events| <= k < |run.events| ==> Departs(run.events[k], device)
    {
      hide WithAgent;
      var left := agent;
      while left.active != map[]
        invariant Continues(old(run), run) && WithAgent(device, left) && left == agent.(active := left.active)
        invariant agents == old(agents) && jobs.Keys == old(jobs).Keys && left.active.Keys <= agent.active.Keys
        invariant old(queue) <= queue
        invariant forall j :: j in jobs ==>
                    jobs[j] == if j in agent.active && j !in left.active && old(jobs)[j].Leased()
                               then AfterLoss(old(jobs)[j]) else old(jobs)[j]
        invariant forall k :: |old(run).events| <= k < |run.events| ==> Departs(run.events[k], device)
        decreases left.active.Keys
      {
        var job :| job in left.active;
        RequeueLost(device, left, job);
        left := left.(active := left.active - {job});
      }
    }

    /**
     * `remove_agent_session`: the agent goes, and each of its leases goes back to the queue; a running one is
     * kept for recovery. No other job and no other agent changes, and the queue only grows at its end.
     */
    method RemoveAgentSession(device: DeviceId)
      requires Valid()
      modifies this`jobs, this`queue, this`agents, this`run
      ensures Valid() && Continues(old(run), run)
      ensures agents == old(agents) - {device} && jobs.Keys == old(jobs).Keys && old(queue) <= queue
      ensures forall j :: j in jobs ==> jobs[j] == AfterDeparture(old(jobs)[j], device)
      ensures forall k :: |old(run).events| <= k < |run.events| ==> Departs(run.events[k], device)
    {
      hide Valid, Continues, WithAgent;
      ContinuesSelf(run);
      MapRestore(agents, device);
      LeasesOf(device);
      if device !in agents {
        return;
      }
      var agent := agents[device];
      ghost var before := run;
      DetachAgent(device);
      RequeueAllLost(device, agent);
      ghost var requeued := run;
      CloseSession(device, agent.(active := map[]));
      ContinuesOn(before, requeued, run);
    }

    /** The jobs leased to a device are the ones its agent has on record. */
    lemma LeasesOf(device: DeviceId)
      requires Valid()
      ensures forall j :: j in jobs && jobs[j].Leased() && jobs[j].state.lease.device == device ==>
                device in agents && j in agents[device].active
      ensures device in agents ==>
                forall j :: j in agents[device].active && j in jobs && jobs[j].Leased() ==>
                  jobs[j].state.lease.device == device
    {
      hide Init, IsRun, Lawful, Committed, QueueExact, JobsNamed, ReceiptsApart, HeldDistinct, HeldIssued,
        RecoveryQueued, ArtifactsWithin, SlotsWithin, ArtifactsExact;
      ValidInv();
    }

    /** Take the agent off the list; the run still shows it. */
    method DetachAgent(device: DeviceId)
      requires Valid() && device in agents
      modifies this`agents
      ensures WithAgent(device, old(agents)[device]) && agents == old(agents) - {device}
      ensures ledger.Valid() && ledger.config == config.ledger
    {
      hide Inv, Init, IsRun, Lawful, Enabled, Next, Steps, Committed;
      MapRestore(agents, device);
      agents := agents - {device};
    }

    /** Once it holds nothing, the removed agent is gone from the run too. */
    method CloseSession(device: DeviceId, ghost agent: Agent)
      requires WithAgent(device, agent) && agent.active == map[] && ledger.Valid() && ledger.config == config.ledger
      modifies this`run
      ensures Valid() && Continues(old(run), run) && run.events == old(run).events + [Leave(device)]
    {
      hide Inv, Init, IsRun, Lawful, Enabled, Next, Steps, Committed;
      LeaveStep(device, agent);
      RunGrows(config, run, Leave(device), View());
      run := Extended(run, Leave(device), View());
    }

    lemma LeaveStep(device: DeviceId, agent: Agent)
      requires WithAgent(device, agent) && agent.active == map[]
      ensures Steps(config, Last(run), Leave(device), View())
    {
      hide Inv, Init, IsRun, Lawful;
      assert agents[device := agent] - {device} == agents;
    }

    // ---- scheduling ------------------------------------------------------------------------

    /** The first agent, by device id, that can take the job. */
    method FindAgent(job: Job) returns (device: Option<DeviceId>)
      ensures device.None? ==> forall d :: d in agents ==> !AgentMatches(agents[d], job)
      ensures device.Some? ==>
                && device.value in agents && AgentMatches(agents[device.value], job)
                && forall d :: d in agents && d < device.value ==> !AgentMatches(agents[d], job)
    {
      hide AgentMatches;
      device := None;
      var rest := agents.Keys;
      while rest != {}
        invariant rest <= agents.Keys
        invariant forall d :: d in agents && d !in rest && AgentMatches(agents[d], job) ==>
                    device.Some? && device.value <= d
        invariant device.Some? ==> device.value in agents && AgentMatches(agents[device.value], job)
        decreases rest
      {
        var d :| d in rest;
        rest := rest - {d};
        if AgentMatches(agents[d], job) && (device.None? || d < device.value) {
          device := Some(d);
        }
      }
    }

    /** The earliest queued job that some agent can take, with the first such agent. */
    method FindAssignment() returns (r: Option<(nat, DeviceId)>)
      ensures r.Some? ==> Assignable(View(), r.value.0, r.value.1)
      ensures r.None? ==> forall i: nat :: !ServableAt(View(), i)
    {
      hide AgentMatches;
      for i := 0 to |queue|
        invariant forall k: nat :: k < i ==> !ServableAt(View(), k)
      {
        if queue[i] in jobs {
          var device := FindAgent(jobs[queue[i]]);
          if device.Some? {
            return Some((i, device.value));
          }
        }
      }
      r := None;
    }

    /** Grant a fresh lease on the assigned job. */
    method OfferJob(index: nat, device: DeviceId, now: nat)
      requires Valid() && Assignable(View(), index, device)
      modifies this`jobs, this`queue, this`agents, this`nextLease, this`run
      ensures Valid() && Continues(old(run), run)
      ensures View() == OfferedTo(config, old(View()), index, device, now)
      ensures run.events == old(run).events + [Offer(index, device, now)]
    {
      hide Inv, Init, IsRun, Lawful, ServableAt, Supports, Committed;
      ValidInv();
      QueueIsDistinct(config, View());
      WithoutAt(queue, index);
      var job, agent := queue[index], agents[device];
      queue := queue[..index] + queue[index + 1..];
      var active := Lease(device, agent.session, agent.session, nextLease, now + config.acceptTimeout);
      nextLease := nextLease + 1;
      jobs := jobs[job := jobs[job].(state := Offered(active), recovery := None)];
      agents := agents[device := agent.(free := agent.free - 1, active := agent.active[job := active.id])];
      RunGrows(config, run, Offer(index, device, now), View());
      run := Extended(run, Offer(index, device, now), View());
    }

    /**
     * `schedule`: while some queued job can be served, the earliest one gets a fresh lease; a command that
     * cannot be sent costs the agent its session. Each round uses up a free slot, so the loop ends, and then
     * no connected agent could take any queued job. An agent that stays loses free slots only to leases. A job that
     * only one agent can measure, and that has fewer jobs ahead of it than the agent has free slots, is leased to it
     * unless its session is lost.
     */
    method Schedule(now: nat)
      requires Valid()
      modifies this`jobs, this`queue, this`agents, this`nextLease, this`run
      ensures Valid() && Continues(old(run), run)
      ensures jobs.Keys == old(jobs).Keys && agents.Keys <= old(agents).Keys
      ensures forall i: nat :: !ServableAt(View(), i)
      ensures forall k :: |old(run).events| <= k < |run.events| ==> Schedules(run.events[k])
      ensures forall j, d :: j in jobs && jobs[j].state.Queued? && d in agents ==> Unable(agents[d], jobs[j].submission)
      ensures AllServed(old(agents), agents)
      ensures forall d, j :: OnlyFor(old(View()), d, j) && |AheadOf(old(queue), j)| < old(agents)[d].free ==>
                TakenOrGone(View(), d, j)
    {
      hide Valid, ServableAt, Supports, FreeSlots, Without, Continues, Served, OnlyFor, InTurn, AheadOf, Inv,
        Unable, TakenOrGone, AllServed, AllInTurn;
      ContinuesSelf(run);
      ghost var s0 := View();
      ValidInv();
      StartInTurn(s0);
      while true
        invariant Valid() && Continues(old(run), run)
        invariant jobs.Keys == old(jobs).Keys && agents.Keys <= old(agents).Keys
        invariant forall k :: |old(run).events| <= k < |run.events| ==> Schedules(run.events[k])
        invariant AllInTurn(s0, View())
        decreases FreeSlots(agents)
      {
        ValidInv();
        var assignment := FindAssignment();
        if assignment.None? {
          TurnsCome(config, s0, View());
          AllUnable(config, View());
          return;
        }
        var (index, device) := assignment.value;
        ghost var before, start, s := agents, run, View();
        OfferJob(index, device, now);
        OffersInTurn(config, s0, s, index, device, now);
        ghost var granted, offered := run, View();
        ContinuesOn(old(run), start, granted);
        FreeSlotsUpdate(before, device, agents[device]);
        var sent: bool := *;
        if !sent {
          FreeSlotsWithout(agents, device);
          ValidInv();
          RemoveAgentSession(device);
          DeparturesInTurn(config, s0, offered, View(), device);
          EventsKept(granted, run);
          ContinuesOn(old(run), granted, run);
        }
      }
    }

    // ---- admission -------------------------------------------------------------------------

    /** Admit the job in the present state, or refuse it and change nothing. */
    method AdmitJob(submission: Submission, nonce: nat) returns (error: Option<ServiceError>)
      requires Valid() && ValidateSubmission(config, submission).None?
      modifies this`jobs, this`queue, this`run, store
      ensures Valid()
      ensures error.None? <==> Enabled(config, old(View()), Admit(submission, nonce))
      ensures error.None? ==>
                View() == Admitted(config, old(View()), submission, nonce)
                  && run == Extended(old(run), Admit(submission, nonce), View())
      ensures error.Some? ==> View() == old(View()) && run == old(run)
    {
      hide Inv, Init, IsRun, Lawful, Committed, ValidateSubmission, KeyOf, DescriptorsOf, DigestsOf, Sizes, KeySet,
        Retained;
      var id := JobId(KeyOf(submission), nonce);
      if id in jobs || id in ledger.receipts {
        return Some(Protocol("job id is already admitted"));
      }
      if |queue| >= config.queueCapacity {
        return Some(Capacity("coordinator job queue is full"));
      }
      if !ledger.CanAdmit(|jobs|) {
        return Some(Capacity("coordinator receipt ledger is full"));
      }
      ValidInv();
      StoreWellKept(config, View());
      error := store.Retain(config, DescriptorsOf(submission.subjects));
      if error.Some? {
        return;
      }
      jobs := jobs[id := NewJob(submission, nonce)];
      queue := queue + [id];
      RunGrows(config, run, Admit(submission, nonce), View());
      run := Extended(run, Admit(submission, nonce), View());
    }

    /**
     * `enqueue`: overdue leases are reaped first; then the job is admitted, or refused without touching any
     * artifact. A refusal means the admission was not possible in the state reached.
     */
    method Enqueue(submission: Submission, nonce: nat, now: nat) returns (r: Result<JobId, ServiceError>, ghost at: nat)
      requires Valid()
      modifies this, store
      ensures Valid() && Continues(old(run), run)
      ensures |old(run).events| <= at <= |run.events| && forall k :: |old(run).events| <= k < at ==>
              Reaps(run.events[k], now)
      ensures r.Ok? ==>
                && r.value == JobId(KeyOf(submission), nonce) && r.value in jobs && r.value !in old(jobs)
                && at < |run.events| && run.events[at] == Admit(submission, nonce)
                && (forall k :: at < k < |run.events| ==> Schedules(run.events[k]))
                && forall i: nat :: !ServableAt(View(), i)
      ensures r.Err? ==>
                && jobs.Keys == old(jobs).Keys && !Enabled(config, View(), Admit(submission, nonce))
                  && at == |run.events|
                && store.artifacts == old(store.artifacts) && store.artifactBytes == old(store.artifactBytes)
    {
      hide Valid, ServableAt, ValidateSubmission, KeyOf, Fits, Retained, DigestsOf;
      at := |run.events|;
      var invalid := ValidateSubmission(config, submission);
      if invalid.Some? {
        return Err(invalid.value), at;
      }
      ExpireLeases(now);
      at := |run.events|;
      var refused := AdmitJob(submission, nonce);
      if refused.Some? {
        return Err(refused.value), at;
      }
      ghost var admitted := run;
      assert admitted.events[at] == Admit(submission, nonce);
      Schedule(now);
      EventsKept(admitted, run);
      r := Ok(JobId(KeyOf(submission), nonce));
    }

    // ---- jobs that leave -------------------------------------------------------------------

    /** Remove the job's place in the queue, if it has one. */
    method TakeFromQueue(job: JobId)
      requires NoRepeats(queue)
      modifies this`queue
      ensures queue == Without(old(queue), job)
    {
      if index: nat :| index < |queue| && queue[index] == job {
        WithoutAt(queue, index);
        queue := queue[..index] + queue[index + 1..];
      } else {
        WithoutAbsent(queue, job);
      }
    }

    /** What cancellation and commit share: the job's place, lease and artifact references go with it. */
    method RemoveJob(job: JobId)
      requires job in jobs && WellKept(store.artifacts) && NoRepeats(queue)
      requires jobs[job].Leased() ==> JobBound(agents, job, jobs[job].state.lease)
      modifies this`jobs, this`queue, this`agents, store
      ensures View() == Removed(old(View()), job)
    {
      hide Sizes, DigestsOf, Released, NoRepeats, WellKept, Without;
      var removed := jobs[job];
      TakeFromQueue(job);
      jobs := jobs - {job};
      if removed.Leased() {
        var agent := agents[removed.state.lease.device];
        agents := agents[removed.state.lease.device := agent.(active := agent.active - {job})];
      }
      store.ReleaseAll(removed.descriptors);
    }

    /** `cancel_job`. */
    method CancelJob(job: JobId)
      requires Valid()
      modifies this`jobs, this`queue, this`agents, this`run, store
      ensures Valid() && Continues(old(run), run)
      ensures job !in jobs && jobs == old(jobs) - {job}
    {
      hide Inv, Init, IsRun, Lawful, Committed, DigestsOf, Sizes, Released, NoRepeats, WellKept, Without;
      if job !in jobs {
        assert jobs == jobs - {job};
        return;
      }
      ValidInv();
      StoreWellKept(config, View());
      QueueIsDistinct(config, View());
      LeasedIsBound(config, View(), job);
      RemoveJob(job);
      RunGrows(config, run, Cancel(job), View());
      run := Extended(run, Cancel(job), View());
    }

    // ---- results ---------------------------------------------------------------------------

    /** The device behind a session, if the peer is the one that opened it. */
    method Authenticate(session: SessionId, fingerprint: Option<nat>) returns (device: Option<DeviceId>)
      requires SessionsDistinct(agents, nextSession)
      ensures device.Some? ==>
                && device.value in agents
                && agents[device.value].session == session && agents[device.value].fingerprint == fingerprint
      ensures device.None? ==>
                forall d :: d in agents ==> agents[d].session != session || agents[d].fingerprint != fingerprint
    {
      if d :| d in agents && agents[d].session == session {
        if agents[d].fingerprint != fingerprint {
          return None;
        }
        return Some(d);
      }
      device := None;
    }

    /** A validated report enters the ledger and its job leaves. In memory this cannot fail for lack of room. */
    method CommitReport(device: DeviceId, report: Report) returns (error: Option<ServiceError>)
      requires Valid() && Enabled(config, View(), Commit(report.job, device, report, ledger.codec.encode(report)))
      modifies this`jobs, this`queue, this`agents, this`run, store, ledger
      ensures Valid() && Continues(old(run), run)
      ensures error.Some? <==> config.ledger.Directory? && |ledger.codec.encode(report)| > MAX_RECORD_BYTES
      ensures error.Some? ==> View() == old(View()) && run == old(run)
      ensures error.None? ==>
                && run == Extended(old(run), Commit(report.job, device, report, ledger.codec.encode(report)), View())
                && View() == Next(config, old(View()), Commit(report.job, device, report, ledger.codec.encode(report)))
    {
      hide Inv, Init, IsRun, Lawful, Committed, Enabled, Next, NoRepeats, WellKept, Removed, Steps, LogOf, ReceiptsOf,
        JobBound;
      ghost var e, s := Commit(report.job, device, report, ledger.codec.encode(report)), View();
      CommitNeeds(config, s, e);
      ValidInv();
      StoreWellKept(config, s);
      QueueIsDistinct(config, s);
      LeasedIsBound(config, s, report.job);
      RoomToCommit(config, s, report.job);
      var committed := ledger.Commit(report);
      if committed.Err? {
        return Some(committed.error);
      }
      RemoveJob(report.job);
      CommitStep(config, s, e, View());
      RunGrows(config, run, e, View());
      run := Extended(run, e, View());
      error := None;
    }

    /** The report would be committed if it were submitted now. */
    ghost predicate Committable(session: SessionId, fingerprint: Option<nat>, report: Report)
      reads this, ledger, store
    {
      && report.device in agents
      && agents[report.device].session == session && agents[report.device].fingerprint == fingerprint
      && Enabled(config, View(), Commit(report.job, report.device, report, ledger.codec.encode(report)))
      && (config.ledger.Directory? ==> |ledger.codec.encode(report)| <= MAX_RECORD_BYTES)
    }

    /** The checks of `submit_result`: an acknowledgement, an error, or nothing in the way of a commit. */
    method CheckResult(session: SessionId, fingerprint: Option<nat>, report: Report)
      returns (r: Result<Option<SubmitAck>, ServiceError>)
      requires Valid()
      ensures r == Ok(None) <==>
                && report.device in agents
                && agents[report.device].session == session && agents[report.device].fingerprint == fingerprint
                && Enabled(config, View(), Commit(report.job, report.device, report, ledger.codec.encode(report)))
      ensures r == Ok(Some(ResultAlreadyCommitted)) <==>
                && report.device in agents && agents[report.device].session == session
                && agents[report.device].fingerprint == fingerprint
                && report.job in ledger.receipts && ledger.receipts[report.job] == ledger.codec.encode(report)
      ensures r == Ok(Some(ResultInvalid)) <==>
                && report.device in agents && agents[report.device].session == session
                && agents[report.device].fingerprint == fingerprint
                && report.job in ledger.receipts && ledger.receipts[report.job] != ledger.codec.encode(report)
      ensures r != Ok(Some(ResultCommitted))
    {
      hide Inv, Init, IsRun, Lawful, Committed, ReportValid, ServableAt;
      ValidInv();
      SessionsAreDistinct(config, View());
      var device := Authenticate(session, fingerprint);
      if device.None? || report.device != device.value {
        return Err(PermissionDenied);
      }
      var state := ledger.StateOf(report.job, report);
      if state != Missing {
        return Ok(Some(if state == Identical then ResultAlreadyCommitted else ResultInvalid));
      }
      if report.job !in jobs {
        return Err(NotFound);
      }
      var invalid := ValidateReport(config, report.job, jobs[report.job], device.value, agents[device.value], session,
                                    report);
      if invalid.Some? {
        return Err(invalid.value);
      }
      r := Ok(None);
    }

    /** Commit a checked report and give its agent new work. */
    method CommitAndSchedule(report: Report, now: nat) returns (error: Option<ServiceError>)
      requires Valid()
               && Enabled(config, View(), Commit(report.job, report.device, report, ledger.codec.encode(report)))
      modifies this, store, ledger
      ensures Valid() && Continues(old(run), run)
      ensures error.Some? <==> config.ledger.Directory? && |ledger.codec.encode(report)| > MAX_RECORD_BYTES
      ensures error.Some? ==> View() == old(View()) && run == old(run)
      ensures error.None? ==>
                && |old(run).events| < |run.events|
                && run.events[|old(run).events|]
                  == Commit(report.job, report.device, report, ledger.codec.encode(report))
                && (forall k :: |old(run).events| < k < |run.events| ==> Schedules(run.events[k]))
                && ledger.receipts == old(ledger.receipts)[report.job := ledger.codec.encode(report)]
                && report.job !in jobs && forall i: nat :: !ServableAt(View(), i)
    {
      hide Valid, Enabled, ServableAt, Next;
      ghost var s, e, before := View(), Commit(report.job, report.device, report, ledger.codec.encode(report)), run;
      error := CommitReport(report.device, report);
      if error.Some? {
        return;
      }
      CommitEffect(config, s, e);
      ghost var committed := run;
      assert committed.events[|before.events|] == e;
      Schedule(now);
      EventsKept(committed, run);
    }

    /**
     * `submit_result`. A commit happens exactly when the report is committable; a repeated report is
     * acknowledged, a different one refused, and in every case but a commit nothing changes. A report whose outcome
     * is not one of two forms is never committed: success with a finite reward for every submitted artifact and no
     * message, or a failure with a message of at most 512 bytes and no reward.
     */
    method SubmitResult(session: SessionId, fingerprint: Option<nat>, report: Report, now: nat)
      returns (r: Result<SubmitAck, ServiceError>, ghost at: nat)
      requires Valid()
      modifies this, store, ledger
      ensures Valid() && Continues(old(run), run)
      ensures r == Ok(ResultCommitted) <==> old(Committable(session, fingerprint, report))
      ensures r == Ok(ResultCommitted) ==>
                && |old(run).events| == at < |run.events|
                && run.events[at] == Commit(report.job, report.device, report, ledger.codec.encode(report))
                && (forall k :: at < k < |run.events| ==> Schedules(run.events[k]))
                && ledger.receipts == old(ledger.receipts)[report.job := ledger.codec.encode(report)]
                && report.job !in jobs && forall i: nat :: !ServableAt(View(), i)
      ensures r != Ok(ResultCommitted) ==>
                View() == old(View()) && run == old(run) && ledger.receipts == old(ledger.receipts)
      ensures r == Ok(ResultCommitted) ==>
                && report.job in old(jobs)
                && |report.subjects| == |old(jobs)[report.job].submission.subjects|
                && (|| (&& report.outcome.Succeeded? && report.failureMessage.None?
                        && forall i :: 0 <= i < |report.subjects| ==>
                             report.subjects[i].reward.Some? && IsFinite(report.subjects[i].reward.value))
                    || (&& report.outcome.Failed? && report.failureMessage.Some? && report.failureMessage.value <= 512
                        && forall i :: 0 <= i < |report.subjects| ==> report.subjects[i].reward.None?))
      ensures r == Ok(ResultAlreadyCommitted) <==>
                && report.device in old(agents) && old(agents)[report.device].session == session
                && old(agents)[report.device].fingerprint == fingerprint
                && report.job in old(ledger.receipts)
                && old(ledger.receipts)[report.job] == ledger.codec.encode(report)
      ensures r == Ok(ResultInvalid) <==>
                && report.device in old(agents) && old(agents)[report.device].session == session
                && old(agents)[report.device].fingerprint == fingerprint
                && report.job in old(ledger.receipts)
                && old(ledger.receipts)[report.job] != ledger.codec.encode(report)
    {
      hide Valid, Enabled, ServableAt, Continues;
      ContinuesSelf(run);
      at := |run.events|;
      var checked := CheckResult(session, fingerprint, report);
      if checked.Err? {
        return Err(checked.error), at;
      }
      if checked.value.Some? {
        return Ok(checked.value.value), at;
      }
      CommitAnswers(config, View(), Commit(report.job, report.device, report, ledger.codec.encode(report)));
      var failed := CommitAndSchedule(report, now);
      r := if failed.Some? then Err(failed.value) else Ok(ResultCommitted);
    }

    // ---- sessions --------------------------------------------------------------------------

    /** `reap_expired`. */
    method ReapExpired(now: nat)
      requires Valid()
      modifies this`jobs, this`queue, this`agents, this`nextLease, this`run
      ensures Valid() && Continues(old(run), run)
      ensures jobs.Keys == old(jobs).Keys && forall i: nat :: !ServableAt(View(), i)
      ensures forall k :: |old(run).events| <= k < |run.events| ==>
              Reaps(run.events[k], now) || Schedules(run.events[k])
    {
      hide Valid, Continues, ServableAt, Overdue;
      ghost var before := run;
      ExpireLeases(now);
      ghost var expired := run;
      Schedule(now);
      EventsKept(expired, run);
      ContinuesOn(before, expired, run);
    }

    /** `disconnect`: only the session that is still current ends. */
    method Disconnect(device: DeviceId, session: SessionId, now: nat)
      requires Valid()
      modifies this`jobs, this`queue, this`agents, this`nextLease, this`run
      ensures Valid() && Continues(old(run), run) && jobs.Keys == old(jobs).Keys
      ensures device !in old(agents) || old(agents)[device].session != session ==> run == old(run)
      ensures device in old(agents) && old(agents)[device].session == session ==> device !in agents
      ensures forall k :: |old(run).events| <= k < |run.events| ==> Schedules(run.events[k])
    {
      hide Valid, Continues, ServableAt;
      ContinuesSelf(run);
      if device !in agents || agents[device].session != session {
        return;
      }
      ghost var before := run;
      RemoveAgentSession(device);
      ghost var removed := run;
      Schedule(now);
      EventsKept(removed, run);
      ContinuesOn(before, removed, run);
    }

    /** `drain_agents`: every agent stops taking work. */
    method DrainAgents()
      requires Valid()
      modifies this`agents, this`run
      ensures Valid() && Continues(old(run), run) && agents.Keys == old(agents).Keys
      ensures forall d :: d in agents ==> agents[d].draining && agents[d].free == 0
    {
      hide Inv, Init, IsRun, Lawful, Committed;
      var rest := agents.Keys;
      while rest != {}
        invariant Valid() && Continues(old(run), run) && agents.Keys == old(agents).Keys && rest <= agents.Keys
        invariant forall d :: d in agents && d !in rest ==> agents[d].draining && agents[d].free == 0
        decreases rest
      {
        var d :| d in rest;
        rest := rest - {d};
        DrainAgent(d);
      }
    }

    method DrainAgent(device: DeviceId)
      requires Valid() && device in agents
      modifies this`agents, this`run
      ensures Valid() && run == Extended(old(run), Drain(device), View())
      ensures agents == old(agents)[device := old(agents)[device].(draining := true, free := 0)]
    {
      hide Inv, Init, IsRun, Lawful, Committed;
      agents := agents[device := agents[device].(draining := true, free := 0)];
      RunGrows(config, run, Drain(device), View());
      run := Extended(run, Drain(device), View());
    }

    /** `connect` opens a session: an empty record, entered on the run, while the agent itself is not yet listed. */
    method OpenSession(device: DeviceId, hello: Hello) returns (agent: Agent)
      requires Valid() && device !in agents
      modifies this`nextSession, this`run
      ensures ledger.Valid() && WithAgent(device, agent) && Continues(old(run), run)
      ensures agent
              == Agent(old(nextSession), hello.profile, hello.capabilities, hello.fingerprint, hello.slots, 0, false,
                       map[])
    {
      hide Inv, Init, IsRun, Lawful, Committed;
      agent := Agent(nextSession, hello.profile, hello.capabilities, hello.fingerprint, hello.slots, 0, false, map[]);
      nextSession := nextSession + 1;
      ghost var e := Join(device, hello.profile, hello.capabilities, hello.fingerprint, hello.slots);
      ghost var s := View().(agents := agents[device := agent]);
      RunGrows(config, run, e, s);
      run := Extended(run, e, s);
    }

    /** One granted recovery: the kept lease runs again, in the new session. */
    method RebindJob(device: DeviceId, agent: Agent, job: JobId, now: nat) returns (agent': Agent)
      requires WithAgent(device, agent) && agent.free == 0 && |agent.active| < agent.slots
      requires job in jobs && jobs[job].recovery.Some? && jobs[job].recovery.value.device == device
      modifies this`jobs, this`queue, this`run
      ensures WithAgent(device, agent') && Continues(old(run), run)
      ensures agent' == agent.(active := agent.active[job := old(jobs)[job].recovery.value.id])
      ensures jobs.Keys == old(jobs).Keys && forall j :: j in jobs && j != job ==> jobs[j] == old(jobs)[j]
      ensures RunsAgain(old(jobs), Recovery(job, old(jobs)[job].recovery.value.id), agent.session)
    {
      hide Inv, Init, IsRun, Lawful, Committed, NoRepeats, Without;
      QueueOfRun(config, run);
      ghost var s0 := Last(run);
      var rebound := jobs[job].recovery.value.(session := agent.session, deadline := now + config.leaseDuration);
      jobs := jobs[job := jobs[job].(state := Running(rebound), recovery := None)];
      TakeFromQueue(job);
      agent' := agent.(active := agent.active[job := rebound.id]);
      ghost var s := View().(agents := agents[device := agent']);
      assert s.agents == s0.agents[device := agent'];
      assert s == Rebound(config, s0, job, device, now);
      RunGrows(config, run, Rebind(job, device, now), s);
      run := Extended(run, Rebind(job, device, now), s);
    }

    /** The job, as it was, runs under its recovered lease, now in this session. */
    ghost predicate RunsAgain(before: map<JobId, Job>, recovery: Recovery, session: SessionId)
      reads this`jobs
    {
      && recovery.job in before && before[recovery.job].recovery.Some? && recovery.job in jobs
      && var job, kept := jobs[recovery.job], before[recovery.job].recovery.value;
         && job.state.Running? && kept.id == recovery.lease
         && job == before[recovery.job].(state := job.state, recovery := None)
         && job.state.lease == kept.(session := session, deadline := job.state.lease.deadline)
    }

    /**
     * `reconcile_recoveries`: every persisted report gets the answer due in the state `s0` the device came
     * back to, and exactly the granted ones run again.
     */
    method ReconcileRecoveries(device: DeviceId, agent: Agent, recoveries: seq<Recovery>, now: nat, ghost s0: State)
      returns (agent': Agent, dispositions: seq<RecoveryAction>)
      requires WithAgent(device, agent) && agent.free == 0 && agent.active == map[]
      requires |recoveries| <= agent.slots && DistinctJobs(recoveries)
      requires s0.jobs == jobs && s0.receipts == ledger.receipts
      modifies this`jobs, this`queue, this`run
      ensures WithAgent(device, agent') && Continues(old(run), run) && agent' == agent.(active := agent'.active)
      ensures jobs.Keys == old(jobs).Keys && |dispositions| == |recoveries|
      ensures forall k :: 0 <= k < |recoveries| ==>
                && dispositions[k] == Disposition(s0, device, recoveries[k])
                && (dispositions[k].SubmitReport? ==> RunsAgain(s0.jobs, recoveries[k], agent.session))
      ensures forall j :: j in jobs && !Granted(recoveries, dispositions, j) ==> jobs[j] == old(jobs)[j]
    {
      hide WithAgent, Granted, Continues;
      ContinuesSelf(run);
      agent', dispositions := agent, [];
      for i := 0 to |recoveries|
        invariant WithAgent(device, agent') && Continues(old(run), run) && agent' == agent.(active := agent'.active)
        invariant |agent'.active| <= i && |dispositions| == i && jobs.Keys == s0.jobs.Keys
        invariant forall k :: i <= k < |recoveries| && recoveries[k].job in jobs ==>
                  jobs[recoveries[k].job] == s0.jobs[recoveries[k].job]
        invariant forall k :: 0 <= k < i ==> dispositions[k] == Disposition(s0, device, recoveries[k])
        invariant forall k :: 0 <= k < i && dispositions[k].SubmitReport? ==>
                  RunsAgain(s0.jobs, recoveries[k], agent.session)
        invariant forall j :: j in jobs && !Granted(recoveries[..i], dispositions, j) ==> jobs[j] == s0.jobs[j]
      {
        assert recoveries[i].job in jobs ==> jobs[recoveries[i].job] == s0.jobs[recoveries[i].job];
        var recovery := recoveries[i];
        var action;
        if recovery.job in ledger.receipts {
          action := AlreadyCommitted;
        } else if
          && recovery.job in jobs && jobs[recovery.job].recovery.Some?
          && jobs[recovery.job].recovery.value.device == device
            && jobs[recovery.job].recovery.value.id == recovery.lease
        {
          CardWith(agent'.active, recovery.job, recovery.lease);
          ghost var start := run;
          agent' := RebindJob(device, agent', recovery.job, now);
          ContinuesOn(old(run), start, run);
          action := SubmitReport;
        } else {
          action := CancelRecovery;
        }
        GrantedStep(recoveries, i, dispositions, action);
        dispositions := dispositions + [action];
      }
      assert recoveries[..|recoveries|] == recoveries;
    }

    /** The new session of a device that has none, with the answers to its recoveries. */
    method StartSession(device: DeviceId, hello: Hello, now: nat)
      returns (session: SessionId, dispositions: seq<RecoveryAction>)
      requires Valid() && device !in agents && |hello.recoveries| <= hello.slots && DistinctJobs(hello.recoveries)
      modifies this`jobs, this`queue, this`agents, this`nextSession, this`run
      ensures Valid() && Continues(old(run), run) && jobs.Keys == old(jobs).Keys
      ensures device in agents && agents[device].session == session == old(nextSession)
      ensures agents[device]
              == Agent(session, hello.profile, hello.capabilities, hello.fingerprint, hello.slots, 0, false,
                                      agents[device].active)
      ensures agents - {device} == old(agents)
      ensures |dispositions| == |hello.recoveries|
      ensures forall k :: 0 <= k < |hello.recoveries| ==>
                && dispositions[k] == Disposition(old(View()), device, hello.recoveries[k])
                && (dispositions[k].SubmitReport? ==> RunsAgain(old(jobs), hello.recoveries[k], session))
      ensures forall j :: j in jobs && !Granted(hello.recoveries, dispositions, j) ==> jobs[j] == old(jobs)[j]
    {
      hide Inv, Init, IsRun, Lawful, Committed, Disposition, RunsAgain, Granted;
      ghost var before, s0 := run, View();
      var agent := OpenSession(device, hello);
      ghost var joined := run;
      var agent';
      agent', dispositions := ReconcileRecoveries(device, agent, hello.recoveries, now, s0);
      ContinuesOn(before, joined, run);
      agents := agents[device := agent'];
      session := agent.session;
    }

    /**
     * `connect`, for an authenticated device. The old session ends; in the state reached then, `run.states[at]`,
     * each persisted report is answered; the new session holds exactly the granted leases and no free slot.
     */
    method Connect(device: DeviceId, hello: Hello, now: nat)
      returns (r: Result<(SessionId, seq<RecoveryAction>), ServiceError>, ghost at: nat)
      requires Valid()
      modifies this`jobs, this`queue, this`agents, this`nextSession, this`run
      ensures Valid() && Continues(old(run), run) && jobs.Keys == old(jobs).Keys
      ensures r.Err? <==> ValidateHello(config, hello).Some?
      ensures r.Err? ==> run == old(run)
      ensures r.Ok? ==>
                && device in agents && r.value.0 == old(nextSession) && agents - {device} == old(agents) - {device}
                && agents[device]
                  == Agent(r.value.0, hello.profile, hello.capabilities, hello.fingerprint, hello.slots, 0,
                                           false, agents[device].active)
                && |old(run).events| <= at < |run.states| && device !in run.states[at].agents
                && run.states[at].jobs.Keys == jobs.Keys
                && (forall j :: j in jobs ==> run.states[at].jobs[j] == AfterDeparture(old(jobs)[j], device))
                && |r.value.1| == |hello.recoveries|
                && (forall k :: 0 <= k < |hello.recoveries| ==>
                      && r.value.1[k] == Disposition(run.states[at], device, hello.recoveries[k])
                      && (r.value.1[k].SubmitReport? ==>
                          RunsAgain(run.states[at].jobs, hello.recoveries[k], r.value.0)))
                && forall j :: j in jobs && !Granted(hello.recoveries, r.value.1, j) ==>
                  jobs[j] == run.states[at].jobs[j]
    {
      hide Inv, Init, IsRun, Lawful, Committed, Disposition, RunsAgain, Supports, Granted;
      at := 0;
      var invalid := ValidateHello(config, hello);
      if invalid.Some? {
        return Err(invalid.value), at;
      }
      RemoveAgentSession(device);
      RunLength(config, run);
      at := |run.states| - 1;
      ghost var before := run;
      var session, dispositions := StartSession(device, hello, now);
      assert run.states[at] == before.states[at];
      RunLength(config, run);
      r := Ok((session, dispositions));
    }

    // ---- agent events ----------------------------------------------------------------------

    /** The agent names a lease it really holds in this session. */
    predicate HoldsLease(device: DeviceId, session: SessionId, job: JobId, lease: LeaseId)
      reads this`jobs
    {
      && job in jobs && jobs[job].Leased() && jobs[job].state.lease.device == device
      && jobs[job].state.lease.session == session && jobs[job].state.lease.id == lease
    }

    /** When an event of a connected agent is acted upon. */
    ghost predicate Authentic(device: DeviceId, session: SessionId, event: AgentEvent)
      reads this`jobs, this`agents
    {
      && device in agents && agents[device].session == session && event.session == session
      && match event
         case ReadyEvent(_, free) => free <= agents[device].slots
         case AcceptedEvent(_, job, lease) => HoldsLease(device, session, job, lease) && jobs[job].state.Offered?
         case RejectedEvent(_, job, lease) => HoldsLease(device, session, job, lease)
         case HeartbeatEvent(_, job, lease) => HoldsLease(device, session, job, lease) && jobs[job].state.Running?
         case DrainingEvent(_) => true
    }

    /** `validate_agent_lease_ids`: the agent's record and the job must both name the lease. */
    method ValidateLeaseIds(device: DeviceId, session: SessionId, eventSession: SessionId, job: JobId, lease: LeaseId)
      returns (ok: bool)
      requires Valid() && device in agents && agents[device].session == session
      ensures ok <==> eventSession == session && HoldsLease(device, session, job, lease)
    {
      hide Inv, Init, IsRun, Lawful, Committed;
      ValidInv();
      if job in jobs { LeasedIsBound(config, View(), job); }
      if eventSession != session || job !in agents[device].active || agents[device].active[job] != lease
        || job !in jobs {
        return false;
      }
      ok := HoldsLease(device, session, job, lease);
    }

    /** Renew a lease: acceptance and heartbeat. */
    method RenewLease(job: JobId, now: nat, ghost e: Event)
      requires Valid() && Enabled(config, View(), e) && (e == Accept(job, now) || e == Heartbeat(job, now))
      modifies this`jobs, this`run
      ensures Valid() && run == Extended(old(run), e, View()) && View() == Renewed(config, old(View()), job, now)
    {
      hide Inv, Init, IsRun, Lawful, Committed;
      var active := jobs[job].state.lease;
      jobs := jobs[job := jobs[job].(state := Running(active.(deadline := now + config.leaseDuration)))];
      RunGrows(config, run, e, View());
      run := Extended(run, e, View());
    }

    method SetFreeSlots(device: DeviceId, free: nat)
      requires Valid() && device in agents && free <= agents[device].slots
      modifies this`agents, this`run
      ensures Valid() && run == Extended(old(run), Ready(device, free), View())
      ensures device in agents && agents == old(agents)[device := old(agents)[device].(free := agents[device].free)]
      ensures var agent := old(agents)[device];
              if free + |agent.active| <= agent.slots then agents[device].free == free
              else agents[device].free + |agent.active| == agent.slots
    {
      hide Inv, Init, IsRun, Lawful, Committed;
      ValidInv();
      SlotsOf(config, View(), device);
      agents := agents[device := agents[device].(free := FreeAfterReady(agents[device], free))];
      RunGrows(config, run, Ready(device, free), View());
      run := Extended(run, Ready(device, free), View());
    }

    /**
     * Act on an event in the present state: exactly the authentic ones take effect, each as one step. A ready event
     * sets the free slots to what the agent reports, or to what its leases leave if that is less; acceptance and
     * heartbeat renew the lease; a rejected job goes to the end of the queue; a draining agent has no free slot.
     */
    method ActOn(device: DeviceId, session: SessionId, event: AgentEvent, now: nat)
      returns (error: Option<ServiceError>)
      requires Valid()
      modifies this`jobs, this`queue, this`agents, this`run
      ensures Valid()
      ensures error.None? <==> old(Authentic(device, session, event))
      ensures error.None? ==> run == Extended(old(run), Meaning(device, event, now), View())
      ensures error.Some? ==> run == old(run)
      ensures jobs.Keys == old(jobs).Keys
      ensures error.None? && event.ReadyEvent? ==>
                && jobs == old(jobs) && queue == old(queue) && device in old(agents) && device in agents
                && agents == old(agents)[device := old(agents)[device].(free := agents[device].free)]
                && var agent := old(agents)[device];
                   if event.free + |agent.active| <= agent.slots then agents[device].free == event.free
                   else agents[device].free + |agent.active| == agent.slots
      ensures error.None? && (event.AcceptedEvent? || event.HeartbeatEvent?) ==>
                && agents == old(agents) && queue == old(queue) && event.job in old(jobs) && old(jobs)[event.job].Leased()
                && jobs == old(jobs)[event.job := old(jobs)[event.job].(
                     state := Running(old(jobs)[event.job].state.lease.(deadline := now + config.leaseDuration)))]
      ensures error.None? && event.RejectedEvent? ==>
                && event.job in old(jobs) && device in old(agents) && queue == old(queue) + [event.job]
                && jobs == old(jobs)[event.job := old(jobs)[event.job].(state := Queued, recovery := None)]
                && agents == old(agents)[device := old(agents)[device].(active := old(agents)[device].active - {event.job})]
      ensures error.None? && event.DrainingEvent? ==>
                && jobs == old(jobs) && queue == old(queue) && device in old(agents)
                && agents == old(agents)[device := old(agents)[device].(draining := true, free := 0)]
    {
      hide Valid, Next, Extended;
      if device !in agents || agents[device].session != session {
        return Some(Protocol("agent session was superseded"));
      }
      match event {
        case ReadyEvent(named, free) =>
          if named != session || free > agents[device].slots {
            return Some(Protocol("ready event refused"));
          }
          SetFreeSlots(device, free);
        case AcceptedEvent(named, job, lease) =>
          var ok := ValidateLeaseIds(device, session, named, job, lease);
          if !ok || !jobs[job].state.Offered? {
            return Some(Protocol("acceptance refused"));
          }
          RenewLease(job, now, Accept(job, now));
        case RejectedEvent(named, job, lease) =>
          var ok := ValidateLeaseIds(device, session, named, job, lease);
          if !ok {
            return Some(Protocol("rejection refused"));
          }
          RequeueStep(job, Rejected, false);
        case HeartbeatEvent(named, job, lease) =>
          var ok := ValidateLeaseIds(device, session, named, job, lease);
          if !ok || !jobs[job].state.Running? {
            return Some(Protocol("heartbeat refused"));
          }
          RenewLease(job, now, Heartbeat(job, now));
        case DrainingEvent(named) =>
          if named != session {
            return Some(Protocol("draining session id mismatch"));
          }
          DrainAgent(device);
      }
      error := None;
    }

    /** Act on an event and, if it was authentic, schedule. */
    method ActAndSchedule(device: DeviceId, session: SessionId, event: AgentEvent, now: nat)
      returns (error: Option<ServiceError>)
      requires Valid()
      modifies this`jobs, this`queue, this`agents, this`nextLease, this`run
      ensures Valid() && Continues(old(run), run) && jobs.Keys == old(jobs).Keys
      ensures error.None? <==> old(Authentic(device, session, event))
      ensures error.Some? ==> run == old(run)
      ensures error.None? ==>
                && (forall i: nat :: !ServableAt(View(), i)) && |old(run).events| < |run.events|
                && run.events[|old(run).events|] == Meaning(device, event, now)
                && forall k :: |old(run).events| < k < |run.events| ==> Schedules(run.events[k])
      ensures error.None? && event.ReadyEvent? ==>
                && device in old(agents)
                && forall j :: OnlyFor(old(View()), device, j) && |AheadOf(old(queue), j)| < event.free
                               && |AheadOf(old(queue), j)| + |old(agents)[device].active| < old(agents)[device].slots ==>
                     TakenOrGone(View(), device, j)
    {
      hide Valid, ServableAt, Authentic, OnlyFor, AheadOf, Unable, Served, TakenOrGone, Meaning, Continues;
      ContinuesSelf(run);
      ghost var before, s := run, View();
      error := ActOn(device, session, event, now);
      if error.Some? {
        return;
      }
      ghost var acted, s' := run, View();
      assert acted.events[|before.events|] == Meaning(device, event, now);
      ExtendedContinues(before, Meaning(device, event, now), s');
      Schedule(now);
      EventsKept(acted, run);
      ContinuesOn(before, acted, run);
      if event.ReadyEvent? {
        ReadyGetsWork(s, s', View(), device, event.free);
      }
    }

    /**
     * `handle_agent_event`: reap overdue leases, act, schedule. After a ready event from an agent that is not draining,
     * a queued job that only this agent can measure is leased to it, or the agent is gone, provided fewer jobs are
     * ahead of it than the agent has room for.
     */
    method HandleAgentEvent(device: DeviceId, session: SessionId, event: AgentEvent, now: nat)
      returns (error: Option<ServiceError>, ghost at: nat)
      requires Valid()
      modifies this`jobs, this`queue, this`agents, this`nextLease, this`run
      ensures Valid() && Continues(old(run), run) && jobs.Keys == old(jobs).Keys
      ensures error.None? ==> forall i: nat :: !ServableAt(View(), i)
      ensures |old(run).events| <= at <= |run.events| && forall k :: |old(run).events| <= k < at ==>
              Reaps(run.events[k], now)
      ensures error.Some? ==> at == |run.events|
      ensures error.None? ==>
                && at < |run.events| && run.events[at] == Meaning(device, event, now)
                && forall k :: at < k < |run.events| ==> Schedules(run.events[k])
      ensures error.None? && event.ReadyEvent? ==>
                && at < |run.states| && device in run.states[at].agents
                && var s := run.states[at];
                   forall j :: OnlyFor(s, device, j) && |AheadOf(s.queue, j)| < event.free
                               && |AheadOf(s.queue, j)| + |s.agents[device].active| < s.agents[device].slots ==>
                     TakenOrGone(View(), device, j)
    {
      hide Valid, ServableAt, Overdue, Authentic, OnlyFor, AheadOf, TakenOrGone, Meaning, Continues;
      ghost var before := run;
      ExpireLeases(now);
      EventsKept(before, run);
      at := |run.events|;
      PresentState();
      ghost var reaped := run;
      error := ActAndSchedule(device, session, event, now);
      EventsKept(reaped, run);
      StatesKept(reaped, run);
      ContinuesOn(before, reaped, run);
    }

    lemma PresentState()
      requires Valid()
      ensures |run.states| == |run.events| + 1 && run.states[|run.events|] == View()
    {
      hide Steps, Init;
    }

    // ---- artifacts -------------------------------------------------------------------------

    /**
     * `fetch_artifact`: a leased job's artifacts are always there to be fetched, so only a stranger, a stale
     * lease, a foreign digest or an offset past the end is refused.
     */
    method FetchArtifact(session: SessionId, fingerprint: Option<nat>, job: JobId, lease: LeaseId, digest: Digest,
                         offset: nat)
      returns (r: Result<Bytes, ServiceError>)
      requires Valid()
      ensures r.Ok? <==>
                && (exists d ::
                      d in agents && agents[d].fingerprint == fingerprint && HoldsLease(d, session, job, lease))
                && Submitted(jobs[job].submission, digest) && offset <= |digest.bytes|
      ensures r.Ok? ==> r.value == digest.bytes[offset..]
    {
      hide Inv, Init, IsRun, Lawful, Committed, DigestsOf, Submitted;
      ValidInv();
      SessionsAreDistinct(config, View());
      if job in jobs {
        LeasedIsBound(config, View(), job);
        SubmittedDigests(config, View(), job, digest);
      }
      var device := Authenticate(session, fingerprint);
      if device.None? || job !in jobs || !HoldsLease(device.value, session, job, lease) {
        return Err(PermissionDenied);
      }
      if !exists k :: 0 <= k < |jobs[job].descriptors| && jobs[job].descriptors[k].digest == digest {
        return Err(PermissionDenied);
      }
      DigestIsStored(config, View(), job, digest);
      var bytes := store.artifacts[digest].bytes;
      if offset > |bytes| {
        return Err(InvalidArgument("artifact offset exceeds size"));
      }
      r := Ok(bytes[offset..]);
    }
  }

  /** A coordinator with a new ledger of either kind. */
  method Start(config: Config, nextLease: LeaseId, nextSession: SessionId) returns (coordinator: Coordinator)
    ensures fresh(coordinator) && fresh(coordinator.ledger) && fresh(coordinator.store)
    ensures coordinator.Valid() && coordinator.config == config && coordinator.ledger.codec == WIRE
    ensures coordinator.ledger.receipts == map[] && coordinator.run.events == []
  {
    hide Lawful, IsRun;
    WireIsLawful();
    var ledger;
    if config.ledger.Memory? {
      ledger := new ReceiptLedger.InMemory(WIRE, config.ledger.capacity);
    } else {
      ledger := new ReceiptLedger.OnLog(WIRE, [], map[], [], []);
    }
    coordinator := new Coordinator(config, ledger, nextLease, nextSession);
  }

  /**
   * A coordinator with a file ledger after a crash. The crash may have cut a record that was being appended,
   * `log` being the first `n` bytes of what the file would have held. Every receipt is still there, and no id
   * is given out again, so a job committed before the crash is never admitted or committed afterwards.
   */
  method Restart(crashed: Coordinator, log: Bytes, ghost records: seq<Bytes>, ghost reports: seq<Report>, ghost n: nat)
    returns (coordinator: Coordinator)
    requires crashed.Valid() && crashed.config.ledger.Directory?
    requires Committed(crashed.ledger.codec, records, reports)
    requires crashed.ledger.records <= records && crashed.ledger.reports <= reports
    requires |crashed.ledger.log| <= n <= |LogOf(records)| && log == LogOf(records)[..n]
    ensures fresh(coordinator) && coordinator.Valid() && coordinator.config == crashed.config
    ensures forall job :: job in crashed.ledger.receipts ==>
              job in coordinator.ledger.receipts && coordinator.ledger.receipts[job] == crashed.ledger.receipts[job]
    ensures coordinator.run.states[0].nextLease == crashed.nextLease
    ensures coordinator.run.states[0].nextSession == crashed.nextSession
  {
    hide Lawful, IsRun, LogOf, ReceiptsOf;
    var ledger, k := Reopen(crashed.ledger.codec, log, records, reports, n);
    CompleteSurvive(crashed.ledger.codec, crashed.ledger.records, crashed.ledger.reports, records, reports, n, k);
    coordinator := new Coordinator(crashed.config, ledger, crashed.nextLease, crashed.nextSession);
  }

  datatype AgentEvent =
    | ReadyEvent(session: SessionId, free: nat)
    | AcceptedEvent(session: SessionId, job: JobId, lease: LeaseId)
    | RejectedEvent(session: SessionId, job: JobId, lease: LeaseId)
    | HeartbeatEvent(session: SessionId, job: JobId, lease: LeaseId)
    | DrainingEvent(session: SessionId)

  /** The protocol step an agent's event stands for. */
  function Meaning(device: DeviceId, event: AgentEvent, now: nat): Event
  {
    match event
    case ReadyEvent(_, free) => Ready(device, free)
    case AcceptedEvent(_, job, _) => Accept(job, now)
    case RejectedEvent(_, job, _) => Requeue(job, Rejected)
    case HeartbeatEvent(_, job, _) => Heartbeat(job, now)
    case DrainingEvent(_) => Drain(device)
  }

  /** The digest was taken of one of the submitted artifacts. */
  ghost predicate Submitted(submission: Submission, digest: Digest)
  {
    exists k :: 0 <= k < |submission.subjects|
                && submission.subjects[k].format == digest.format && submission.subjects[k].bytes == digest.bytes
  }

  /** The descriptors of an open job name exactly the submitted artifacts. */
  lemma SubmittedDigests(c: Config, s: State, job: JobId, digest: Digest)
    requires Inv(c, s) && job in s.jobs
    ensures Submitted(s.jobs[job].submission, digest) <==>
            exists k :: 0 <= k < |s.jobs[job].descriptors| && s.jobs[job].descriptors[k].digest == digest
  {
    JobAt(c, s, job);
    hide Inv;
    var job := s.jobs[job];
    if Submitted(job.submission, digest) {
      var k :| 0 <= k < |job.submission.subjects|
                && job.submission.subjects[k].format == digest.format && job.submission.subjects[k].bytes == digest.bytes;
      assert job.descriptors[k].digest == digest;
    }
    if exists k :: 0 <= k < |job.descriptors| && job.descriptors[k].digest == digest {
      var k :| 0 <= k < |job.descriptors| && job.descriptors[k].digest == digest;
      assert job.submission.subjects[k].format == digest.format;
    }
  }

  /** A digest an open job names is stored, with its own bytes. */
  lemma DigestIsStored(c: Config, s: State, job: JobId, digest: Digest)
    requires Inv(c, s) && job in s.jobs
    requires exists k :: 0 <= k < |s.jobs[job].descriptors| && s.jobs[job].descriptors[k].digest == digest
    ensures digest in s.artifacts && s.artifacts[digest].bytes == digest.bytes
  {
    hide QueueExact, JobsNamed, ReceiptsApart, HeldDistinct, HeldIssued, RecoveryQueued, ArtifactsWithin, SlotsWithin,
      LeasesExact, SessionsDistinct;
    OccurrencesWithout(s.jobs, job);
    DigestListed(s.jobs[job].descriptors, digest);
  }

  lemma {:induction false} DigestListed(descriptors: seq<Descriptor>, digest: Digest)
    requires exists k :: 0 <= k < |descriptors| && descriptors[k].digest == digest
    ensures digest in DigestsOf(descriptors)
  {
    var k :| 0 <= k < |descriptors| && descriptors[k].digest == digest;
    if k < |descriptors| - 1 {
      var init := descriptors[..|descriptors| - 1];
      assert init[k].digest == digest;
      DigestListed(init, digest);
    }
  }

  /** Some recovery of this job was granted. */
  ghost predicate Granted(recoveries: seq<Recovery>, dispositions: seq<RecoveryAction>, job: JobId)
    requires |dispositions| == |recoveries|
  {
    exists k :: 0 <= k < |recoveries| && recoveries[k].job == job && dispositions[k].SubmitReport?
  }

  lemma GrantedStep(recoveries: seq<Recovery>, i: nat, dispositions: seq<RecoveryAction>, action: RecoveryAction)
    requires i < |recoveries| && |dispositions| == i
    ensures forall j :: Granted(recoveries[..i + 1], dispositions + [action], j) <==>
              Granted(recoveries[..i], dispositions, j) || (recoveries[i].job == j && action.SubmitReport?)
  {
    var longer, answers := recoveries[..i + 1], dispositions + [action];
    forall j
      ensures Granted(longer, answers, j) <==>
              Granted(recoveries[..i], dispositions, j) || (recoveries[i].job == j && action.SubmitReport?)
    {
      if Granted(recoveries[..i], dispositions, j) {
        var k :| 0 <= k < i && recoveries[..i][k].job == j && dispositions[k].SubmitReport?;
        assert longer[k].job == j && answers[k].SubmitReport?;
      }
      if recoveries[i].job == j && action.SubmitReport? {
        assert longer[i].job == j && answers[i].SubmitReport?;
      }
    }
  }

  predicate DistinctJobs(recoveries: seq<Recovery>)
  {
    forall i, j :: 0 <= i < j < |recoveries| ==> recoveries[i].job != recoveries[j].job
  }

  /** The parts of `validate_hello` that bear on leases. */
  function ValidateHello(c: Config, hello: Hello): (error: Option<ServiceError>)
    ensures error.None? <==>
            && hello.capabilities != [] && 0 < hello.slots <= c.commandCapacity
            && (forall i :: 0 <= i < |hello.capabilities| ==>
                  && hello.capabilities[i].formats != [] && hello.capabilities[i].encodings != []
                  && hello.capabilities[i].versions != [])
            && |hello.recoveries| <= hello.slots
            && forall i, j :: 0 <= i < j < |hello.recoveries| ==> hello.recoveries[i].job != hello.recoveries[j].job
  {
    if hello.capabilities == [] then Some(Protocol("at least one engine capability is required"))
    else if hello.slots == 0 || hello.slots > c.commandCapacity
      then Some(Protocol("agent job_slots exceeds the coordinator capacity"))
    else if exists cap ::
      cap in hello.capabilities && (cap.formats == [] || cap.encodings == [] || cap.versions == []) then
      Some(Protocol("capability lists must be non-empty"))
    else if |hello.recoveries| > hello.slots then Some(Protocol("agent supplied too many lease recoveries"))
    else if !DistinctJobs(hello.recoveries) then Some(Protocol("agent supplied duplicate lease recoveries"))
    else None
  }

  lemma CardWith(active: map<JobId, LeaseId>, job: JobId, lease: LeaseId)
    ensures |active[job := lease]| <= |active| + 1
  {
    assert active[job := lease].Keys == active.Keys + {job};
    assert |active[job := lease]| == |active[job := lease].Keys|;
  }

  lemma RunLength(c: Config, r: Run)
    requires IsRun(c, r)
    ensures |r.states| == |r.events| + 1
  {
  }

  datatype Hello = Hello(
    profile: ProfileHash, capabilities: seq<Capability>, fingerprint: Option<nat>, slots: nat,
      recoveries: seq<Recovery>)

  lemma MapRestore(agents: map<DeviceId, Agent>, device: DeviceId)
    ensures device !in agents ==> agents - {device} == agents
    ensures device in agents ==> (agents - {device})[device := agents[device]] == agents
  {
  }

  lemma ContinuesSelf(r: Run)
    ensures Continues(r, r)
  {
  }

  lemma EventsKept(q: Run, r: Run)
    requires Continues(q, r)
    ensures |q.events| <= |r.events| && forall k :: 0 <= k < |q.events| ==> r.events[k] == q.events[k]
  {
  }

  lemma StatesKept(q: Run, r: Run)
    requires Continues(q, r)
    ensures |q.states| <= |r.states| && forall k :: 0 <= k < |q.states| ==> r.states[k] == q.states[k]
  {
  }

  lemma ExtendedContinues(q: Run, e: Event, s: State)
    ensures Continues(q, Extended(q, e, s))
  {
  }

  lemma ContinuesOn(a: Run, b: Run, c: Run)
    requires Continues(a, b) && Continues(b, c)
    ensures Continues(a, c)
  {
  }

  lemma QueueOfRun(c: Config, r: Run)
    requires IsRun(c, r)
    ensures NoRepeats(Last(r).queue)
  {
    hide Steps, Init;
    RunInv(c, r, |r.states| - 1);
  }

  datatype SubmitAck = ResultCommitted | ResultAlreadyCommitted | ResultInvalid

  lemma CommitNeeds(c: Config, s: State, e: Event)
    requires e.Commit? && Enabled(c, s, e)
    ensures e.job in s.jobs && e.job !in s.receipts
  {
  }

  lemma CommitAnswers(c: Config, s: State, e: Event)
    requires e.Commit? && Enabled(c, s, e)
    ensures && e.job in s.jobs && |e.report.subjects| == |s.jobs[e.job].submission.subjects|
            && (|| (&& e.report.outcome.Succeeded? && e.report.failureMessage.None?
                    && forall i :: 0 <= i < |e.report.subjects| ==>
                         e.report.subjects[i].reward.Some? && IsFinite(e.report.subjects[i].reward.value))
                || (&& e.report.outcome.Failed? && e.report.failureMessage.Some? && e.report.failureMessage.value <= 512
                    && forall i :: 0 <= i < |e.report.subjects| ==> e.report.subjects[i].reward.None?))
  {
    hide ReportValid, IsFinite;
    ReportValidExactly(c, e.job, s.jobs[e.job], e.device, s.agents[e.device], s.agents[e.device].session, e.report);
  }

  lemma CommitEffect(c: Config, s: State, e: Event)
    requires e.Commit? && Enabled(c, s, e)
    ensures Next(c, s, e).jobs == s.jobs - {e.job} && Next(c, s, e).receipts == s.receipts[e.job := e.digest]
  {
  }

  /** Writing the receipt first and removing the job then is the commit step. */
  lemma CommitStep(c: Config, s: State, e: Event, s': State)
    requires e.Commit? && Enabled(c, s, e) && e.job in s.jobs
    requires s' == Removed(s.(receipts := s.receipts[e.job := e.digest]), e.job)
    ensures Steps(c, s, e, s') && Next(c, s, e) == s'
  {
    hide ReportValid;
  }

  /** Agents only lost free slots to leases, and every job only one of them can measure has kept its turn. */
  ghost predicate AllInTurn(s0: State, s: State)
  {
    && AllServed(s0.agents, s.agents)
    && forall d, j :: OnlyFor(s0, d, j) && d in s.agents ==> d in s0.agents && InTurn(s0, s, d, j)
  }

  lemma StartInTurn(s: State)
    ensures AllInTurn(s, s)
  {
  }

  lemma OffersInTurn(c: Config, s0: State, s: State, index: nat, device: DeviceId, now: nat)
    requires Inv(c, s) && Assignable(s, index, device) && AllInTurn(s0, s)
    ensures AllInTurn(s0, OfferedTo(c, s, index, device, now))
  {
    hide Inv, ServableAt, Supports, Without, Served, OnlyFor, InTurn;
    var s' := OfferedTo(c, s, index, device, now);
    OfferServes(c, s0, s, index, device, now);
    forall d, j | OnlyFor(s0, d, j) && d in s'.agents
      ensures d in s0.agents && InTurn(s0, s', d, j)
    {
      OfferInTurn(c, s0, s, index, device, now, d, j);
    }
  }

  lemma DeparturesInTurn(c: Config, s0: State, s: State, s': State, device: DeviceId)
    requires Inv(c, s) && DepartsFrom(s, s', device) && AllInTurn(s0, s)
    ensures AllInTurn(s0, s')
  {
    hide Inv, OnlyFor, InTurn, Served;
    forall d, j | OnlyFor(s0, d, j) && d in s'.agents
      ensures d in s0.agents && InTurn(s0, s', d, j)
    {
      DepartureInTurn(c, s0, s, s', device, d, j);
    }
  }

  /** The free slots of an agent do not matter for which jobs only it can measure. */
  lemma ReadyKeepsTurn(s: State, s': State, device: DeviceId, job: JobId)
    requires device in s.agents && device in s'.agents && s'.jobs == s.jobs && s'.queue == s.queue
    requires s'.agents == s.agents[device := s.agents[device].(free := s'.agents[device].free)]
    requires OnlyFor(s, device, job)
    ensures OnlyFor(s', device, job)
  {
    hide Supports;
    assert forall d :: d in s'.agents ==> Suits(s'.agents[d], s.jobs[job]) == Suits(s.agents[d], s.jobs[job]);
  }

  /** The device is gone, or the job is leased to it. */
  ghost predicate TakenOrGone(s: State, device: DeviceId, job: JobId)
  {
    device !in s.agents || (job in s.jobs && s.jobs[job].Leased() && s.jobs[job].state.lease.device == device)
  }

  lemma ReadyGetsWork(s: State, s': State, t: State, device: DeviceId, free: nat)
    requires device in s.agents && device in s'.agents && s'.jobs == s.jobs && s'.queue == s.queue
    requires s'.agents == s.agents[device := s.agents[device].(free := s'.agents[device].free)]
    requires var agent := s.agents[device];
             if free + |agent.active| <= agent.slots then s'.agents[device].free == free
             else s'.agents[device].free + |agent.active| == agent.slots
    requires forall d, j :: OnlyFor(s', d, j) && |AheadOf(s'.queue, j)| < s'.agents[d].free ==> TakenOrGone(t, d, j)
    ensures forall j :: OnlyFor(s, device, j) && |AheadOf(s.queue, j)| < free
                        && |AheadOf(s.queue, j)| + |s.agents[device].active| < s.agents[device].slots ==>
              TakenOrGone(t, device, j)
  {
    hide OnlyFor, AheadOf, TakenOrGone;
    forall j | OnlyFor(s, device, j) && |AheadOf(s.queue, j)| < free
               && |AheadOf(s.queue, j)| + |s.agents[device].active| < s.agents[device].slots
      ensures TakenOrGone(t, device, j)
    {
      ReadyKeepsTurn(s, s', device, j);
    }
  }

  lemma AllUnable(c: Config, s: State)
    requires Inv(c, s) && forall i: nat :: !ServableAt(s, i)
    ensures forall j, d :: j in s.jobs && s.jobs[j].state.Queued? && d in s.agents ==>
              Unable(s.agents[d], s.jobs[j].submission)
  {
    hide Inv, ServableAt, Unable;
    forall j, d | j in s.jobs && s.jobs[j].state.Queued? && d in s.agents
      ensures Unable(s.agents[d], s.jobs[j].submission)
    {
      UnservedMeansUnable(c, s, j, d);
    }
  }

  lemma TurnsCome(c: Config, s0: State, s: State)
    requires Inv(c, s0) && Inv(c, s) && AllInTurn(s0, s) && forall i: nat :: !ServableAt(s, i)
    requires s.jobs.Keys == s0.jobs.Keys
    ensures AllServed(s0.agents, s.agents)
    ensures forall d, j :: OnlyFor(s0, d, j) && |AheadOf(s0.queue, j)| < s0.agents[d].free ==> TakenOrGone(s, d, j)
  {
    hide Inv, ServableAt, Served, InTurn, AheadOf;
    forall d, j | OnlyFor(s0, d, j) && |AheadOf(s0.queue, j)| < s0.agents[d].free
      ensures TakenOrGone(s, d, j)
    {
      if d in s.agents { TurnComes(c, s0, s, d, j); }
    }
  }

  lemma SlotsOf(c: Config, s: State, device: DeviceId)
    requires Inv(c, s) && device in s.agents
    ensures |s.agents[device].active| <= s.agents[device].slots
  {
  }

  lemma SessionsAreDistinct(c: Config, s: State)
    requires Inv(c, s)
    ensures SessionsDistinct(s.agents, s.nextSession)
  {
  }

  /** Room for the receipt was set aside on admission. */
  lemma RoomToCommit(c: Config, s: State, job: JobId)
    requires Inv(c, s) && job in s.jobs
    ensures c.ledger.Memory? ==> |s.receipts| < c.ledger.capacity
  {
    assert |s.jobs| == |s.jobs.Keys| && s.jobs.Keys == {job} + (s.jobs.Keys - {job});
  }

  lemma StoreWellKept(c: Config, s: State)
    requires Inv(c, s)
    ensures WellKept(s.artifacts)
  {
    CountedIsWellKept(s.artifacts, Occurrences(s.jobs));
  }

  lemma LeasedIsBound(c: Config, s: State, job: JobId)
    requires Inv(c, s) && job in s.jobs
    ensures s.jobs[job].Leased() ==> JobBound(s.agents, job, s.jobs[job].state.lease)
  {
  }

  lemma {:induction false} WithoutAbsent(queue: seq<JobId>, job: JobId)
    requires forall index: nat :: index < |queue| ==> queue[index] != job
    ensures Without(queue, job) == queue
  {
    if queue != [] {
      assert queue[0] != job;
      forall index: nat | index < |queue[1..]| ensures queue[1..][index] != job { assert queue[index + 1] != job; }
      WithoutAbsent(queue[1..], job);
    }
  }

  lemma QueueIsDistinct(c: Config, s: State)
    requires Inv(c, s)
    ensures NoRepeats(s.queue)
  {
  }

  lemma {:induction false} WithoutAt(queue: seq<JobId>, index: nat)
    requires NoRepeats(queue) && index < |queue|
    ensures Without(queue, queue[index]) == queue[..index] + queue[index + 1..]
  {
    if index > 0 {
      assert queue[0] != queue[index];
      WithoutAt(queue[1..], index - 1);
      assert queue[1..][..index - 1] == queue[1..index] && queue[1..][index..] == queue[index + 1..];
    }
  }

  /** What an agent has on record is a lease of an open job. */
  lemma EntryFacts(c: Config, r: Run, device: DeviceId, job: JobId)
    requires IsRun(c, r) && device in Last(r).agents && job in Last(r).agents[device].active
    ensures job in Last(r).jobs && Last(r).jobs[job].Leased() && job !in Last(r).queue
    ensures Last(r).jobs[job].state.lease.device == device
    ensures Last(r).jobs[job].state.lease.id == Last(r).agents[device].active[job]
  {
    RunInv(c, r, |r.states| - 1);
    assert EntryBound(Last(r).jobs, device, job, Last(r).agents[device].active[job]);
  }

  lemma LeasedFacts(c: Config, s: State, job: JobId)
    requires Inv(c, s) && job in s.jobs && s.jobs[job].Leased()
    ensures JobBound(s.agents, job, s.jobs[job].state.lease) && job !in s.queue
  {
  }
}

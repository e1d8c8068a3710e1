/** Safety over whole runs of the coordinator. */
module FleetRuns {
  import opened Basics
  import opened Fleet
  import opened FleetProtocol
  import opened FleetInvariant

  datatype Run = Run(states: seq<State>, events: seq<Event>)

  ghost predicate Steps(c: Config, s: State, e: Event, s': State)
  {
    Enabled(c, s, e) && s' == Next(c, s, e)
  }

  ghost predicate IsRun(c: Config, r: Run)
  {
    && |r.states| == |r.events| + 1
    && Init(c, r.states[0])
    && forall k :: 0 <= k < |r.events| ==> Steps(c, r.states[k], r.events[k], r.states[k + 1])
  }

  ghost function Last(r: Run): State
    requires |r.states| > 0
  {
    r.states[|r.states| - 1]
  }

  /** `r` continues `q`. */
  ghost predicate Continues(q: Run, r: Run)
  {
    q.states <= r.states && q.events <= r.events
  }

  /** Every reachable state satisfies the invariant. */
  lemma {:induction false} RunInv(c: Config, r: Run, k: nat)
    requires IsRun(c, r) && k < |r.states|
    ensures Inv(c, r.states[k])
  {
    hide Enabled, Next, Inv;
    if k == 0 {
      InitInv(c, r.states[0]);
    } else {
      RunInv(c, r, k - 1);
      assert Steps(c, r.states[k - 1], r.events[k - 1], r.states[k]);
      StepKeepsInv(c, r.states[k - 1], r.events[k - 1]);
    }
  }

  lemma StepOf(c: Config, r: Run, k: nat)
    requires IsRun(c, r) && k < |r.events|
    ensures Steps(c, r.states[k], r.events[k], r.states[k + 1]) && Inv(c, r.states[k]) && Inv(c, r.states[k + 1])
  {
    hide Steps, Inv, Enabled, Next;
    RunInv(c, r, k);
    RunInv(c, r, k + 1);
  }

  // ---- commits -----------------------------------------------------------------------------

  /** A receipt, once written, never changes. */
  lemma {:induction false} ReceiptsKept(c: Config, r: Run, i: nat, j: nat, job: JobId)
    requires IsRun(c, r) && i <= j < |r.states| && job in r.states[i].receipts
    ensures job in r.states[j].receipts && r.states[j].receipts[job] == r.states[i].receipts[job]
    decreases j
  {
    hide Enabled, Next, Init;
    if i < j {
      ReceiptsKept(c, r, i, j - 1, job);
      assert Steps(c, r.states[j - 1], r.events[j - 1], r.states[j]);
      ReceiptStep(c, r.states[j - 1], r.events[j - 1], job);
    }
  }

  lemma ReceiptStep(c: Config, s: State, e: Event, job: JobId)
    requires Enabled(c, s, e) && job in s.receipts
    ensures job in Next(c, s, e).receipts && Next(c, s, e).receipts[job] == s.receipts[job]
  {
  }

  /** No job is committed twice, so no caller is answered twice, and a committed job is never open again. */
  lemma CommitAtMostOnce(c: Config, r: Run, i: nat, j: nat)
    requires IsRun(c, r) && i < j < |r.events| && r.events[i].Commit?
    ensures r.events[i].job in r.states[i + 1].receipts
    ensures r.events[i].job !in r.states[j].jobs
    ensures r.events[j].Commit? ==> r.events[j].job != r.events[i].job
    ensures r.events[j].Admit? ==> JobId(KeyOf(r.events[j].submission), r.events[j].nonce) != r.events[i].job
  {
    hide Inv, KeyOf, ReportValid;
    StepOf(c, r, i);
    StepOf(c, r, j);
    ReceiptsKept(c, r, i + 1, j, r.events[i].job);
    assert ReceiptsApart(c, r.states[j].jobs, r.states[j].receipts) by { InvApart(c, r.states[j]); }
  }

  lemma InvApart(c: Config, s: State)
    requires Inv(c, s)
    ensures ReceiptsApart(c, s.jobs, s.receipts)
  {
  }

  /** With a bounded ledger, an open job can always be committed: room was set aside when it was admitted. */
  lemma CommitHasRoom(c: Config, r: Run, k: nat, job: JobId)
    requires IsRun(c, r) && k < |r.states| && job in r.states[k].jobs && c.ledger.Memory?
    ensures |r.states[k].receipts| < c.ledger.capacity && job !in r.states[k].receipts
  {
    hide Inv, IsRun;
    RunInv(c, r, k);
    InvApart(c, r.states[k]);
    SomeJob(r.states[k].jobs, job);
  }

  lemma SomeJob(jobs: map<JobId, Job>, job: JobId)
    requires job in jobs
    ensures |jobs| > 0
  {
    assert |jobs| == |jobs.Keys| && jobs.Keys == {job} + (jobs.Keys - {job});
  }

  // ---- the life of a lease -----------------------------------------------------------------

  /** The job holds this lease: it runs under it, or keeps it for recovery. */
  ghost predicate Held(s: State, job: JobId, lease: LeaseId)
  {
    job in s.jobs && Holding(s.jobs[job]).Some? && Holding(s.jobs[job]).value.id == lease
  }

  /** An issued lease that a job does not hold is never held by it again. */
  lemma LeaseGoneStep(c: Config, s: State, e: Event, job: JobId, lease: LeaseId)
    requires RecoveryQueued(s.jobs) && Enabled(c, s, e) && lease < s.nextLease && !Held(s, job, lease)
    ensures !Held(Next(c, s, e), job, lease) && lease < Next(c, s, e).nextLease
  {
    hide ReportValid, Fits, ServableAt, AgentMatches, Without, Retained, Released, Sizes, DigestsOf, KeyOf,
      DescriptorsOf,
      ValidateSubmission, RoomInLedger, FreeAfterReady, Forget, ForgetLease;
  }

  lemma {:induction false} LeaseGone(c: Config, r: Run, i: nat, j: nat, job: JobId, lease: LeaseId)
    requires IsRun(c, r) && i <= j < |r.states| && lease < r.states[i].nextLease && !Held(r.states[i], job, lease)
    ensures !Held(r.states[j], job, lease)
    ensures lease < r.states[j].nextLease
    decreases j
  {
    hide Held, Enabled, Next, Inv;
    if i < j {
      LeaseGone(c, r, i, j - 1, job, lease);
      StepOf(c, r, j - 1);
      InvHeld(c, r.states[j - 1]);
      LeaseGoneStep(c, r.states[j - 1], r.events[j - 1], job, lease);
    }
  }

  /** While a lease is held, it stays with its device and origin session, and its job stays the same. */
  ghost predicate SameHolding(s: State, s': State, job: JobId)
    requires job in s.jobs && job in s'.jobs && Holding(s.jobs[job]).Some? && Holding(s'.jobs[job]).Some?
  {
    && SameIdentity(s.jobs[job], s'.jobs[job])
    && Holding(s.jobs[job]).value.device == Holding(s'.jobs[job]).value.device
    && Holding(s.jobs[job]).value.origin == Holding(s'.jobs[job]).value.origin
  }

  lemma HeldStep(c: Config, s: State, e: Event, job: JobId, lease: LeaseId)
    requires RecoveryQueued(s.jobs) && HeldIssued(s.jobs, s.nextLease)
    requires Enabled(c, s, e) && Held(s, job, lease) && Held(Next(c, s, e), job, lease)
    ensures SameHolding(s, Next(c, s, e), job)
  {
    hide Enabled, Next, SameHolding, HeldIssued, RecoveryQueued;
    JobAfter(c, s, e, job);
    var before, after := s.jobs[job], Next(c, s, e).jobs[job];
    if before != after {
      HoldingKept(s, job, after, lease);
    }
    SameHoldingOf(s, Next(c, s, e), job);
  }

  /** How a step may change an open job: a new lease id, or the same device and origin. */
  ghost predicate JobEvolves(s: State, before: Job, after: Job)
  {
    && SameIdentity(before, after)
    && (Holding(after).Some? ==>
          || Holding(after).value.id == s.nextLease
          || (Holding(before).Some? && Holding(before).value.id == Holding(after).value.id
              && Holding(before).value.device == Holding(after).value.device
              && Holding(before).value.origin == Holding(after).value.origin))
  }

  lemma JobAfter(c: Config, s: State, e: Event, job: JobId)
    requires RecoveryQueued(s.jobs) && Enabled(c, s, e) && job in s.jobs && job in Next(c, s, e).jobs
    ensures s.jobs[job] == Next(c, s, e).jobs[job] || JobEvolves(s, s.jobs[job], Next(c, s, e).jobs[job])
  {
    hide ReportValid, Fits, ServableAt, AgentMatches, Without, Retained, Released, Sizes, DigestsOf, KeyOf,
      DescriptorsOf,
      ValidateSubmission, RoomInLedger, FreeAfterReady, Forget, ForgetLease;
  }

  lemma HoldingKept(s: State, job: JobId, after: Job, lease: LeaseId)
    requires HeldIssued(s.jobs, s.nextLease) && Held(s, job, lease) && JobEvolves(s, s.jobs[job], after)
    requires Holding(after).Some? && Holding(after).value.id == lease
    ensures Holding(s.jobs[job]).value.device == Holding(after).value.device
    ensures Holding(s.jobs[job]).value.origin == Holding(after).value.origin
  {
  }

  lemma SameHoldingOf(s: State, s': State, job: JobId)
    requires job in s.jobs && job in s'.jobs && Holding(s.jobs[job]).Some? && Holding(s'.jobs[job]).Some?
    requires SameIdentity(s.jobs[job], s'.jobs[job])
    requires Holding(s.jobs[job]).value.device == Holding(s'.jobs[job]).value.device
    requires Holding(s.jobs[job]).value.origin == Holding(s'.jobs[job]).value.origin
    ensures SameHolding(s, s', job)
  {
  }

  lemma {:induction false} HeldThroughout(c: Config, r: Run, i: nat, j: nat, job: JobId, lease: LeaseId)
    requires IsRun(c, r) && i <= j < |r.states|
    requires Held(r.states[i], job, lease) && Held(r.states[j], job, lease)
    ensures SameHolding(r.states[i], r.states[j], job)
    decreases j
  {
    hide Enabled, Next, Inv;
    if i < j {
      StepOf(c, r, j - 1);
      RunInv(c, r, i);
      HeldIsIssued(c, r.states[i], job, lease);
      if !Held(r.states[j - 1], job, lease) {
        IssuedLater(c, r, i, j - 1);
        InvHeld(c, r.states[j - 1]);
        LeaseGoneStep(c, r.states[j - 1], r.events[j - 1], job, lease);
      }
      HeldThroughout(c, r, i, j - 1, job, lease);
      InvHeld(c, r.states[j - 1]);
      HeldStep(c, r.states[j - 1], r.events[j - 1], job, lease);
    }
  }

  lemma InvHeld(c: Config, s: State)
    requires Inv(c, s)
    ensures RecoveryQueued(s.jobs) && HeldIssued(s.jobs, s.nextLease)
  {
  }

  lemma HeldIsIssued(c: Config, s: State, job: JobId, lease: LeaseId)
    requires Inv(c, s) && Held(s, job, lease)
    ensures lease < s.nextLease
  {
  }

  lemma {:induction false} IssuedLater(c: Config, r: Run, i: nat, j: nat)
    requires IsRun(c, r) && i <= j < |r.states|
    ensures r.states[i].nextLease <= r.states[j].nextLease && r.states[i].nextSession <= r.states[j].nextSession
    decreases j
  {
    hide Enabled, Next, Init;
    if i < j {
      IssuedLater(c, r, i, j - 1);
      assert Steps(c, r.states[j - 1], r.events[j - 1], r.states[j]);
      IssueStep(c, r.states[j - 1], r.events[j - 1]);
    }
  }

  lemma IssueStep(c: Config, s: State, e: Event)
    requires Enabled(c, s, e)
    ensures s.nextLease <= Next(c, s, e).nextLease && s.nextSession <= Next(c, s, e).nextSession
  {
    hide ReportValid, Fits, ServableAt, AgentMatches, Without, Retained, Released, Sizes, DigestsOf, KeyOf,
      DescriptorsOf;
  }

  // ---- the most recent grant ---------------------------------------------------------------

  /** Event `k` offers this job. */
  ghost predicate Grants(r: Run, k: nat, job: JobId)
    requires k < |r.events| && k < |r.states|
  {
    r.events[k].Offer? && r.events[k].index < |r.states[k].queue| && r.states[k].queue[r.events[k].index] == job
  }

  /** The lease most recently granted for a job before step `k`. */
  ghost function LastGrant(r: Run, k: nat, job: JobId): Option<LeaseId>
    requires k <= |r.events| && k <= |r.states|
  {
    if k == 0 then None
    else if Grants(r, k - 1, job) then Some(r.states[k - 1].nextLease)
    else LastGrant(r, k - 1, job)
  }

  /** A held lease that did not come from an offer in this step was held before it. */
  lemma HeldBefore(c: Config, s: State, e: Event, job: JobId)
    requires RecoveryQueued(s.jobs) && Enabled(c, s, e) && job in Next(c, s, e).jobs
             && Holding(Next(c, s, e).jobs[job]).Some?
    ensures var id := Holding(Next(c, s, e).jobs[job]).value.id;
            if e.Offer? && s.queue[e.index] == job then id == s.nextLease else Held(s, job, id)
  {
    hide ReportValid, Fits, ServableAt, AgentMatches, Without, Retained, Released, Sizes, DigestsOf, KeyOf,
      DescriptorsOf,
      ValidateSubmission, RoomInLedger, FreeAfterReady, Forget, ForgetLease;
  }

  /** Whatever lease a job holds is its most recent grant. */
  lemma {:induction false} HeldIsLastGrant(c: Config, r: Run, k: nat, job: JobId, lease: LeaseId)
    requires IsRun(c, r) && k < |r.states| && Held(r.states[k], job, lease)
    ensures LastGrant(r, k, job) == Some(lease)
  {
    hide Enabled, Next, Inv;
    if k == 0 {
      assert false;
    } else {
      StepOf(c, r, k - 1);
      InvHeld(c, r.states[k - 1]);
      HeldBefore(c, r.states[k - 1], r.events[k - 1], job);
      if !Grants(r, k - 1, job) {
        OfferIndex(c, r.states[k - 1], r.events[k - 1]);
        HeldIsLastGrant(c, r, k - 1, job, lease);
      }
    }
  }

  lemma OfferIndex(c: Config, s: State, e: Event)
    requires Enabled(c, s, e)
    ensures e.Offer? ==> e.index < |s.queue|
  {
  }

  /**
   * A commit happens only while the job runs under its most recent grant, held by the reporting device in
   * its current session.
   */
  lemma CommitUnderLastGrant(c: Config, r: Run, k: nat)
    requires IsRun(c, r) && k < |r.events| && r.events[k].Commit?
    ensures var e, s := r.events[k], r.states[k];
            && e.job in s.jobs && s.jobs[e.job].state.Running? && e.device in s.agents
            && LastGrant(r, k, e.job) == Some(e.report.lease)
            && s.jobs[e.job].state.lease.id == e.report.lease
            && s.jobs[e.job].state.lease.device == e.device
            && s.jobs[e.job].state.lease.session == s.agents[e.device].session
  {
    hide Inv, IdentityMatches, EvidenceAcceptable;
    StepOf(c, r, k);
    HeldIsLastGrant(c, r, k, r.events[k].job, r.events[k].report.lease);
  }

  // ---- replies -----------------------------------------------------------------------------

  /** Event `i` admits this job for some caller. */
  ghost predicate Admits(e: Event, job: JobId)
  {
    e.Admit? && JobId(KeyOf(e.submission), e.nonce) == job
  }

  /** Event `e` closes this job: its caller's channel is gone. */
  ghost predicate Closes(e: Event, job: JobId)
  {
    (e.Cancel? || e.Commit?) && e.job == job
  }

  /**
   * Commit `k` is the reply to the caller of admission `i`: the channel opened by the admission travels with
   * the job and is used up by the first event that closes it.
   */
  ghost predicate RepliesTo(r: Run, i: nat, k: nat)
    requires k < |r.events|
  {
    && i < k && r.events[k].Commit? && Admits(r.events[i], r.events[k].job)
    && forall m :: i < m < k ==> !Closes(r.events[m], r.events[k].job) && !Admits(r.events[m], r.events[k].job)
  }

  lemma OpensStep(c: Config, s: State, e: Event, job: JobId)
    requires Enabled(c, s, e)
    ensures job in Next(c, s, e).jobs <==> (Admits(e, job) || (job in s.jobs && !Closes(e, job)))
    ensures Admits(e, job) ==> job !in s.jobs
  {
    hide ReportValid, Fits, ServableAt, AgentMatches, Without, Retained, Released, Sizes, DigestsOf, KeyOf,
      DescriptorsOf,
      ValidateSubmission, RoomInLedger, FreeAfterReady, Forget, ForgetLease;
  }

  /** An open job goes back to exactly one admission since which it was neither closed nor admitted again. */
  lemma {:induction false} OpenSince(c: Config, r: Run, k: nat, job: JobId) returns (i: nat)
    requires IsRun(c, r) && k < |r.states| && job in r.states[k].jobs
    ensures i < k && Admits(r.events[i], job)
    ensures forall m :: i < m < k ==> !Closes(r.events[m], job) && !Admits(r.events[m], job)
  {
    hide Enabled, Next, Admits, Closes;
    if k == 0 {
      assert false;
    } else {
      assert Steps(c, r.states[k - 1], r.events[k - 1], r.states[k]);
      OpensStep(c, r.states[k - 1], r.events[k - 1], job);
      if Admits(r.events[k - 1], job) {
        i := k - 1;
      } else {
        i := OpenSince(c, r, k - 1, job);
      }
    }
  }

  /** Every commit replies to exactly one caller, and no caller is replied to twice. */
  lemma OneReply(c: Config, r: Run, k: nat)
    requires IsRun(c, r) && k < |r.events| && r.events[k].Commit?
    ensures exists i :: 0 <= i && RepliesTo(r, i, k)
    ensures forall i: nat, j: nat :: RepliesTo(r, i, k) && RepliesTo(r, j, k) ==> i == j
    ensures forall i: nat, l: nat :: l < |r.events| && RepliesTo(r, i, k) && RepliesTo(r, i, l) ==> l == k
  {
    hide Inv, KeyOf, ReportValid, Init;
    StepOf(c, r, k);
    var i := OpenSince(c, r, k, r.events[k].job);
    assert RepliesTo(r, i, k);
    forall i: nat, l: nat | l < |r.events| && RepliesTo(r, i, k) && RepliesTo(r, i, l)
      ensures l == k
    {
      assert r.events[l].job == r.events[k].job && Closes(r.events[l], r.events[k].job);
    }
  }

  // ---- draining ----------------------------------------------------------------------------

  /** This session, if it is still connected, is draining. */
  ghost predicate DrainedIfPresent(s: State, session: SessionId)
  {
    forall d :: d in s.agents && s.agents[d].session == session ==> s.agents[d].draining
  }

  lemma DrainedStep(c: Config, s: State, e: Event, session: SessionId)
    requires Enabled(c, s, e) && session < s.nextSession && DrainedIfPresent(s, session)
    ensures DrainedIfPresent(Next(c, s, e), session)
  {
    hide ReportValid, Fits, ServableAt, AgentMatches, Without, Retained, Released, Sizes, DigestsOf;
  }

  /** A session that is draining stays so, and is never offered a lease again. */
  lemma {:induction false} DrainingGetsNoLease(c: Config, r: Run, i: nat, j: nat, device: DeviceId)
    requires IsRun(c, r) && i <= j < |r.events| && device in r.states[i].agents && r.states[i].agents[device].draining
    ensures DrainedIfPresent(r.states[j], r.states[i].agents[device].session)
    ensures r.events[j].Offer? ==>
              && r.events[j].device in r.states[j].agents
              && r.states[j].agents[r.events[j].device].session != r.states[i].agents[device].session
    decreases j
  {
    hide Inv, Next, DrainedIfPresent, Enabled, Init;
    var session := r.states[i].agents[device].session;
    RunInv(c, r, i);
    SessionIssued(c, r.states[i], device);
    if i == j {
      DrainedNow(c, r.states[i], device);
    } else {
      DrainingGetsNoLease(c, r, i, j - 1, device);
      IssuedLater(c, r, i, j - 1);
      StepOf(c, r, j - 1);
      DrainedStep(c, r.states[j - 1], r.events[j - 1], session);
    }
    StepOf(c, r, j);
    NoOfferToDrained(c, r.states[j], r.events[j], session);
  }

  lemma SessionIssued(c: Config, s: State, device: DeviceId)
    requires Inv(c, s) && device in s.agents
    ensures s.agents[device].session < s.nextSession
  {
  }

  lemma DrainedNow(c: Config, s: State, device: DeviceId)
    requires Inv(c, s) && device in s.agents && s.agents[device].draining
    ensures DrainedIfPresent(s, s.agents[device].session)
  {
  }

  lemma NoOfferToDrained(c: Config, s: State, e: Event, session: SessionId)
    requires Enabled(c, s, e) && DrainedIfPresent(s, session)
    ensures e.Offer? ==> e.device in s.agents && s.agents[e.device].session != session
  {
    hide ServableAt, Supports;
  }
}

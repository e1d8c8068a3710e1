/** The model-generation lease registry: which generations stay resident, and which may be released. */
module ModelLeases {
  import opened Basics

  datatype Model = Model(id: nat, version: nat)
  datatype Generation = Generation(model: Model, users: nat)

  datatype LeaseError = ZeroGeneration | CapacityBelowTwo | IdChangedVersion | VersionHasTwoIds | TooManyResident

  ghost predicate Resident(generations: seq<Generation>, m: Model)
  {
    exists k :: 0 <= k < |generations| && generations[k].model == m
  }

  /** A resident generation that nobody uses. */
  ghost predicate Unused(generations: seq<Generation>, m: Model)
  {
    exists k :: 0 <= k < |generations| && generations[k] == Generation(m, 0)
  }

  /** No two resident generations share an id or a version. */
  ghost predicate DistinctModels(generations: seq<Generation>)
  {
    forall i, j :: 0 <= i < j < |generations| ==>
      generations[i].model.id != generations[j].model.id && generations[i].model.version != generations[j].model.version
  }

  /** User counts are the live leases, and every leased generation is resident. */
  ghost predicate UsersExact(generations: seq<Generation>, leases: multiset<Model>)
  {
    && (forall k :: 0 <= k < |generations| ==> generations[k].users == leases[generations[k].model])
    && forall m :: m in leases ==> Resident(generations, m)
  }

  /** Exactly the unused generations other than the current one await release. */
  ghost predicate ReleasableExact(current: Model, generations: seq<Generation>, releasable: seq<Model>)
  {
    && NoRepeats(releasable)
    && forall m :: m in releasable <==> m != current && Unused(generations, m)
  }

  ghost predicate Consistent(current: Model, generations: seq<Generation>, releasable: seq<Model>,
                             leases: multiset<Model>)
  {
    && Resident(generations, current) && DistinctModels(generations)
    && UsersExact(generations, leases) && ReleasableExact(current, generations, releasable)
  }

  /** The resident generations are exactly the current one, the leased ones and those awaiting release. */
  lemma ResidentExactly(current: Model, generations: seq<Generation>, releasable: seq<Model>, leases: multiset<Model>,
                        m: Model)
    requires Consistent(current, generations, releasable, leases)
    ensures Resident(generations, m) <==> m == current || m in leases || m in releasable
    ensures m in releasable ==> m != current && m !in leases
  {
    if k :| 0 <= k < |generations| && generations[k].model == m {
      assert generations[k].users == leases[m];
      if generations[k].users == 0 { assert generations[k] == Generation(m, 0); }
    }
    if m in releasable {
      var k :| 0 <= k < |generations| && generations[k] == Generation(m, 0);
      assert generations[k].model == m;
    }
  }

  // ---- one change at a time ----------------------------------------------------------------

  lemma OneMoreUser(generations: seq<Generation>, leases: multiset<Model>, k: nat)
    requires DistinctModels(generations) && UsersExact(generations, leases) && k < |generations|
    ensures UsersExact(generations[k := generations[k].(users := generations[k].users + 1)],
                       leases + multiset{generations[k].model})
  {
    hide Resident;
    var after := generations[k := generations[k].(users := generations[k].users + 1)];
    ResidentSame(generations, after);
    assert Resident(after, after[k].model) by { ResidentAt(after, k); }
  }

  lemma OneUserLess(generations: seq<Generation>, leases: multiset<Model>, k: nat)
    requires DistinctModels(generations) && UsersExact(generations, leases) && k < |generations|
    requires generations[k].model in leases
    ensures generations[k].users == leases[generations[k].model] > 0
    ensures UsersExact(generations[k := generations[k].(users := generations[k].users - 1)],
                       leases - multiset{generations[k].model})
  {
    hide Resident;
    ResidentSame(generations, generations[k := generations[k].(users := generations[k].users - 1)]);
  }

  lemma ResidentAt(generations: seq<Generation>, k: nat)
    requires k < |generations|
    ensures Resident(generations, generations[k].model)
  {
  }

  lemma UserAdded(current: Model, generations: seq<Generation>, releasable: seq<Model>, leases: multiset<Model>, k: nat)
    requires Consistent(current, generations, releasable, leases) && k < |generations|
             && generations[k].model == current
    ensures Consistent(current, generations[k := Generation(current, generations[k].users + 1)], releasable,
                       leases + multiset{current})
  {
    var after := generations[k := Generation(current, generations[k].users + 1)];
    ResidentSame(generations, after);
    forall m | m != current
      ensures Unused(after, m) <==> Unused(generations, m)
    {
      UnusedElsewhere(generations, after, k, m);
    }
  }

  lemma ResidentSame(before: seq<Generation>, after: seq<Generation>)
    requires |before| == |after| && forall k :: 0 <= k < |before| ==> after[k].model == before[k].model
    ensures forall m :: Resident(after, m) <==> Resident(before, m)
  {
    forall m
      ensures Resident(after, m) <==> Resident(before, m)
    {
      if k :| 0 <= k < |before| && before[k].model == m { assert after[k].model == m; }
      if k :| 0 <= k < |after| && after[k].model == m { assert before[k].model == m; }
    }
  }

  lemma UnusedElsewhere(before: seq<Generation>, after: seq<Generation>, k: nat, m: Model)
    requires k < |before| == |after| && after[k].model == before[k].model != m
    requires forall i :: 0 <= i < |before| && i != k ==> after[i] == before[i]
    ensures Unused(after, m) <==> Unused(before, m)
  {
    if i :| 0 <= i < |before| && before[i] == Generation(m, 0) { assert after[i] == Generation(m, 0); }
    if i :| 0 <= i < |after| && after[i] == Generation(m, 0) { assert before[i] == Generation(m, 0); }
  }

  /** One lease dropped; a generation that becomes unused and is not current joins the queue. */
  lemma UserDropped(current: Model, generations: seq<Generation>, releasable: seq<Model>, leases: multiset<Model>,
                    k: nat)
    requires Consistent(current, generations, releasable, leases) && k < |generations| && generations[k].model in leases
    ensures generations[k].users == leases[generations[k].model] > 0
    ensures var m := generations[k].model;
            var after := generations[k := Generation(m, generations[k].users - 1)];
            var queue := if generations[k].users == 1 && m != current then releasable + [m] else releasable;
            m !in releasable && Consistent(current, after, queue, leases - multiset{m})
  {
    var m := generations[k].model;
    OneUserLess(generations, leases, k);
    var after := generations[k := Generation(m, generations[k].users - 1)];
    ResidentSame(generations, after);
    ResidentExactly(current, generations, releasable, leases, m);
    hide UsersExact, Resident, Unused;
    forall x | x != m
      ensures Unused(after, x) <==> Unused(generations, x)
    {
      UnusedElsewhere(generations, after, k, x);
    }
    UnusedOnlyAt(after, k);
  }

  /** With distinct models, whether a generation is unused is settled at its own place. */
  lemma UnusedOnlyAt(generations: seq<Generation>, k: nat)
    requires DistinctModels(generations) && k < |generations|
    ensures Unused(generations, generations[k].model) <==> generations[k].users == 0
  {
    if generations[k].users == 0 { assert generations[k] == Generation(generations[k].model, 0); }
    if i :| 0 <= i < |generations| && generations[i] == Generation(generations[k].model, 0) {
      assert i == k;
    }
  }

  // ---- publishing --------------------------------------------------------------------------

  /** The id and the version of a new generation fit the resident ones. */
  ghost predicate Fits(generations: seq<Generation>, model: Model)
  {
    forall k :: 0 <= k < |generations| ==>
      (generations[k].model.id == model.id <==> generations[k].model.version == model.version)
  }

  ghost function WithModel(generations: seq<Generation>, model: Model): seq<Generation>
  {
    if Resident(generations, model) then generations else generations + [Generation(model, 0)]
  }

  /** The queue after the previous generation was superseded. */
  ghost function Queued(generations: seq<Generation>, releasable: seq<Model>, previous: Model): seq<Model>
  {
    if Unused(generations, previous) && previous !in releasable then releasable + [previous] else releasable
  }

  lemma WithModelDistinct(generations: seq<Generation>, model: Model)
    requires DistinctModels(generations) && Fits(generations, model)
    ensures DistinctModels(WithModel(generations, model)) && Resident(WithModel(generations, model), model)
    ensures forall m :: Resident(generations, m) ==> Resident(WithModel(generations, model), m)
    ensures forall m :: m != model ==> (Unused(WithModel(generations, model), m) <==> Unused(generations, m))
  {
    var after := WithModel(generations, model);
    if !Resident(generations, model) {
      assert after[|generations|].model == model;
      forall k | 0 <= k < |generations|
        ensures generations[k].model.id != model.id && generations[k].model.version != model.version
      {
      }
      forall m | Resident(generations, m)
        ensures Resident(after, m)
      {
        var k :| 0 <= k < |generations| && generations[k].model == m;
        assert after[k].model == m;
      }
      forall m | m != model
        ensures Unused(after, m) <==> Unused(generations, m)
      {
        if i :| 0 <= i < |generations| && generations[i] == Generation(m, 0) { assert after[i] == Generation(m, 0); }
        if i :| 0 <= i < |after| && after[i] == Generation(m, 0) { assert generations[i] == Generation(m, 0); }
      }
    }
  }

  lemma NewUnused(current: Model, generations: seq<Generation>, releasable: seq<Model>, leases: multiset<Model>,
                  model: Model)
    requires Consistent(current, generations, releasable, leases) && Fits(generations, model)
    ensures UsersExact(WithModel(generations, model), leases)
  {
    WithModelDistinct(generations, model);
    if !Resident(generations, model) {
      ResidentExactly(current, generations, releasable, leases, model);
    }
  }

  /**
   * Publishing another generation keeps the registry consistent exactly when that generation is not
   * waiting to be released.
   */
  lemma PublishBoundary(current: Model, generations: seq<Generation>, releasable: seq<Model>, leases: multiset<Model>,
                        model: Model)
    requires Consistent(current, generations, releasable, leases) && model != current && Fits(generations, model)
    ensures var after := WithModel(generations, model);
            Consistent(model, after, Queued(after, releasable, current), leases) <==> model !in releasable
  {
    hide Unused, Resident, DistinctModels;
    var after := WithModel(generations, model);
    hide WithModel;
    var queue := Queued(after, releasable, current);
    WithModelDistinct(generations, model);
    NewUnused(current, generations, releasable, leases, model);
    if model in releasable {
      assert model in queue;
    } else {
      forall m
        ensures m in queue <==> m != model && Unused(after, m)
      {
        if m == current { assert m in queue <==> Unused(after, m); }
      }
    }
  }

  // ---- releasing ---------------------------------------------------------------------------

  /** The generations that stay. */
  function Retained(generations: seq<Generation>, released: seq<Model>): (r: seq<Generation>)
    ensures forall g :: g in r <==> g in generations && g.model !in released
  {
    if generations == [] then []
    else
      var rest := Retained(generations[..|generations| - 1], released);
      var last := generations[|generations| - 1];
      assert generations == generations[..|generations| - 1] + [last];
      if last.model in released then rest else rest + [last]
  }

  lemma {:induction false} RetainedDistinct(generations: seq<Generation>, released: seq<Model>)
    requires DistinctModels(generations)
    ensures DistinctModels(Retained(generations, released)) && |Retained(generations, released)| <= |generations|
  {
    if generations != [] {
      var init, last := generations[..|generations| - 1], generations[|generations| - 1];
      RetainedDistinct(init, released);
      var rest := Retained(init, released);
      assert Retained(generations, released) == if last.model in released then rest else rest + [last];
      assert forall g :: g in rest ==> g in init;
      hide Retained;
      DistinctAppend(rest, init, last);
    }
  }

  lemma DistinctAppend(rest: seq<Generation>, init: seq<Generation>, last: Generation)
    requires DistinctModels(rest) && DistinctModels(init + [last]) && forall g :: g in rest ==> g in init
    ensures DistinctModels(rest + [last])
  {
    var all := init + [last];
    forall k | 0 <= k < |rest|
      ensures rest[k].model.id != last.model.id && rest[k].model.version != last.model.version
    {
      assert rest[k] in init;
      var i :| 0 <= i < |init| && init[i] == rest[k];
      assert all[i] == rest[k] && all[|init|] == last;
    }
  }

  lemma ResidentIn(generations: seq<Generation>, m: Model)
    ensures Resident(generations, m) <==> exists g :: g in generations && g.model == m
    ensures Unused(generations, m) <==> Generation(m, 0) in generations
  {
    if g :| g in generations && g.model == m {
      var k :| 0 <= k < |generations| && generations[k] == g;
    }
  }

  /** After a release the registry is consistent again with an empty queue, and nothing in use was released. */
  lemma ReleaseConsistent(current: Model, generations: seq<Generation>, releasable: seq<Model>, leases: multiset<Model>)
    requires Consistent(current, generations, releasable, leases)
    ensures Consistent(current, Retained(generations, releasable), [], leases)
    ensures forall m :: m in releasable ==>
            m != current && m !in leases && !Resident(Retained(generations, releasable), m)
  {
    hide Unused, Resident, Retained;
    var after := Retained(generations, releasable);
    RetainedDistinct(generations, releasable);
    forall m
      ensures Resident(after, m) <==> Resident(generations, m) && m !in releasable
      ensures Unused(after, m) <==> Unused(generations, m) && m !in releasable
      ensures m in releasable ==> m != current && m !in leases
    {
      ResidentIn(generations, m);
      ResidentIn(after, m);
      ResidentExactly(current, generations, releasable, leases, m);
    }
    forall k | 0 <= k < |after|
      ensures after[k].users == leases[after[k].model]
    {
      assert after[k] in generations;
    }
  }

  class ModelLeaseRegistry {
    const maxResident: nat
    var current: Model
    var generations: seq<Generation>
    var releasable: seq<Model>
    /** Leases handed out and not yet dropped. */
    ghost var leases: multiset<Model>
    /** Generations that were current once and have been replaced. */
    ghost var superseded: set<Model>

    ghost predicate Valid()
      reads this
    {
      && Consistent(current, generations, releasable, leases)
      && |generations| <= maxResident
      && forall m :: Resident(generations, m) && m != current ==> m in superseded
    }

    /** `new` refuses generation zero and room for fewer than two generations. */
    static method Create(current: Model, maxResident: nat) returns (r: Result<ModelLeaseRegistry, LeaseError>)
      ensures r.Err? <==> current.id == 0 || maxResident < 2
      ensures r.Ok? ==> fresh(r.value) && r.value.Valid() && r.value.current == current && r.value.leases == multiset{}
    {
      if current.id == 0 {
        return Err(ZeroGeneration);
      }
      if maxResident < 2 {
        return Err(CapacityBelowTwo);
      }
      var registry := new ModelLeaseRegistry(current, maxResident);
      r := Ok(registry);
    }

    constructor (current: Model, maxResident: nat)
      requires current.id != 0 && maxResident >= 2
      ensures Valid() && this.current == current && this.maxResident == maxResident
      ensures leases == multiset{} && releasable == [] && superseded == {}
    {
      this.current, this.maxResident := current, maxResident;
      generations, releasable := [Generation(current, 0)], [];
      leases, superseded := multiset{}, {};
      new;
      assert generations[0].model == current;
      forall m | m != current
        ensures !Unused(generations, m)
      {
      }
    }

    method Find(m: Model) returns (k: nat)
      ensures k <= |generations| && (k < |generations| ==> generations[k].model == m)
      ensures k == |generations| <==> !Resident(generations, m)
    {
      k := 0;
      while k < |generations| && generations[k].model != m
        invariant k <= |generations| && forall i :: 0 <= i < k ==> generations[i].model != m
      {
        k := k + 1;
      }
    }

    /** `acquire_current`: a lease on the current generation. */
    method AcquireCurrent() returns (model: Model)
      requires Valid()
      modifies this`generations, this`leases
      ensures Valid() && model == current && leases == old(leases) + multiset{current}
    {
      hide Consistent;
      ConsistentResident(current, generations, releasable, leases);
      var k := Find(current);
      UserAdded(current, generations, releasable, leases, k);
      model := current;
      ResidentSame(generations, generations[k := Generation(model, generations[k].users + 1)]);
      generations := generations[k := Generation(model, generations[k].users + 1)];
      leases := leases + multiset{model};
    }

    /** Dropping a lease; the last one of a superseded generation queues it for release. */
    method Drop(model: Model)
      requires Valid() && model in leases
      modifies this`generations, this`releasable, this`leases
      ensures Valid() && leases == old(leases) - multiset{model}
      ensures releasable == if model != current && model !in leases then old(releasable) + [model] else old(releasable)
    {
      hide Consistent;
      LeasedResident(current, generations, releasable, leases, model);
      var k := Find(model);
      UserDropped(current, generations, releasable, leases, k);
      var users := generations[k].users - 1;
      ResidentSame(generations, generations[k := Generation(model, users)]);
      generations := generations[k := Generation(model, users)];
      if users == 0 && current != model {
        if model !in releasable {
          releasable := releasable + [model];
        }
      }
      leases := leases - multiset{model};
    }

    /** Some resident generation has this id under another version, or this version under another id. */
    method Clashes(model: Model) returns (error: Option<LeaseError>)
      ensures error.None? <==> Fits(generations, model)
    {
      for k := 0 to |generations|
        invariant forall i :: 0 <= i < k ==>
                  !(generations[i].model.id == model.id && generations[i].model.version != model.version)
      {
        if generations[k].model.id == model.id && generations[k].model.version != model.version {
          return Some(IdChangedVersion);
        }
      }
      for k := 0 to |generations|
        invariant forall i :: 0 <= i < k ==>
                  !(generations[i].model.version == model.version && generations[i].model.id != model.id)
      {
        if generations[k].model.version == model.version && generations[k].model.id != model.id {
          return Some(VersionHasTwoIds);
        }
      }
      error := None;
    }

    /**
     * `publish`. A refusal changes nothing. After a success the registry is consistent exactly when the
     * published generation was not waiting for release; one that was never superseded never is.
     */
    method Publish(model: Model) returns (error: Option<LeaseError>)
      requires Valid()
      modifies this`current, this`generations, this`releasable, this`superseded
      ensures error.Some? ==>
              Valid() && current == old(current) && generations == old(generations) && releasable == old(releasable)
      ensures error.None? ==> current == model && |generations| <= maxResident
      ensures error.None? ==> (Valid() <==> model !in old(releasable))
      ensures model !in old(superseded) ==> Valid()
      ensures superseded == if error.None? && model != old(current) then old(superseded) + {old(current)}
              else old(superseded)
    {
      hide Consistent;
      NotReleasable(current, generations, releasable, leases, current);
      NotReleasable(current, generations, releasable, leases, model);
      if model.id == 0 {
        return Some(ZeroGeneration);
      }
      if current == model {
        return None;
      }
      error := Clashes(model);
      if error.Some? {
        return;
      }
      PublishBoundary(current, generations, releasable, leases, model);
      ResidentAfter(generations, model);
      ConsistentResident(current, generations, releasable, leases);
      WithModelDistinct(generations, model);
      var k := Find(model);
      if k == |generations| {
        if |generations| >= maxResident {
          return Some(TooManyResident);
        }
        generations := generations + [Generation(model, 0)];
      }
      var previous := current;
      current := model;
      superseded := superseded + {previous};
      var p := Find(previous);
      PreviousAt(generations, previous, p);
      if p < |generations| && generations[p].users == 0 {
        if previous !in releasable {
          releasable := releasable + [previous];
        }
      }
    }

    /** `take_releasable`: what is handed over is neither current nor leased, and is no longer resident. */
    method TakeReleasable() returns (models: seq<Model>)
      requires Valid()
      modifies this`generations, this`releasable
      ensures Valid() && models == old(releasable) && releasable == []
      ensures forall m :: m in models ==> m != current && m !in leases && !Resident(generations, m)
      ensures forall m :: Resident(generations, m) <==> m == current || m in leases
    {
      hide Consistent;
      ReleaseConsistent(current, generations, releasable, leases);
      RetainedDistinctOf(current, generations, releasable, leases);
      models := releasable;
      releasable := [];
      generations := Retained(generations, models);
      forall m
        ensures Resident(generations, m) <==> m == current || m in leases
      {
        ResidentExactly(current, generations, [], leases, m);
      }
    }
  }

  lemma ConsistentResident(current: Model, generations: seq<Generation>, releasable: seq<Model>,
                           leases: multiset<Model>)
    requires Consistent(current, generations, releasable, leases)
    ensures Resident(generations, current) && DistinctModels(generations)
  {
  }

  lemma LeasedResident(current: Model, generations: seq<Generation>, releasable: seq<Model>, leases: multiset<Model>,
                       m: Model)
    requires Consistent(current, generations, releasable, leases) && m in leases
    ensures Resident(generations, m)
  {
  }

  lemma NotReleasable(current: Model, generations: seq<Generation>, releasable: seq<Model>, leases: multiset<Model>,
                      m: Model)
    requires Consistent(current, generations, releasable, leases)
    ensures m in releasable ==> m != current && Resident(generations, m)
  {
    ResidentExactly(current, generations, releasable, leases, m);
  }

  lemma ResidentAfter(generations: seq<Generation>, model: Model)
    ensures forall m :: Resident(WithModel(generations, model), m) ==> m == model || Resident(generations, m)
  {
    forall m | Resident(WithModel(generations, model), m) && m != model
      ensures Resident(generations, m)
    {
      var after := WithModel(generations, model);
      var k :| 0 <= k < |after| && after[k].model == m;
      assert generations[k].model == m;
    }
  }

  lemma PreviousAt(generations: seq<Generation>, previous: Model, p: nat)
    requires DistinctModels(generations) && p <= |generations|
             && (p < |generations| ==> generations[p].model == previous)
    requires p == |generations| <==> !Resident(generations, previous)
    ensures Unused(generations, previous) <==> p < |generations| && generations[p].users == 0
  {
    if p < |generations| {
      UnusedOnlyAt(generations, p);
    }
  }

  lemma RetainedDistinctOf(current: Model, generations: seq<Generation>, releasable: seq<Model>,
                           leases: multiset<Model>)
    requires Consistent(current, generations, releasable, leases)
    ensures |Retained(generations, releasable)| <= |generations|
    ensures forall m :: Resident(Retained(generations, releasable), m) ==> Resident(generations, m)
  {
    RetainedDistinct(generations, releasable);
    forall m | Resident(Retained(generations, releasable), m)
      ensures Resident(generations, m)
    {
      ResidentIn(generations, m);
      ResidentIn(Retained(generations, releasable), m);
    }
  }

  // ---- what goes wrong on the other side of the boundary -----------------------------------

  /** Publishing a generation that is waiting for release: the next release takes the current generation away. */
  lemma PublishQueuedLosesCurrent(
    current: Model, generations: seq<Generation>, releasable: seq<Model>, leases: multiset<Model>, model: Model)
    requires Consistent(current, generations, releasable, leases) && model in releasable
    ensures model != current && Fits(generations, model)
    ensures var after := WithModel(generations, model);
            !Resident(Retained(after, Queued(after, releasable, current)), model)
  {
    NotReleasable(current, generations, releasable, leases, model);
    var after := WithModel(generations, model);
    var queue := Queued(after, releasable, current);
    assert model in queue;
    hide Retained, Unused;
    ResidentIn(Retained(after, queue), model);
    var k :| 0 <= k < |generations| && generations[k].model == model;
    forall i | 0 <= i < |generations|
      ensures generations[i].model.id == model.id <==> generations[i].model.version == model.version
    {
      if i != k { assert generations[i].model.id != model.id && generations[i].model.version != model.version; }
    }
  }

  /**
   * An episode that takes the new current generation in the meantime does not prevent it: its lease is on
   * record, the generation is on the queue, and the release hands it over.
   */
  lemma PublishQueuedLosesLease(
    current: Model, generations: seq<Generation>, releasable: seq<Model>, leases: multiset<Model>, model: Model, k: nat)
    requires Consistent(current, generations, releasable, leases) && model in releasable
    requires k < |generations| && generations[k].model == model
    ensures WithModel(generations, model) == generations
    ensures var queue := Queued(generations, releasable, current);
            var acquired := generations[k := Generation(model, generations[k].users + 1)];
            && UsersExact(acquired, leases + multiset{model}) && acquired[k].users == 1
            && model in queue && !Resident(Retained(acquired, queue), model)
  {
    hide Retained, Unused, Resident, UsersExact, DistinctModels;
    var queue := Queued(generations, releasable, current);
    var acquired := generations[k := Generation(model, generations[k].users + 1)];
    ResidentAt(generations, k);
    OneMoreUser(generations, leases, k);
    UnusedOnlyAt(generations, k);
    ResidentIn(Retained(acquired, queue), model);
  }

  /** Such a state is reached by publishing twice. */
  lemma SupersededIsQueued()
    ensures var first, second := Model(1, 1), Model(2, 2);
            var start := [Generation(first, 0)];
            var after := WithModel(start, second);
            && Consistent(first, start, [], multiset{})
            && Consistent(second, after, Queued(after, [], first), multiset{})
            && first in Queued(after, [], first)
  {
    var first, second := Model(1, 1), Model(2, 2);
    var start := [Generation(first, 0)];
    assert start[0].model == first && start[0] == Generation(first, 0);
    PublishBoundary(first, start, [], multiset{}, second);
    var after := WithModel(start, second);
    assert after[0] == Generation(first, 0);
  }

  // ---- episodes ----------------------------------------------------------------------------

  type EpisodeId = nat

  /** The generations the episodes hold, with multiplicity. */
  ghost function HeldBy(episodes: map<EpisodeId, Model>): multiset<Model>
  {
    if episodes == map[] then multiset{}
    else
      var e :| e in episodes;
      multiset{episodes[e]} + HeldBy(episodes - {e})
  }

  lemma SomeHolder(episodes: map<EpisodeId, Model>) returns (e: EpisodeId)
    requires episodes != map[]
    ensures e in episodes && HeldBy(episodes) == HeldBy(episodes - {e}) + multiset{episodes[e]}
  {
    e :| e in episodes && HeldBy(episodes) == multiset{episodes[e]} + HeldBy(episodes - {e});
  }

  /** Taking one holder out of two, in either order. */
  lemma HeldByTwo(episodes: map<EpisodeId, Model>, e: EpisodeId, id: EpisodeId)
    requires e in episodes && id in episodes && e != id
    requires HeldBy(episodes) == HeldBy(episodes - {e}) + multiset{episodes[e]}
    requires HeldBy(episodes - {e}) == HeldBy(episodes - {e} - {id}) + multiset{episodes[id]}
    requires HeldBy(episodes - {id}) == HeldBy(episodes - {id} - {e}) + multiset{episodes[e]}
    ensures HeldBy(episodes) == HeldBy(episodes - {id}) + multiset{episodes[id]}
  {
    hide HeldBy;
    assert episodes - {e} - {id} == episodes - {id} - {e};
  }

  lemma {:induction false} HeldByWithout(episodes: map<EpisodeId, Model>, id: EpisodeId)
    requires id in episodes
    ensures HeldBy(episodes) == HeldBy(episodes - {id}) + multiset{episodes[id]}
    decreases |episodes|
  {
    hide HeldBy;
    var e := SomeHolder(episodes);
    if e != id {
      var without, withoutId := episodes - {e}, episodes - {id};
      assert id in without && without[id] == episodes[id] && |without| < |episodes|;
      assert e in withoutId && withoutId[e] == episodes[e] && |withoutId| < |episodes|;
      HeldByWithout(without, id);
      HeldByWithout(withoutId, e);
      HeldByTwo(episodes, e, id);
    }
  }

  class EpisodeModelLeases {
    const registry: ModelLeaseRegistry
    var episodes: map<EpisodeId, Model>

    /** Each episode's lease is live; other holders may have more. */
    ghost predicate Valid()
      reads this, registry
    {
      registry.Valid() && HeldBy(episodes) <= registry.leases
    }

    constructor (registry: ModelLeaseRegistry)
      requires registry.Valid()
      ensures Valid() && this.registry == registry && episodes == map[]
    {
      this.registry, episodes := registry, map[];
    }

    /** In a consistent registry an episode's generation is resident and not waiting for release. */
    lemma EpisodeKeepsModel(id: EpisodeId)
      requires Valid() && id in episodes
      ensures Resident(registry.generations, episodes[id]) && episodes[id] !in registry.releasable
    {
      hide Consistent, Resident;
      HeldByWithout(episodes, id);
      ResidentExactly(registry.current, registry.generations, registry.releasable, registry.leases, episodes[id]);
    }

    /** `ensure`: the episode's own generation, or the current one on first use. */
    method Ensure(id: EpisodeId) returns (model: Model)
      requires Valid()
      modifies this`episodes, registry`generations, registry`leases
      ensures Valid() && model == if id in old(episodes) then old(episodes)[id] else registry.current
      ensures episodes == old(episodes)[id := model]
    {
      hide HeldBy;
      if id in episodes {
        assert episodes == episodes[id := episodes[id]];
        return episodes[id];
      }
      model := registry.AcquireCurrent();
      HeldByWithout(episodes[id := model], id);
      assert episodes[id := model] - {id} == episodes;
      episodes := episodes[id := model];
    }

    /** `release`: the episode's lease ends. */
    method Release(id: EpisodeId)
      requires Valid()
      modifies this`episodes, registry`generations, registry`releasable, registry`leases
      ensures Valid() && episodes == old(episodes) - {id}
    {
      if id in episodes {
        HeldByWithout(episodes, id);
        var model := episodes[id];
        assert model in HeldBy(episodes);
        episodes := episodes - {id};
        registry.Drop(model);
      } else {
        assert episodes == episodes - {id};
      }
    }
  }
}

/** The random graph generator: a truth-table seed followed by a prewalk of rewrites. */
module Generator {
  import opened Basics
  import opened Graphs
  import opened Semantics
  import opened Compaction
  import opened Rules
  import RewriteLoop
  import opened Enumeration
  import EnumerationLoop
  import opened EnumeratedRewrites
  import opened Attempts
  import Inverses
  import UndoOffered
  import opened TruthTable
  import opened GraphArenas
  import opened CandidateArenas
  import opened EngineState
  import opened Engines

  function Lesser(a: nat, b: nat): nat { if a <= b then a else b }

  datatype GeneratorConfig = GeneratorConfig(
    arity: u16, capacity: u16,
    exceptionTermsMin: u16, exceptionTermsMax: u16,
    prewalkStepsMin: u16, prewalkStepsMax: u16)
  {
    function Validate(): (error: Option<GeneratorError>)
      ensures error.None? <==>
              && 1 <= arity <= 16 && arity < capacity && prewalkStepsMin <= prewalkStepsMax
              && exceptionTermsMin <= exceptionTermsMax && 1 <= exceptionTermsMax
    {
      if arity == 0 then Some(ZeroArity)
      else if arity > 16 then Some(ArityTooLarge)
      else if capacity < arity + 1 then Some(CapacityTooSmall)
      else if exceptionTermsMin > exceptionTermsMax then Some(InvalidExceptionTermRange)
      else if exceptionTermsMax == 0 then Some(ZeroExceptionTerms)
      else if prewalkStepsMin > prewalkStepsMax then Some(InvalidPrewalkRange)
      else None
    }

    /** How many rows are drawn: at most half the table, and at least the minimum unless that is more. */
    function MaxTerms(): (n: nat)
      ensures n <= exceptionTermsMax && 2 * n <= Pow2(arity) && (n == exceptionTermsMax || 2 * (n + 1) > Pow2(arity))
    {
      Lesser(exceptionTermsMax, Pow2(arity) / 2)
    }

    function MinTerms(): (n: nat)
      ensures n <= exceptionTermsMin && n <= MaxTerms() && (n == exceptionTermsMin || n == MaxTerms())
    {
      Lesser(exceptionTermsMin, MaxTerms())
    }
  }

  /** The rule number that may not follow `last`. */
  function Blocked(last: Option<u16>): Option<u16>
  {
    if last.Some? && FromU16(last.value).Some? then Some(AsU16(InverseRule(FromU16(last.value).value))) else None
  }

  /** The candidates that do not use the blocked rule. */
  function Eligible(candidates: seq<RawCandidate>, blocked: Option<u16>): (r: seq<RawCandidate>)
    ensures forall c :: c in r <==> c in candidates && Some(c.ruleId) != blocked
  {
    if candidates == [] then []
    else
      var rest := Eligible(candidates[1..], blocked);
      if Some(candidates[0].ruleId) != blocked then [candidates[0]] + rest else rest
  }

  /** `choose_prewalk_candidate`: the weights only shape the random pick among the eligible candidates. */
  function Choose(candidates: seq<RawCandidate>, blocked: Option<u16>, pick: nat): (r: Option<RawCandidate>)
    ensures r.None? <==> forall c :: c in candidates ==> Some(c.ruleId) == blocked
    ensures r.Some? ==> r.value in candidates && Some(r.value.ruleId) != blocked
  {
    var eligible := Eligible(candidates, blocked);
    if eligible == [] then
      assert forall c :: c !in eligible;
      None
    else
      assert eligible[pick % |eligible|] in eligible;
      Some(eligible[pick % |eligible|])
  }

  // ---- what a prewalk is -------------------------------------------------------------------

  ghost predicate WalkStep(g: GraphBody, c: RawCandidate, h: GraphBody)
    requires g.Shaped()
  {
    c in Enumerated(g, true, None) && Apply(g, c) == Ok(h)
  }

  /** Each graph is the previous one after one of its own candidates. */
  ghost predicate Walk(bodies: seq<GraphBody>, choices: seq<RawCandidate>)
  {
    && |bodies| == |choices| + 1
    && (forall k :: 0 <= k < |bodies| ==> WellFormed(bodies[k]) && Compact(bodies[k]) == Ok(bodies[k]))
    && forall k :: 0 <= k < |choices| ==> WalkStep(bodies[k], choices[k], bodies[k + 1])
  }

  ghost predicate SafeWalk(bodies: seq<GraphBody>, choices: seq<RawCandidate>)
    requires Walk(bodies, choices)
  {
    forall k :: 0 <= k < |choices| ==> SafeCandidate(bodies[k], choices[k])
  }

  /** No step is immediately undone by the inverse rule. */
  ghost predicate NeverUndoes(choices: seq<RawCandidate>)
  {
    forall k :: 1 <= k < |choices| ==> Some(choices[k].ruleId) != Blocked(Some(choices[k - 1].ruleId))
  }

  function LastRule(choices: seq<RawCandidate>): Option<u16>
  {
    if choices == [] then None else Some(choices[|choices| - 1].ruleId)
  }

  /** Safe walks keep the function of the seed. */
  lemma WalkKeepsFunction(bodies: seq<GraphBody>, choices: seq<RawCandidate>)
    requires Walk(bodies, choices) && SafeWalk(bodies, choices) && Acyclic(bodies[0])
    ensures Acyclic(bodies[|choices|]) && bodies[|choices|].arity == bodies[0].arity
    ensures forall x :: Evaluate(bodies[|choices|], x) == Evaluate(bodies[0], x)
  {
    hide Enumerated, Apply, SafeCandidate, Compact;
    forall k | 0 <= k < |bodies| - 1
      ensures RewriteStep(bodies[k], bodies[k + 1], true)
    {
      assert WalkStep(bodies[k], choices[k], bodies[k + 1]);
    }
    RunPreservesFunction(bodies, true);
  }

  /**
   * The blocked rule is the one that would undo the last step: after a reversible step at a node the output depends
   * on, it has an instance in the next graph, and the walk does not take it there.
   */
  lemma StepNotUndone(bodies: seq<GraphBody>, choices: seq<RawCandidate>, k: nat, a: Attempt)
    returns (at: u32, back: seq<u32>)
    requires Walk(bodies, choices) && NeverUndoes(choices) && k < |choices|
    requires |a.rest| < MAX_MATCHED && choices[k] == CandidateOf(a)
    requires Acyclic(bodies[k]) && Live(bodies[k], a.root) && a.root != bodies[k].outputNode
    requires Inverses.Reversible(a.rule, a.root, a.rest) && !UndoOffered.FoldsAway(a.rule)
    ensures Instance(bodies[k + 1], InverseRule(a.rule), at, back)
    ensures k + 1 < |choices| ==> FromU16(choices[k + 1].ruleId) != Some(InverseRule(a.rule))
  {
    hide Enumerated, Apply, Instance, Compact, InverseRule;
    assert WalkStep(bodies[k], choices[k], bodies[k + 1]);
    EnumerationExact(bodies[k], true, a);
    at, back := UndoOffered.UndoIsOffered(bodies[k], a.rule, a.root, a.rest);
    if k + 1 < |choices| && FromU16(choices[k + 1].ruleId) == Some(InverseRule(a.rule)) {
      NumbersAreRules(choices[k + 1].ruleId, InverseRule(a.rule));
    }
  }

  lemma NumbersAreRules(id: u16, rule: RuleId)
    requires FromU16(id) == Some(rule)
    ensures id == AsU16(rule)
  {
  }

  lemma WalkGrows(bodies: seq<GraphBody>, choices: seq<RawCandidate>, c: RawCandidate, h: GraphBody)
    requires Walk(bodies, choices) && WalkStep(bodies[|choices|], c, h) && WellFormed(h) && Compact(h) == Ok(h)
    ensures Walk(bodies + [h], choices + [c])
  {
    hide Enumerated, Apply, Compact;
  }

  /** The handles in `created` hold the graphs in `bodies`. */
  ghost predicate Hold(items: seq<Option<Stored>>, created: seq<u32>, bodies: seq<GraphBody>)
  {
    && |created| == |bodies|
    && forall k :: 0 <= k < |bodies| ==> Occupied(items, created[k]) && items[created[k]].value.body == bodies[k]
  }

  lemma {:induction false} HashesStable(before: seq<Option<Stored>>, after: seq<Option<Stored>>, ids: seq<u32>)
    requires Stable(before, after) && forall k :: 0 <= k < |ids| ==> Occupied(before, ids[k])
    ensures HashesOf(after, ids) == HashesOf(before, ids)
  {
    if ids != [] { HashesStable(before, after, ids[..|ids| - 1]); }
  }

  /** One more created graph. */
  lemma CreatedGrows(
    before: seq<Option<Stored>>, after: seq<Option<Stored>>, created: seq<u32>, bodies: seq<GraphBody>, id: u32,
      h: GraphBody)
    requires Hold(before, created, bodies) && Stable(before, after) && Occupied(after, id) && after[id].value.body == h
    ensures Hold(after, created + [id], bodies + [h])
    ensures HashesOf(after, created + [id]) == HashesOf(before, created) + multiset{after[id].value.hash}
  {
    hide HashesOf;
    HashesStable(before, after, created);
    assert (created + [id])[..|created|] == created && (created + [id])[..|created| + 1] == created + [id];
    HashesStep(after, created + [id], |created|);
  }

  lemma Grouping<T>(a: multiset<T>, b: multiset<T>, c: multiset<T>)
    ensures (a + b) + c == a + (b + c)
  {
  }

  lemma UndoesNotNow(choices: seq<RawCandidate>, c: RawCandidate)
    requires NeverUndoes(choices) && Some(c.ruleId) != Blocked(LastRule(choices))
    ensures NeverUndoes(choices + [c]) && LastRule(choices + [c]) == Some(c.ruleId)
  {
    hide Blocked;
  }

  lemma StartOfWalk(seed: GraphBody)
    requires WellFormed(seed) && Compact(seed) == Ok(seed)
    ensures Walk([seed], []) && NeverUndoes([]) && LastRule([]) == None
  {
    hide Compact;
  }

  /** One prewalk step: enumerate, choose, rewrite, store. */
  method Advance(engine: WhittleEngine, body: GraphBody, blocked: Option<u16>, pick: nat)
    returns (r: Result<Option<(u32, GraphBody, RawCandidate)>, GraphError>)
    requires engine.graphs.Valid() && WellFormed(body) && engine.graphs.HasSlot()
    modifies engine.graphs
    ensures engine.graphs.Valid() && Stable(old(engine.graphs.items), engine.graphs.items)
    ensures |engine.graphs.items| <= |old(engine.graphs.items)| + 1
    ensures r.Ok? && r.value.None? ==>
              && (forall c :: c in Enumerated(body, true, None) ==> Some(c.ruleId) == blocked)
              && engine.graphs.granted == old(engine.graphs.granted) && engine.graphs.items == old(engine.graphs.items)
    ensures r.Ok? && r.value.Some? ==>
              var (id, after, choice) := r.value.value;
              && WalkStep(body, choice, after) && Some(choice.ruleId) != blocked
              && WellFormed(after) && Compact(after) == Ok(after)
              && Occupied(engine.graphs.items, id) && engine.graphs.items[id].value.body == after
              && engine.graphs.granted == old(engine.graphs.granted) + multiset{engine.graphs.items[id].value.hash}
    ensures r.Err? ==> r.error == InvalidInput("graph refcount overflow")
  {
    hide Enumerated, Apply, SlotsCanonical, SlotsIndexed, FreeExact, RefsExact, HashesOf, HashOf, Compact;
    var enumerated := EnumerationLoop.EnumerateGraphLimited(body, true, None);
    var choice := Choose(enumerated.value, blocked, pick);
    if choice.None? {
      return Ok(None);
    }
    EnumeratedApplies(body, true, None, choice.value);
    ApplyIsCompact(body, choice.value);
    var rewritten := RewriteLoop.ApplyGraph(body, choice.value);
    var inserted := engine.graphs.Insert(rewritten.value);
    if inserted.Err? {
      return Err(inserted.error);
    }
    r := Ok(Some((inserted.value, rewritten.value, choice.value)));
  }

  /** The prewalk loop. Only a saturated reference count can stop it early with an error. */
  method Prewalk(engine: WhittleEngine, seedId: u32, seed: GraphBody, picks: seq<nat>, ghost base: multiset<GraphHash>)
    returns (r: Result<seq<u32>, GraphError>, ghost bodies: seq<GraphBody>, ghost choices: seq<RawCandidate>)
    requires engine.graphs.Valid() && WellFormed(seed) && Compact(seed) == Ok(seed)
    requires Occupied(engine.graphs.items, seedId) && engine.graphs.items[seedId].value.body == seed
    requires engine.graphs.granted == base + HashesOf(engine.graphs.items, [seedId])
    requires |engine.graphs.items| + |picks| <= SLOT_LIMIT
    modifies engine.graphs
    ensures engine.graphs.Valid() && Stable(old(engine.graphs.items), engine.graphs.items)
    ensures Walk(bodies, choices) && bodies[0] == seed && NeverUndoes(choices) && |choices| <= |picks|
    ensures r.Ok? ==>
              && Hold(engine.graphs.items, r.value, bodies) && r.value[0] == seedId
              && engine.graphs.granted == base + HashesOf(engine.graphs.items, r.value)
    ensures r.Ok? && |choices| < |picks| ==>
              forall c :: c in Enumerated(bodies[|choices|], true, None) ==>
                Some(c.ruleId) == Blocked(LastRule(choices))
    ensures r.Err? ==> r.error == InvalidInput("graph refcount overflow")
  {
    hide Enumerated, Apply, SlotsCanonical, SlotsIndexed, FreeExact, RefsExact, HashesOf, HashOf, Compact, Validate,
      NeverUndoes, Blocked, LastRule, WalkStep;
    var created, body := [seedId], seed;
    bodies, choices := [seed], [];
    StartOfWalk(seed);
    var last: Option<u16> := None;
    for k := 0 to |picks|
      invariant engine.graphs.Valid() && Stable(old(engine.graphs.items), engine.graphs.items)
      invariant |engine.graphs.items| <= |old(engine.graphs.items)| + k
      invariant Walk(bodies, choices) && bodies[0] == seed && NeverUndoes(choices)
      invariant |choices| == k && body == bodies[k] && last == LastRule(choices)
      invariant Hold(engine.graphs.items, created, bodies) && created[0] == seedId
      invariant engine.graphs.granted == base + HashesOf(engine.graphs.items, created)
    {
      ghost var items := engine.graphs.items;
      var step := Advance(engine, body, Blocked(last), picks[k]);
      if step.Err? {
        return Err(step.error), bodies, choices;
      }
      if step.value.None? {
        return Ok(created), bodies, choices;
      }
      var (id, after, choice) := step.value.value;
      WalkGrows(bodies, choices, choice, after);
      CreatedGrows(items, engine.graphs.items, created, bodies, id, after);
      Grouping(base, HashesOf(items, created), multiset{engine.graphs.items[id].value.hash});
      UndoesNotNow(choices, choice);
      body := after;
      created := created + [id];
      last := Some(choice.ruleId);
      bodies, choices := bodies + [body], choices + [choice];
    }
    r := Ok(created);
  }

  datatype SampleError = BadConfig(error: GeneratorError) | Store(graphError: GraphError) | NoRowsPanic

  /** The rows the generator may select: distinct, in range, and as many as the configuration allows. */
  ghost predicate Rows(config: GeneratorConfig, selected: seq<nat>)
  {
    && config.MinTerms() <= |selected| <= config.MaxTerms()
    && (forall i, j :: 0 <= i < j < |selected| ==> selected[i] != selected[j])
    && forall i :: 0 <= i < |selected| ==> selected[i] < Pow2(config.arity)
  }

  /**
   * A valid configuration may draw no row at all, on which the generator panics, if and only if its minimum
   * is zero: half a table is never empty, so a positive minimum is a positive number of rows.
   */
  lemma MayDrawNoRow(config: GeneratorConfig)
    requires config.Validate().None?
    ensures Rows(config, []) <==> config.exceptionTermsMin == 0
    ensures config.exceptionTermsMin > 0 ==> forall selected :: Rows(config, selected) ==> selected != []
  {
    assert Pow2(config.arity) == 2 * Pow2(config.arity - 1);
  }

  /** Such a configuration passes validation. */
  lemma ZeroRowsValid()
    ensures var config := GeneratorConfig(6, 256, 0, 7, 4, 64);
            config.Validate().None? && Rows(config, [])
  {
    var config := GeneratorConfig(6, 256, 0, 7, 4, 64);
    MayDrawNoRow(config);
  }

  /** Store the seed, with one reference. */
  method StoreSeed(engine: WhittleEngine, seed: GraphBody) returns (r: Result<u32, GraphError>)
    requires engine.Valid() && engine.graphs.HasSlot() && WellFormed(seed) && Compact(seed) == Ok(seed)
    modifies engine.graphs
    ensures engine.Valid() && Stable(old(engine.graphs.items), engine.graphs.items)
    ensures |engine.graphs.items| <= |old(engine.graphs.items)| + 1
    ensures r.Err? ==> r.error == InvalidInput("graph refcount overflow")
    ensures r.Ok? ==>
              && Occupied(engine.graphs.items, r.value) && engine.graphs.items[r.value].value.body == seed
              && engine.graphs.granted == old(engine.graphs.granted) + HashesOf(engine.graphs.items, [r.value])
  {
    hide Enumerated, SlotsCanonical, SlotsIndexed, FreeExact, RefsExact, HashOf, Compact, EntriesGenuine, CacheOk,
      TransitionsOk, Located, BatchesCounted, HashesOf;
    r := engine.graphs.Insert(seed);
    if r.Ok? {
      HashesNone(engine.graphs.items);
      HashesStep(engine.graphs.items, [r.value], 0);
      assert [r.value][..0] == [] && [r.value][..1] == [r.value];
      assert multiset{} + multiset{HashOf(seed)} == multiset{HashOf(seed)};
    }
  }

  /**
   * `sample_with_created_graphs`, for any rows, polarity and picks the random source may supply: every created
   * handle holds its graph of the walk, with one reference each, and when the walk is safe the final
   * stored graph computes the selected truth table.
   */
  method Sample(engine: WhittleEngine, config: GeneratorConfig, selected: seq<nat>, exceptionsAreTrue: bool,
                picks: seq<nat>)
    returns (r: Result<seq<u32>, SampleError>, ghost bodies: seq<GraphBody>, ghost choices: seq<RawCandidate>)
    requires engine.Valid()
    requires config.Validate().None? ==>
               Rows(config, selected) && config.prewalkStepsMin <= |picks| <= config.prewalkStepsMax
    requires |engine.graphs.items| + |picks| < SLOT_LIMIT
    modifies engine.graphs
    ensures engine.Valid() && Stable(old(engine.graphs.items), engine.graphs.items)
    ensures config.Validate().Some? ==> r == Err(BadConfig(config.Validate().value))
    ensures r == Err(NoRowsPanic) <==> config.Validate().None? && selected == []
    ensures r == Err(BadConfig(SeedGraphExceedsCapacity)) <==>
              && config.Validate().None? && selected != []
              && SeedSize(config.arity, selected, exceptionsAreTrue) > config.capacity
    ensures r.Err? && r.error.Store? ==> r.error.graphError == InvalidInput("graph refcount overflow")
    ensures r.Ok? ==>
              && Walk(bodies, choices) && NeverUndoes(choices) && |choices| <= |picks|
              && Hold(engine.graphs.items, r.value, bodies)
              && engine.graphs.granted == old(engine.graphs.granted) + HashesOf(engine.graphs.items, r.value)
              && bodies[0].arity == config.arity && bodies[0].capacity == config.capacity && Acyclic(bodies[0])
              && (forall x :: Evaluate(bodies[0], x) == Table(x, selected, config.arity, exceptionsAreTrue))
    ensures r.Ok? && SafeWalk(bodies, choices) ==>
              && Acyclic(bodies[|choices|])
              && forall x :: Evaluate(bodies[|choices|], x) == Table(x, selected, config.arity, exceptionsAreTrue)
  {
    hide Enumerated, Apply, SlotsCanonical, SlotsIndexed, FreeExact, RefsExact, HashOf, Compact, Evaluate, Acyclic,
      Table,
      SafeCandidate, Walk, SafeWalk, NeverUndoes, EntriesGenuine, CacheOk, TransitionsOk, Located, BatchesCounted;
    bodies, choices := [], [];
    var invalid := config.Validate();
    if invalid.Some? {
      r := Err(BadConfig(invalid.value));
      return;
    }
    var seeded := TruthTableSeed(config.arity, config.capacity, selected, exceptionsAreTrue);
    if seeded.Err? {
      r := Err(if seeded.error.Panicked? then NoRowsPanic else BadConfig(seeded.error.error));
      return;
    }
    var seed := seeded.value;
    var inserted := StoreSeed(engine, seed);
    if inserted.Err? {
      r := Err(Store(inserted.error));
      return;
    }
    var id := inserted.value;
    var created;
    created, bodies, choices := Prewalk(engine, id, seed, picks, old(engine.graphs.granted));
    if created.Err? {
      r := Err(Store(created.error));
      return;
    }
    if SafeWalk(bodies, choices) {
      WalkKeepsFunction(bodies, choices);
    }
    r := Ok(created.value);
  }

  /** The handles before the last one account for every created reference but the last. */
  lemma IntermediatesCovered(
    items: seq<Option<Stored>>, base: multiset<GraphHash>, granted: multiset<GraphHash>, root: u32, created: seq<u32>)
    requires |created| > 0 && forall k :: 0 <= k < |created| ==> Occupied(items, created[k])
    requires Occupied(items, root) && items[root].value.hash in base
    requires granted == base + HashesOf(items, created)
    ensures var last := created[|created| - 1];
            && granted == base + multiset{items[last].value.hash} + HashesOf(items, created[..|created| - 1])
            && Covered(items, granted, root, created[..|created| - 1])
  {
    var n := |created| - 1;
    HashesStep(items, created, n);
    assert created[..n + 1] == created;
    var kept := base + multiset{items[created[n]].value.hash};
    assert granted == kept + HashesOf(items, created[..n]);
    AllReleased(items, granted, kept, root, created[..n]);
  }

  /**
   * `sample_root_into`: only the final graph stays referenced, and when the walk was safe that stored
   * graph computes the selected truth table.
   */
  method SampleRoot(engine: WhittleEngine, config: GeneratorConfig, selected: seq<nat>, exceptionsAreTrue: bool,
                    picks: seq<nat>)
    returns (r: Result<u32, SampleError>, ghost bodies: seq<GraphBody>, ghost choices: seq<RawCandidate>)
    requires engine.Valid()
    requires config.Validate().None? ==>
               Rows(config, selected) && config.prewalkStepsMin <= |picks| <= config.prewalkStepsMax
    requires |engine.graphs.items| + |picks| < SLOT_LIMIT
    modifies engine`candidateCache, engine`transitions, engine.graphs, engine.candidates
    ensures engine.Valid()
    ensures r == Err(NoRowsPanic) <==> config.Validate().None? && selected == []
    ensures r.Ok? ==>
              && Walk(bodies, choices) && engine.Live(r.value) && engine.Body(r.value) == bodies[|choices|]
              && engine.graphs.granted == old(engine.graphs.granted) + multiset{engine.Hash(r.value)}
    ensures r.Ok? && SafeWalk(bodies, choices) ==>
              && Acyclic(engine.Body(r.value))
              && forall x :: Evaluate(engine.Body(r.value), x) == Table(x, selected, config.arity, exceptionsAreTrue)
  {
    hide Enumerated, Apply, SlotsCanonical, SlotsIndexed, FreeExact, RefsExact, HashOf, Compact, Evaluate, Acyclic,
      Table,
      SafeCandidate, SafeWalk, NeverUndoes, EntriesGenuine, CacheOk, TransitionsOk, Located, BatchesCounted,
      HashesOf, Covered, WalkStep, Rows;
    ghost var items0, granted0 := engine.graphs.items, engine.graphs.granted;
    engine.LiveIsGranted(engine.root);
    var sampled;
    sampled, bodies, choices := Sample(engine, config, selected, exceptionsAreTrue, picks);
    if sampled.Err? {
      r := Err(sampled.error);
      return;
    }
    var created := sampled.value;
    var last := created[|created| - 1];
    ghost var items, granted := engine.graphs.items, engine.graphs.granted;
    IntermediatesCovered(items, granted0, granted, engine.root, created);
    assert engine.CandidatesCovered([]);
    var released, given, _ := engine.Release(created[..|created| - 1], []);
    assert created[..|created| - 1][..given] == created[..|created| - 1];
    SameRest(engine.graphs.granted, granted0 + multiset{items[last].value.hash},
             HashesOf(items, created[..|created| - 1]));
    RemainingAt(items, engine.graphs.granted, engine.graphs.items, last);
    r := Ok(last);
  }

  lemma SameRest<T>(a: multiset<T>, b: multiset<T>, common: multiset<T>)
    requires a + common == b + common
    ensures a == b
  {
    assert a == (a + common) - common;
    assert b == (b + common) - common;
  }
}

/** The guarantees of `apply_graph`. */
module RewriteTheorems {
  import opened Basics
  import opened Graphs
  import opened Semantics
  import opened Compaction
  import opened Rules
  import opened RuleSoundness
  import opened Rewriting

  /** The graph a match produces before compaction. */
  ghost function RewrittenBy(g: GraphBody, rule: RuleId, root: u32, rest: seq<u32>): GraphBody
    requires g.Shaped() && |rest| < MAX_MATCHED
  {
    Rewritten(g, root, PlanOf(g, rule, root, rest))
  }

  lemma RewrittenNode(g: GraphBody, root: u32, plan: Plan, i: nat)
    requires g.Shaped() && Rewritten(g, root, plan).Shaped() && i < Rewritten(g, root, plan).Size()
    ensures var h := Rewritten(g, root, plan);
            && (i < g.Size() ==>
                  && h.op[i] == g.op[i]
                  && h.arg0[i] == (if g.op[i].UsesArg0() && g.arg0[i] == root then plan.result else g.arg0[i])
                  && h.arg1[i] == (if g.op[i].UsesArg1() && g.arg1[i] == root then plan.result else g.arg1[i]))
            && (i >= g.Size() ==> Gate(h.op[i], h.arg0[i], h.arg1[i]) == plan.gates[i - g.Size()])
  {
  }

  // ---- well-formedness ---------------------------------------------------------------------

  ghost predicate InRange(n: nat, root: nat, rest: seq<nat>)
  {
    root < n && forall k :: 0 <= k < |rest| ==> rest[k] < n
  }

  lemma RewrittenOperands(g: GraphBody, root: u32, rest: seq<u32>, plan: Plan, i: nat)
    requires WellFormed(g) && PlanFits(g.Size(), root, rest, plan) && InRange(g.Size(), root, rest)
    requires Rewritten(g, root, plan).Shaped() && i < Rewritten(g, root, plan).Size()
    ensures var h := Rewritten(g, root, plan);
            (h.op[i].UsesArg0() ==> h.arg0[i] < h.Size()) && (h.op[i].UsesArg1() ==> h.arg1[i] < h.Size())
  {
    RewrittenNode(g, root, plan, i);
    if i >= g.Size() {
      assert PlanGate(g.Size(), root, rest, plan.gates[i - g.Size()], i - g.Size());
    }
  }

  lemma RewrittenStaysWellFormed(g: GraphBody, root: u32, rest: seq<u32>, plan: Plan)
    requires WellFormed(g) && PlanFits(g.Size(), root, rest, plan) && InRange(g.Size(), root, rest)
    requires g.Size() + |plan.gates| <= g.capacity
    ensures WellFormed(Rewritten(g, root, plan))
  {
    var h := Rewritten(g, root, plan);
    forall i: nat | i < h.Size()
      ensures h.op[i].UsesArg0() ==> h.arg0[i] < h.Size()
      ensures h.op[i].UsesArg1() ==> h.arg1[i] < h.Size()
    {
      RewrittenOperands(g, root, rest, plan, i);
    }
    forall i | 0 <= i < h.arity
      ensures h.op[i] == Input && h.arg0[i] == i
    {
      RewrittenNode(g, root, plan, i);
    }
  }

  /** Rewriting a match keeps the graph valid and closed, as long as it fits the capacity. */
  lemma RewrittenWellFormed(g: GraphBody, rule: RuleId, root: u32, rest: seq<u32>)
    requires WellFormed(g) && Instance(g, rule, root, rest) && |rest| < MAX_MATCHED
    requires g.Size() + rule.ExtraNodes() <= g.capacity
    ensures WellFormed(RewrittenBy(g, rule, root, rest))
    ensures RewrittenBy(g, rule, root, rest).Size() == g.Size() + rule.ExtraNodes()
  {
    hide Instance, ReplacementPlan;
    PlanAppendsExtraNodes(rule, root, Candidate(rule, root, rest).matched, g.Size());
    PlanReadsMatch(g, rule, root, rest);
    InstanceInRange(g, rule, root, rest);
    RewrittenStaysWellFormed(g, root, rest, PlanOf(g, rule, root, rest));
  }

  lemma CandidateInRange(g: GraphBody, rule: RuleId, root: u32, rest: seq<u32>)
    requires |rest| < MAX_MATCHED && InRange(g.Size(), root, rest)
    ensures MatchInRange(g, Candidate(rule, root, rest))
  {
    var c := Candidate(rule, root, rest);
    forall k | 0 <= k < c.matchLen
      ensures c.matched[k] < g.Size()
    {
      if k > 0 { assert c.matched[k] == rest[k - 1]; }
    }
  }

  /** Every match that fits the capacity applies without an error and yields a well-formed graph. */
  lemma ApplySucceeds(g: GraphBody, rule: RuleId, root: u32, rest: seq<u32>)
    requires WellFormed(g) && Instance(g, rule, root, rest) && |rest| < MAX_MATCHED
    requires g.Size() + rule.ExtraNodes() <= g.capacity
    ensures var r := Apply(g, Candidate(rule, root, rest));
            && r.Ok? && WellFormed(r.value)
            && r.value.arity == g.arity && r.value.capacity == g.capacity
            && Compact(RewrittenBy(g, rule, root, rest)) == Ok(r.value)
  {
    hide Instance, ReplacementPlan, Rewritten;
    var h := RewrittenBy(g, rule, root, rest);
    RewrittenWellFormed(g, rule, root, rest);
    InstanceInRange(g, rule, root, rest);
    CandidateInRange(g, rule, root, rest);
    CompactSucceeds(h);
    CompactWellFormed(h);
  }

  // ---- acyclicity --------------------------------------------------------------------------

  ghost function TopRank(r: seq<nat>): (top: nat)
    ensures forall i :: 0 <= i < |r| ==> r[i] <= top
  {
    if r == [] then 0
    else
      var t := TopRank(r[..|r| - 1]);
      if r[|r| - 1] > t then r[|r| - 1] else t
  }

  /** None of the matched nodes depends on the root. */
  ghost predicate Independent(g: GraphBody, root: nat, rest: seq<nat>)
    requires g.Shaped()
  {
    forall c: nat :: c == root || c in rest ==> c < g.Size() && !StrictlyReaches(g, c, root)
  }

  /**
   * The rank of the rewritten graph: nodes that depend on the root move above the appended gates,
   * everything else stays where it was.
   */
  ghost function LiftedRank(g: GraphBody, r: seq<nat>, root: nat, extra: nat): seq<nat>
    requires g.Shaped() && |r| == g.Size()
  {
    var n := g.Size();
    var top := TopRank(r);
    seq(n + extra, i requires 0 <= i < n + extra =>
      if i >= n then top + 1 + (i - n)
      else if StrictlyReaches(g, i, root) then r[i] + top + extra + 1
      else r[i])
  }

  lemma OldNodeRanked(g: GraphBody, r: seq<nat>, root: u32, rest: seq<u32>, plan: Plan, i: nat, c: nat)
    requires g.Shaped() && IsRank(g, r) && Independent(g, root, rest) && PlanFits(g.Size(), root, rest, plan)
    requires g.Reads(i, c) && c < g.Size()
    ensures var q := LiftedRank(g, r, root, |plan.gates|);
            var d := if c == root then plan.result else c;
            d < |q| && q[d] < q[i]
  {
    ReadsLowersRank(g, r, i, c);
    if c == root {
      ReachesSelf(g, root);
      ReachesStep(g, i, root, root);
    } else if StrictlyReaches(g, c, root) {
      var d: nat :| g.Reads(c, d) && Reaches(g, d, root);
      ReachesStep(g, c, d, root);
      ReachesStep(g, i, c, root);
    }
  }

  lemma NewGateRanked(g: GraphBody, r: seq<nat>, root: u32, rest: seq<u32>, plan: Plan, k: nat, c: nat)
    requires g.Shaped() && IsRank(g, r) && Independent(g, root, rest)
    requires k < |plan.gates| && PlanRef(g.Size(), root, rest, c, k)
    ensures var q := LiftedRank(g, r, root, |plan.gates|);
            c < |q| && q[c] < q[g.Size() + k]
  {
    if c < g.Size() {
      assert r[c] <= TopRank(r);
    }
  }

  lemma LiftedRankRanks(g: GraphBody, r: seq<nat>, root: u32, rest: seq<u32>, plan: Plan)
    requires g.Shaped() && g.Closed() && IsRank(g, r)
    requires Independent(g, root, rest) && PlanFits(g.Size(), root, rest, plan)
    requires Rewritten(g, root, plan).Shaped()
    ensures IsRank(Rewritten(g, root, plan), LiftedRank(g, r, root, |plan.gates|))
  {
    var h := Rewritten(g, root, plan);
    var q := LiftedRank(g, r, root, |plan.gates|);
    forall i: nat | i < h.Size()
      ensures RankedAt(h, q, i)
    {
      RewrittenNode(g, root, plan, i);
      if i < g.Size() {
        if g.op[i].UsesArg0() { OldNodeRanked(g, r, root, rest, plan, i, g.arg0[i]); }
        if g.op[i].UsesArg1() { OldNodeRanked(g, r, root, rest, plan, i, g.arg1[i]); }
      } else {
        var k := i - g.Size();
        assert PlanGate(g.Size(), root, rest, plan.gates[k], k);
        if h.op[i].UsesArg0() { NewGateRanked(g, r, root, rest, plan, k, h.arg0[i]); }
        if h.op[i].UsesArg1() { NewGateRanked(g, r, root, rest, plan, k, h.arg1[i]); }
      }
    }
  }

  /** Acyclicity survives any rewrite whose replacement reads no dependant of the root. */
  lemma IndependentRewriteAcyclic(g: GraphBody, rule: RuleId, root: u32, rest: seq<u32>)
    requires WellFormed(g) && Acyclic(g) && |rest| < MAX_MATCHED && Instance(g, rule, root, rest)
    requires Independent(g, root, rest) && RewrittenBy(g, rule, root, rest).Shaped()
    ensures Acyclic(RewrittenBy(g, rule, root, rest))
  {
    hide Instance, ReplacementPlan, Rewritten;
    var r :| IsRank(g, r);
    PlanReadsMatch(g, rule, root, rest);
    LiftedRankRanks(g, r, root, rest, PlanOf(g, rule, root, rest));
  }

  /** The condition under which a rewrite cannot close a cycle. Only the complement inverses have one. */
  ghost predicate WitnessAvoidsRoot(g: GraphBody, rule: RuleId, root: nat, rest: seq<nat>)
    requires g.Shaped()
  {
    rule.ComplementInverse() && |rest| == 2 ==> !Reaches(g, rest[1], root)
  }

  lemma ComplementIndependent(g: GraphBody, r: seq<nat>, rule: RuleId, root: u32, rest: seq<u32>, c: nat)
    requires g.Shaped() && IsRank(g, r) && rule.ComplementInverse() && Instance(g, rule, root, rest)
    requires !Reaches(g, rest[1], root) && (c == root || c in rest)
    ensures c < g.Size() && !StrictlyReaches(g, c, root)
  {
    if c == root {
      NotAboveSafe(g, r, c, root);
    } else if StrictlyReaches(g, c, root) {
      var d: nat :| g.Reads(c, d) && Reaches(g, d, root);
      ReachesStep(g, c, d, root);
      if c == rest[0] {
        ReachesStep(g, rest[1], rest[0], root);
      }
    }
  }

  lemma MatchIndependent(g: GraphBody, rule: RuleId, root: u32, rest: seq<u32>)
    requires WellFormed(g) && Acyclic(g) && |rest| < MAX_MATCHED && Instance(g, rule, root, rest)
    requires WitnessAvoidsRoot(g, rule, root, rest)
    ensures Independent(g, root, rest)
  {
    assert rule.ComplementInverse() ==> |rest| == 2;
    hide Instance;
    var r :| IsRank(g, r);
    forall c: nat | c == root || c in rest
      ensures c < g.Size() && !StrictlyReaches(g, c, root)
    {
      if rule.ComplementInverse() {
        ComplementIndependent(g, r, rule, root, rest, c);
      } else {
        MatchIndependentOfRoot(g, r, rule, root, rest, c);
      }
    }
  }

  // ---- meaning -----------------------------------------------------------------------------

  lemma RewrittenSetting(g: GraphBody, r: seq<nat>, root: u32, plan: Plan, x: Assignment, w: seq<bool>)
    requires WellFormed(g) && IsRank(g, r) && root < g.Size()
    requires WellFormed(Rewritten(g, root, plan)) && Consistent(Rewritten(g, root, plan), x, w)
    ensures Setting(g, r, x, w, root)
  {
    var h := Rewritten(g, root, plan);
    forall i: nat | i < g.Size() && !g.Reads(i, root)
      ensures Holds(g, x, w, i)
    {
      RewrittenNode(g, root, plan, i);
      assert Holds(h, x, w, i);
    }
  }

  lemma RewrittenGatesHold(g: GraphBody, root: u32, rest: seq<u32>, plan: Plan, x: Assignment, w: seq<bool>)
    requires WellFormed(g) && PlanFits(g.Size(), root, rest, plan)
    requires WellFormed(Rewritten(g, root, plan)) && Consistent(Rewritten(g, root, plan), x, w)
    ensures GatesHold(plan.gates, w, g.Size())
  {
    var h := Rewritten(g, root, plan);
    forall k | 0 <= k < |plan.gates|
      ensures GateHolds(plan.gates[k], w, g.Size() + k)
    {
      assert PlanGate(g.Size(), root, rest, plan.gates[k], k);
      RewrittenNode(g, root, plan, g.Size() + k);
      assert Holds(h, x, w, g.Size() + k);
    }
  }

  lemma RestrictionConsistent(g: GraphBody, root: u32, plan: Plan, x: Assignment, w: seq<bool>)
    requires WellFormed(g) && root < g.Size() && plan.result < |w|
    requires WellFormed(Rewritten(g, root, plan)) && Consistent(Rewritten(g, root, plan), x, w)
    requires w[plan.result] == w[root]
    ensures Consistent(g, x, w[..g.Size()])
  {
    var h := Rewritten(g, root, plan);
    var v := w[..g.Size()];
    forall i: nat | i < g.Size()
      ensures Holds(g, x, v, i)
    {
      RewrittenNode(g, root, plan, i);
      assert Holds(h, x, w, i);
    }
  }

  /**
   * The heart of soundness, for all 44 rules and whether or not the rewrite closed a cycle: every solution
   * of the rewritten graph's equations, restricted to the old nodes, solves the old graph's equations.
   */
  lemma RewriteReflectsSolutions(g: GraphBody, rule: RuleId, root: u32, rest: seq<u32>, x: Assignment, w: seq<bool>)
    requires WellFormed(g) && Acyclic(g) && |rest| < MAX_MATCHED && Instance(g, rule, root, rest)
    requires WellFormed(RewrittenBy(g, rule, root, rest)) && Consistent(RewrittenBy(g, rule, root, rest), x, w)
    ensures Consistent(g, x, w[..g.Size()])
  {
    hide Instance, ReplacementPlan, Rewritten;
    var r :| IsRank(g, r);
    var plan := PlanOf(g, rule, root, rest);
    InstanceInRange(g, rule, root, rest);
    PlanReadsMatch(g, rule, root, rest);
    RewrittenSetting(g, r, root, plan, x, w);
    RewrittenGatesHold(g, root, rest, plan, x, w);
    ReplacementSound(g, r, x, w, rule, root, rest);
    RestrictionConsistent(g, root, plan, x, w);
  }

  /**
   * Rewriting preserves meaning: on an acyclic graph every match that fits the capacity, and whose witness
   * (for the complement inverses) does not depend on the root, yields a well-formed acyclic graph with the
   * same output for every input assignment.
   */
  lemma RewritePreservesFunction(g: GraphBody, rule: RuleId, root: u32, rest: seq<u32>)
    requires WellFormed(g) && Acyclic(g) && |rest| < MAX_MATCHED && Instance(g, rule, root, rest)
    requires g.Size() + rule.ExtraNodes() <= g.capacity
    requires WitnessAvoidsRoot(g, rule, root, rest)
    ensures var r := Apply(g, Candidate(rule, root, rest));
            && r.Ok? && WellFormed(r.value) && Acyclic(r.value)
            && r.value.arity == g.arity && r.value.capacity == g.capacity
            && forall x :: Evaluate(r.value, x) == Evaluate(g, x)
  {
    hide Instance, ReplacementPlan, Apply, Rewritten;
    var h := RewrittenBy(g, rule, root, rest);
    ApplySucceeds(g, rule, root, rest);
    RewrittenWellFormed(g, rule, root, rest);
    MatchIndependent(g, rule, root, rest);
    IndependentRewriteAcyclic(g, rule, root, rest);
    CompactPreservesFunction(h);
    forall x: Assignment
      ensures Evaluate(Compact(h).value, x) == Evaluate(g, x)
    {
      var w := ConsistentExists(h, x);
      RewriteReflectsSolutions(g, rule, root, rest, x, w);
      EvaluateFromConsistent(h, x, w);
      EvaluateFromConsistent(g, x, w[..g.Size()]);
    }
  }

  // ---- the exact boundary of the complement inverses ---------------------------------------

  /** A path to the root, cut before the root, leads in the rewritten graph to the replacement. */
  lemma PathToReplacement(g: GraphBody, root: u32, plan: Plan, p: seq<nat>)
    requires g.Shaped() && Rewritten(g, root, plan).Shaped()
    requires IsPath(g, p) && |p| > 1 && p[|p| - 1] == root && root < g.Size()
    requires forall c: nat :: !g.Reads(root, c)
    requires plan.result < Rewritten(g, root, plan).Size()
    ensures IsPath(Rewritten(g, root, plan), p[..|p| - 1] + [plan.result])
  {
    var h := Rewritten(g, root, plan);
    var q := p[..|p| - 1] + [plan.result];
    forall k | 0 <= k < |q| - 1
      ensures h.Reads(q[k], q[k + 1])
    {
      assert g.Reads(p[k], p[k + 1]);
      RewrittenNode(g, root, plan, p[k]);
      if k < |q| - 2 { assert g.Reads(p[k + 1], p[k + 2]); }
    }
  }

  /** If the replacement reads a node with a path to the root, the redirected path closes a cycle. */
  lemma BackPathMakesCycle(g: GraphBody, root: u32, plan: Plan, p: seq<nat>)
    requires g.Shaped() && Rewritten(g, root, plan).Shaped()
    requires IsPath(g, p) && |p| > 1 && p[|p| - 1] == root && root < g.Size()
    requires forall c: nat :: !g.Reads(root, c)
    requires Rewritten(g, root, plan).Reads(plan.result, p[0])
    ensures !Acyclic(Rewritten(g, root, plan))
  {
    var h := Rewritten(g, root, plan);
    PathToReplacement(g, root, plan, p);
    if Acyclic(h) {
      var s :| IsRank(h, s);
      var result: nat := plan.result;
      PathLowersRank(h, s, p[..|p| - 1] + [result]);
      ReadsLowersRank(h, s, result, p[0]);
    }
  }

  lemma ComplementPlan(g: GraphBody, rule: RuleId, root: u32, rest: seq<u32>)
    requires g.Shaped() && rule.ComplementInverse() && |rest| == 2
    ensures PlanOf(g, rule, root, rest) ==
            Plan([Gate(if rule.AndComplementInverse? then And else Or, rest[0], rest[1])], g.Size())
  {
  }

  /** A witness that depends on the root makes the rewritten graph cyclic. */
  lemma DependentWitnessMakesCycle(g: GraphBody, rule: RuleId, root: u32, rest: seq<u32>)
    requires g.Shaped() && rule.ComplementInverse() && Instance(g, rule, root, rest)
    requires RewrittenBy(g, rule, root, rest).Shaped() && Reaches(g, rest[1], root)
    ensures !Acyclic(RewrittenBy(g, rule, root, rest))
  {
    var plan := PlanOf(g, rule, root, rest);
    ComplementPlan(g, rule, root, rest);
    var p: seq<nat> :| PathFromTo(g, p, rest[1], root);
    RewrittenNode(g, root, plan, plan.result);
    BackPathMakesCycle(g, root, plan, p);
  }

  lemma IndependentWitnessKeepsAcyclic(g: GraphBody, rule: RuleId, root: u32, rest: seq<u32>)
    requires WellFormed(g) && Acyclic(g) && rule.ComplementInverse() && Instance(g, rule, root, rest)
    requires RewrittenBy(g, rule, root, rest).Shaped() && !Reaches(g, rest[1], root)
    ensures Acyclic(RewrittenBy(g, rule, root, rest))
  {
    MatchIndependent(g, rule, root, rest);
    IndependentRewriteAcyclic(g, rule, root, rest);
  }

  /**
   * From an acyclic graph, the rewrite by a complement inverse is acyclic before compaction if and only if
   * the witness cannot reach the root.
   */
  lemma ComplementInverseBoundary(g: GraphBody, rule: RuleId, root: u32, rest: seq<u32>)
    requires WellFormed(g) && Acyclic(g) && rule.ComplementInverse() && Instance(g, rule, root, rest)
    requires g.Size() + rule.ExtraNodes() <= g.capacity
    ensures RewrittenBy(g, rule, root, rest).Shaped()
    ensures Acyclic(RewrittenBy(g, rule, root, rest)) <==> !Reaches(g, rest[1], root)
  {
    hide ReplacementPlan, Rewritten;
    RewrittenWellFormed(g, rule, root, rest);
    if Reaches(g, rest[1], root) {
      DependentWitnessMakesCycle(g, rule, root, rest);
    } else {
      IndependentWitnessKeepsAcyclic(g, rule, root, rest);
    }
  }

  // ---- the boundary is met in practice -----------------------------------------------------

  /** Output of the negation of a false constant, with one unused input. */
  function NegatedFalse(): GraphBody
  {
    GraphBody(1, 16, 3, [Input, Const, Not, Output], [0, 0, 1, 2], [NO_NODE, NO_NODE, NO_NODE, NO_NODE])
  }

  /** The same graph after the rewrite: nodes 2 and 4 read each other. */
  function LoopedFalse(): GraphBody
  {
    GraphBody(1, 16, 3, [Input, Const, Not, Output, And], [0, 0, 4, 2, 1], [NO_NODE, NO_NODE, NO_NODE, NO_NODE, 2])
  }

  lemma NegatedFalseAcyclic()
    ensures WellFormed(NegatedFalse()) && Acyclic(NegatedFalse())
  {
    var g := NegatedFalse();
    assert WellFormed(g);
    var ranks: seq<nat> := [0, 0, 1, 2];
    assert RankedAt(g, ranks, 0) && RankedAt(g, ranks, 1) && RankedAt(g, ranks, 2) && RankedAt(g, ranks, 3);
    assert IsRank(g, ranks);
  }

  lemma NegatedFalseMatches()
    ensures Instance(NegatedFalse(), AndComplementInverse, 1, [1, 2]) && Reaches(NegatedFalse(), 2, 1)
  {
    var g := NegatedFalse();
    assert IsConst(g, 1, false) && IsNot(g, 2, 1);
    assert g.Reads(2, 1);
    ReachesSelf(g, 1);
    ReachesStep(g, 2, 1, 1);
  }

  lemma NegatedFalseRewrites()
    ensures RewrittenBy(NegatedFalse(), AndComplementInverse, 1, [1, 2]) == LoopedFalse()
  {
    ComplementPlan(NegatedFalse(), AndComplementInverse, 1, [1, 2]);
  }

  lemma LoopedFalseAllLive()
    ensures Compact(LoopedFalse()) == Ok(LoopedFalse())
  {
    var h := LoopedFalse();
    ReachesSelf(h, 3);
    ReachesExtend(h, 3, 3, 2);
    ReachesExtend(h, 3, 2, 4);
    ReachesExtend(h, 3, 4, 1);
    AllKept(h, 5);
    CompactSucceeds(h);
  }

  /**
   * The engine's own candidate list can break acyclicity: on a small acyclic graph the match of
   * `AndComplementInverse` at the constant, with the negation of that constant as witness, applies without
   * error and the compacted result is cyclic.
   */
  lemma ComplementInverseCanCycle()
    ensures var g := NegatedFalse();
            && WellFormed(g) && Acyclic(g) && Instance(g, AndComplementInverse, 1, [1, 2])
            && var r := Apply(g, Candidate(AndComplementInverse, 1, [1, 2]));
               r.Ok? && WellFormed(r.value) && !Acyclic(r.value)
  {
    hide Instance, ReplacementPlan, Rewritten;
    NegatedFalseAcyclic();
    NegatedFalseMatches();
    NegatedFalseRewrites();
    LoopedFalseAllLive();
    ApplySucceeds(NegatedFalse(), AndComplementInverse, 1, [1, 2]);
    DependentWitnessMakesCycle(NegatedFalse(), AndComplementInverse, 1, [1, 2]);
  }
}

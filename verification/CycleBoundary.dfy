/** When the graph that a complement-inverse rewrite returns is acyclic. */
module CycleBoundary {
  import opened Basics
  import opened Graphs
  import opened Semantics
  import opened Compaction
  import opened Rules
  import opened RuleSoundness
  import opened Rewriting
  import opened RewriteTheorems
  import opened Attempts
  import opened Enumeration

  /** The one appended gate of a complement inverse. */
  ghost predicate OneGate(g: GraphBody, root: u32, plan: Plan)
  {
    |plan.gates| == 1 && plan.result == g.Size() && root < g.Size()
  }

  /** In the rewritten graph, what leads from an old node to the appended gate led to the root before. */
  lemma {:induction false} NewWasRoot(g: GraphBody, root: u32, plan: Plan, p: seq<nat>)
    requires WellFormed(g) && OneGate(g, root, plan) && WellFormed(Rewritten(g, root, plan))
    requires IsPath(Rewritten(g, root, plan), p) && p[0] < g.Size() && p[|p| - 1] == g.Size()
    ensures StrictlyReaches(g, p[0], root)
    decreases |p|
  {
    var h, q := Rewritten(g, root, plan), p[1..];
    assert h.Reads(p[0], p[1]);
    RewrittenNode(g, root, plan, p[0]);
    if p[1] == g.Size() {
      ReachesSelf(g, root);
    } else {
      forall k | 0 <= k < |q| - 1
        ensures h.Reads(q[k], q[k + 1])
      {
        assert h.Reads(p[k + 1], p[k + 2]);
      }
      NewWasRoot(g, root, plan, q);
      ReachesStep(g, p[1], StepTo(g, p[1], root), root);
      ReachesStep(g, p[0], p[1], root);
    }
  }

  /** The first operand on the way. */
  ghost function StepTo(g: GraphBody, i: nat, j: nat): (c: nat)
    requires g.Shaped() && StrictlyReaches(g, i, j)
    ensures g.Reads(i, c) && Reaches(g, c, j)
  {
    var c: nat :| g.Reads(i, c) && Reaches(g, c, j);
    c
  }

  /** The output depends on the appended gate exactly when it used to depend on the root through an operand. */
  lemma NewIsLive(g: GraphBody, root: u32, plan: Plan)
    requires WellFormed(g) && OneGate(g, root, plan) && WellFormed(Rewritten(g, root, plan))
    requires forall c: nat :: !g.Reads(root, c)
    ensures Live(Rewritten(g, root, plan), g.Size()) <==> StrictlyReaches(g, g.outputNode, root)
  {
    var h := Rewritten(g, root, plan);
    if Live(h, g.Size()) {
      var p :| PathFromTo(h, p, h.outputNode, g.Size());
      NewWasRoot(g, root, plan, p);
    }
    if StrictlyReaches(g, g.outputNode, root) {
      var c := StepTo(g, g.outputNode, root);
      var p :| PathFromTo(g, p, c, root);
      var q := [g.outputNode as nat] + p;
      forall k | 0 <= k < |q| - 1
        ensures g.Reads(q[k], q[k + 1])
      {
        if k > 0 { assert g.Reads(p[k - 1], p[k]); }
      }
      PathToReplacement(g, root, plan, q);
      assert PathFromTo(h, q[..|q| - 1] + [plan.result], h.outputNode, g.Size());
    }
  }

  /** If the output does not depend on the appended gate, the old ranks serve the surviving nodes. */
  lemma DeadRewriteAcyclic(g: GraphBody, root: u32, plan: Plan)
    requires WellFormed(g) && Acyclic(g) && OneGate(g, root, plan) && WellFormed(Rewritten(g, root, plan))
    requires !Live(Rewritten(g, root, plan), g.Size())
    ensures Compact(Rewritten(g, root, plan)).Ok? && Compact(Rewritten(g, root, plan)).value.Shaped()
    ensures Acyclic(Compact(Rewritten(g, root, plan)).value)
  {
    var h := Rewritten(g, root, plan);
    CompactSucceeds(h);
    hide Compact;
    var r :| IsRank(g, r);
    var s := r + [0];
    forall i: nat | Kept(h, i)
      ensures RankedAt(h, s, i)
    {
      assert i < g.Size();
      RewrittenNode(g, root, plan, i);
      assert RankedAt(g, r, i);
      if h.Reads(i, g.Size()) {
        ReachesExtend(h, h.outputNode, i, g.Size());
      }
    }
    CompactRanked(h, s);
  }

  /** A live gate on a cycle leaves a cycle in the compacted graph. */
  lemma LiveRewriteCyclic(g: GraphBody, rule: RuleId, root: u32, rest: seq<u32>)
    requires WellFormed(g) && rule.ComplementInverse() && Instance(g, rule, root, rest)
    requires WellFormed(RewrittenBy(g, rule, root, rest)) && Live(RewrittenBy(g, rule, root, rest), g.Size())
    requires Reaches(g, rest[1], root)
    ensures Compact(RewrittenBy(g, rule, root, rest)).Ok? && Compact(RewrittenBy(g, rule, root, rest)).value.Shaped()
    ensures !Acyclic(Compact(RewrittenBy(g, rule, root, rest)).value)
  {
    var plan, h := PlanOf(g, rule, root, rest), RewrittenBy(g, rule, root, rest);
    ComplementPlan(g, rule, root, rest);
    var p: seq<nat> :| PathFromTo(g, p, rest[1], root);
    PathToReplacement(g, root, plan, p);
    RewrittenNode(g, root, plan, g.Size());
    assert PathFromTo(h, p[..|p| - 1] + [plan.result], rest[1], g.Size());
    ReachesStep(h, g.Size(), rest[1], g.Size());
    CompactSucceeds(h);
    LiveCycleSurvives(h, g.Size());
  }

  /** Giving the appended gate the value of the root solves the rewritten equations, cycle or not. */
  lemma ComplementSolution(g: GraphBody, rule: RuleId, root: u32, rest: seq<u32>, x: Assignment, v: seq<bool>)
    requires WellFormed(g) && rule.ComplementInverse() && Instance(g, rule, root, rest)
    requires WellFormed(RewrittenBy(g, rule, root, rest)) && Consistent(g, x, v)
    ensures Consistent(RewrittenBy(g, rule, root, rest), x, v + [v[root]])
  {
    var plan, h, w := PlanOf(g, rule, root, rest), RewrittenBy(g, rule, root, rest), v + [v[root]];
    ComplementPlan(g, rule, root, rest);
    assert Holds(g, x, v, root) && Holds(g, x, v, rest[1]);
    forall i: nat | i < h.Size()
      ensures Holds(h, x, w, i)
    {
      RewrittenNode(g, root, plan, i);
      if i < g.Size() { assert Holds(g, x, v, i); }
    }
  }

  lemma CompactedValue(g: GraphBody, x: Assignment, v: seq<bool>)
    requires WellFormed(g) && Consistent(g, x, v) && Compact(g).Ok?
    requires WellFormed(Compact(g).value) && Acyclic(Compact(g).value)
    ensures Evaluate(Compact(g).value, x) == v[g.outputNode]
  {
    CompactSucceeds(g);
    if |KeepUpTo(g, g.Size())| == g.Size() {
      EvaluateFromConsistent(g, x, v);
    } else {
      var w := RenumberedConsistent(g, x, v);
      EvaluateFromConsistent(Compact(g).value, x, w);
    }
  }

  lemma ReturnedFunction(g: GraphBody, rule: RuleId, root: u32, rest: seq<u32>)
    requires WellFormed(g) && Acyclic(g) && rule.ComplementInverse() && Instance(g, rule, root, rest)
    requires root < g.Size() && WellFormed(RewrittenBy(g, rule, root, rest))
    requires var c := Compact(RewrittenBy(g, rule, root, rest)); c.Ok? && WellFormed(c.value) && Acyclic(c.value)
    ensures forall x :: Evaluate(Compact(RewrittenBy(g, rule, root, rest)).value, x) == Evaluate(g, x)
  {
    hide Instance, ReplacementPlan, Rewritten, Compact, Evaluate, Acyclic, Holds;
    forall x: Assignment
      ensures Evaluate(Compact(RewrittenBy(g, rule, root, rest)).value, x) == Evaluate(g, x)
    {
      var v := ConsistentExists(g, x);
      ComplementSolution(g, rule, root, rest, x, v);
      CompactedValue(RewrittenBy(g, rule, root, rest), x, v + [v[root]]);
      EvaluateFromConsistent(g, x, v);
    }
  }

  /**
   * The graph a complement inverse returns is acyclic if and only if it is not the case that the witness
   * reaches the root and the output depends on the root through an operand; and whenever it is acyclic it
   * computes the old function.
   */
  lemma ReturnedGraphBoundary(g: GraphBody, rule: RuleId, root: u32, rest: seq<u32>)
    requires WellFormed(g) && Acyclic(g) && rule.ComplementInverse() && Instance(g, rule, root, rest)
    requires g.Size() + rule.ExtraNodes() <= g.capacity
    ensures var r := Apply(g, Candidate(rule, root, rest));
            && r.Ok? && WellFormed(r.value)
            && (Acyclic(r.value) <==> !(Reaches(g, rest[1], root) && StrictlyReaches(g, g.outputNode, root)))
            && (Acyclic(r.value) ==> forall x :: Evaluate(r.value, x) == Evaluate(g, x))
  {
    var plan, h := PlanOf(g, rule, root, rest), RewrittenBy(g, rule, root, rest);
    ComplementPlan(g, rule, root, rest);
    assert forall c: nat :: !g.Reads(root, c);
    hide Instance, ReplacementPlan, Rewritten, Apply, Compact, Evaluate, Acyclic, StrictlyReaches, Reaches;
    RewrittenWellFormed(g, rule, root, rest);
    InstanceInRange(g, rule, root, rest);
    ApplySucceeds(g, rule, root, rest);
    NewIsLive(g, root, plan);
    if !Reaches(g, rest[1], root) {
      IndependentWitnessKeepsAcyclic(g, rule, root, rest);
      CompactPreservesFunction(h);
    } else if StrictlyReaches(g, g.outputNode, root) {
      LiveRewriteCyclic(g, rule, root, rest);
    } else {
      DeadRewriteAcyclic(g, root, plan);
    }
    if Acyclic(Compact(h).value) {
      ReturnedFunction(g, rule, root, rest);
    }
  }

  /**
   * The engine's own candidate list can break acyclicity: a concrete acyclic, compacted graph with an
   * enumerated candidate that applies without error and returns a cyclic graph.
   */
  lemma EnumeratedCanCycle()
    ensures var g, c := NegatedFalse(), Candidate(AndComplementInverse, 1, [1, 2]);
            && WellFormed(g) && Acyclic(g) && c in Enumerated(g, true, None)
            && var r := Apply(g, c); r.Ok? && WellFormed(r.value) && !Acyclic(r.value)
  {
    hide Apply, Enumerated, Instance;
    ComplementInverseCanCycle();
    EnumerationExact(NegatedFalse(), true, Attempt(AndComplementInverse, 1, [1, 2]));
  }
}

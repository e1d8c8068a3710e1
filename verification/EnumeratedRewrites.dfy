/** What the engine's own candidate lists guarantee. */
module EnumeratedRewrites {
  import opened Basics
  import opened Graphs
  import opened Semantics
  import opened Compaction
  import opened Rules
  import opened Rewriting
  import opened RewriteTheorems
  import opened Enumeration

  /** A candidate that cannot close a cycle: not a complement inverse, or one whose witness avoids the root. */
  ghost predicate SafeCandidate(g: GraphBody, c: RawCandidate)
    requires g.Shaped()
  {
    FromU16(c.ruleId).Some? && FromU16(c.ruleId).value.ComplementInverse() ==>
      c.matchLen == 3 && !Reaches(g, c.matched[2], c.root)
  }

  /** Every enumerated candidate applies without error, whatever its rule, and the result is well formed. */
  lemma EnumeratedApplies(g: GraphBody, includeReverse: bool, limit: Option<nat>, c: RawCandidate)
    requires WellFormed(g) && c in Enumerated(g, includeReverse, limit)
    ensures Apply(g, c).Ok? && WellFormed(Apply(g, c).value)
    ensures Apply(g, c).value.arity == g.arity && Apply(g, c).value.capacity == g.capacity
  {
    hide Enumerated, Instance, Apply;
    var a := EnumeratedIsMatch(g, includeReverse, limit, c);
    ApplySucceeds(g, a.rule, a.root, a.rest);
  }

  /**
   * Every enumerated safe candidate of an acyclic graph rewrites it into an acyclic graph with the same
   * output for every input assignment.
   */
  lemma EnumeratedPreservesFunction(g: GraphBody, includeReverse: bool, limit: Option<nat>, c: RawCandidate)
    requires WellFormed(g) && Acyclic(g) && c in Enumerated(g, includeReverse, limit) && SafeCandidate(g, c)
    ensures Apply(g, c).Ok? && WellFormed(Apply(g, c).value) && Acyclic(Apply(g, c).value)
    ensures Apply(g, c).value.arity == g.arity && Apply(g, c).value.capacity == g.capacity
    ensures forall x :: Evaluate(Apply(g, c).value, x) == Evaluate(g, x)
  {
    hide Enumerated, Instance, Apply;
    var a := EnumeratedIsMatch(g, includeReverse, limit, c);
    if a.rule.ComplementInverse() && |a.rest| == 2 {
      assert c.matched[2] == a.rest[1];
    }
    RewritePreservesFunction(g, a.rule, a.root, a.rest);
  }

  /** A run of rewrites: each graph is the previous one after one of its own enumerated safe candidates. */
  ghost predicate RewriteRun(graphs: seq<GraphBody>, includeReverse: bool)
  {
    && |graphs| > 0
    && (forall k :: 0 <= k < |graphs| ==> graphs[k].Shaped())
    && forall k :: 0 <= k < |graphs| - 1 ==> RewriteStep(graphs[k], graphs[k + 1], includeReverse)
  }

  ghost predicate RewriteStep(g: GraphBody, h: GraphBody, includeReverse: bool)
    requires g.Shaped()
  {
    exists c :: c in Enumerated(g, includeReverse, None) && SafeCandidate(g, c) && Apply(g, c) == Ok(h)
  }

  /** Any number of safe rewrites keeps the graph well formed, acyclic and computing the same function. */
  lemma {:induction false} RunPreservesFunction(graphs: seq<GraphBody>, includeReverse: bool)
    requires RewriteRun(graphs, includeReverse) && WellFormed(graphs[0]) && Acyclic(graphs[0])
    ensures var last := graphs[|graphs| - 1];
            && WellFormed(last) && Acyclic(last)
            && last.arity == graphs[0].arity && last.capacity == graphs[0].capacity
            && forall x :: Evaluate(last, x) == Evaluate(graphs[0], x)
    decreases |graphs|
  {
    hide Enumerated, Apply;
    if |graphs| > 1 {
      var init := graphs[..|graphs| - 1];
      var g, h := graphs[|graphs| - 2], graphs[|graphs| - 1];
      forall k | 0 <= k < |init| - 1
        ensures RewriteStep(init[k], init[k + 1], includeReverse)
      {
        assert RewriteStep(graphs[k], graphs[k + 1], includeReverse);
      }
      RunPreservesFunction(init, includeReverse);
      assert RewriteStep(g, h, includeReverse);
      var c :| c in Enumerated(g, includeReverse, None) && SafeCandidate(g, c) && Apply(g, c) == Ok(h);
      EnumeratedPreservesFunction(g, includeReverse, None, c);
    }
  }
}

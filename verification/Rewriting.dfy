/** Applying a rule: the rewritten graph stays well formed, acyclic and computes the same function. */
module Rewriting {
  import opened Basics
  import opened Graphs
  import opened Semantics
  import opened Compaction
  import opened Rules
  import opened RuleSoundness

  // ---- which nodes a replacement reads -----------------------------------------------------

  /** A reference gate number `k` of a plan may use: a matched node or an earlier gate. */
  predicate PlanRef(n: nat, root: nat, rest: seq<nat>, c: nat, k: nat)
  {
    c == root || c in rest || n <= c < n + k
  }

  ghost predicate PlanGate(n: nat, root: nat, rest: seq<nat>, gate: Gate, k: nat)
  {
    && (gate.op.UsesArg0() ==> PlanRef(n, root, rest, gate.a, k))
    && (gate.op.UsesArg1() ==> PlanRef(n, root, rest, gate.b, k))
    && !gate.op.Output? && !gate.op.Input?
  }

  ghost predicate PlanFits(n: nat, root: nat, rest: seq<nat>, plan: Plan)
  {
    && PlanRef(n, root, rest, plan.result, |plan.gates|)
    && forall k: nat :: k < |plan.gates| ==> PlanGate(n, root, rest, plan.gates[k], k)
  }

  ghost predicate PlanReads(g: GraphBody, rule: RuleId, root: u32, rest: seq<u32>)
    requires g.Shaped() && |rest| < MAX_MATCHED
  {
    PlanFits(g.Size(), root, rest, PlanOf(g, rule, root, rest))
  }

  lemma SimplifierReads(g: GraphBody, rule: RuleId, root: u32, rest: seq<u32>)
    requires g.Shaped() && |rest| < MAX_MATCHED && Instance(g, rule, root, rest) && AsU16(rule) <= 18
    ensures PlanReads(g, rule, root, rest)
  {
    match rule {
      case AndFalse => case AndTrue => case OrFalse => case OrTrue => case NotFalse => case NotTrue =>
      case AndIdempotent => case OrIdempotent => case AndComplement => case OrComplement => case DoubleNegation =>
      case CommuteAnd => case CommuteOr =>
      case AssociateAndLeft => case AssociateAndRight => case AssociateOrLeft => case AssociateOrRight =>
      case AbsorbOrAnd => case AbsorbAndOr =>
    }
  }

  lemma DeMorganReads(g: GraphBody, rule: RuleId, root: u32, rest: seq<u32>)
    requires g.Shaped() && |rest| < MAX_MATCHED && Instance(g, rule, root, rest) && 18 < AsU16(rule) <= 22
    ensures PlanReads(g, rule, root, rest)
  {
    match rule {
      case DeMorganNotAnd => case DeMorganNotOr => case DeMorganOrNots => case DeMorganAndNots =>
    }
  }

  lemma DistributorReads(g: GraphBody, rule: RuleId, root: u32, rest: seq<u32>)
    requires g.Shaped() && |rest| < MAX_MATCHED && Instance(g, rule, root, rest) && 22 < AsU16(rule) <= 26
    ensures PlanReads(g, rule, root, rest)
  {
    match rule {
      case DistributeOrFactor => case DistributeOrExpand => case DistributeAndFactor => case DistributeAndExpand =>
    }
  }

  lemma ConsensusReads(g: GraphBody, rule: RuleId, root: u32, rest: seq<u32>)
    requires g.Shaped() && |rest| < MAX_MATCHED && Instance(g, rule, root, rest) && 26 < AsU16(rule) <= 30
    ensures PlanReads(g, rule, root, rest)
  {
    match rule {
      case ConsensusOrAdd => case ConsensusOrRemove => case ConsensusAndAdd => case ConsensusAndRemove =>
    }
  }

  lemma ExpanderReads(g: GraphBody, rule: RuleId, root: u32, rest: seq<u32>)
    requires g.Shaped() && |rest| < MAX_MATCHED && Instance(g, rule, root, rest) && 30 < AsU16(rule)
    ensures PlanReads(g, rule, root, rest)
  {
    match rule {
      case AndFalseInverse => case AndTrueInverse => case OrFalseInverse => case OrTrueInverse =>
      case NotFalseInverse => case NotTrueInverse => case AndIdempotentInverse => case OrIdempotentInverse =>
      case AndComplementInverse => case OrComplementInverse => case DoubleNegationInverse =>
      case AbsorbOrAndInverse => case AbsorbAndOrInverse =>
    }
  }

  /** A replacement reads only matched nodes and its own earlier gates. */
  lemma PlanReadsMatch(g: GraphBody, rule: RuleId, root: u32, rest: seq<u32>)
    requires g.Shaped() && |rest| < MAX_MATCHED && Instance(g, rule, root, rest)
    ensures PlanReads(g, rule, root, rest)
  {
    if AsU16(rule) <= 18 {
      SimplifierReads(g, rule, root, rest);
    } else if AsU16(rule) <= 22 {
      DeMorganReads(g, rule, root, rest);
    } else if AsU16(rule) <= 26 {
      DistributorReads(g, rule, root, rest);
    } else if AsU16(rule) <= 30 {
      ConsensusReads(g, rule, root, rest);
    } else {
      ExpanderReads(g, rule, root, rest);
    }
  }

  // ---- matched nodes never depend on the root ----------------------------------------------

  lemma BinaryBelow(g: GraphBody, r: seq<nat>, op: OpCode, i: nat, a: nat, b: nat)
    requires g.Shaped() && IsRank(g, r) && op.UsesArg1() && IsBinary(g, op, i, a, b)
    ensures r[a] < r[i] && r[b] < r[i]
  {
    ReadsLowersRank(g, r, i, a);
    ReadsLowersRank(g, r, i, b);
  }

  lemma NotBelow(g: GraphBody, r: seq<nat>, i: nat, a: nat)
    requires g.Shaped() && IsRank(g, r) && IsNot(g, i, a)
    ensures r[a] < r[i]
  {
    ReadsLowersRank(g, r, i, a);
  }

  ghost predicate AllBelow(g: GraphBody, r: seq<nat>, root: nat, rest: seq<nat>)
    requires |r| == g.Size() && root < g.Size()
  {
    forall k :: 0 <= k < |rest| ==> rest[k] < g.Size() && r[rest[k]] < r[root]
  }

  lemma FoldBelow(g: GraphBody, r: seq<nat>, rule: RuleId, root: u32, rest: seq<u32>)
    requires g.Shaped() && IsRank(g, r) && Instance(g, rule, root, rest) && AsU16(rule) <= 12
    ensures root < g.Size() && AllBelow(g, r, root, rest)
  {
    match rule
    case AndFalse => var o: nat :| IsBinary(g, And, root, rest[0], o); BinaryBelow(g, r, And, root, rest[0], o);
    case OrTrue => var o: nat :| IsBinary(g, Or, root, rest[0], o); BinaryBelow(g, r, Or, root, rest[0], o);
    case AndTrue | AndComplement | CommuteAnd => BinaryBelow(g, r, And, root, rest[0], rest[1]);
    case OrFalse | OrComplement | CommuteOr => BinaryBelow(g, r, Or, root, rest[0], rest[1]);
    case AndIdempotent => BinaryBelow(g, r, And, root, rest[0], rest[0]);
    case OrIdempotent => BinaryBelow(g, r, Or, root, rest[0], rest[0]);
    case NotFalse | NotTrue => NotBelow(g, r, root, rest[0]);
    case DoubleNegation => NotBelow(g, r, root, rest[0]); NotBelow(g, r, rest[0], rest[1]);
  }

  lemma ShapeBelow(g: GraphBody, r: seq<nat>, rule: RuleId, root: u32, rest: seq<u32>)
    requires g.Shaped() && IsRank(g, r) && Instance(g, rule, root, rest) && 12 < AsU16(rule) <= 22
    ensures root < g.Size() && AllBelow(g, r, root, rest)
  {
    match rule
    case AssociateAndLeft =>
      BinaryBelow(g, r, And, root, rest[1], rest[0]); BinaryBelow(g, r, And, rest[0], rest[2], rest[3]);
    case AssociateAndRight =>
      BinaryBelow(g, r, And, root, rest[0], rest[3]); BinaryBelow(g, r, And, rest[0], rest[1], rest[2]);
    case AssociateOrLeft =>
      BinaryBelow(g, r, Or, root, rest[1], rest[0]); BinaryBelow(g, r, Or, rest[0], rest[2], rest[3]);
    case AssociateOrRight =>
      BinaryBelow(g, r, Or, root, rest[0], rest[3]); BinaryBelow(g, r, Or, rest[0], rest[1], rest[2]);
    case AbsorbAndOr =>
      BinaryBelow(g, r, And, root, rest[0], rest[1]); BinaryBelow(g, r, Or, rest[1], rest[0], rest[2]);
    case AbsorbOrAnd =>
      BinaryBelow(g, r, Or, root, rest[0], rest[1]); BinaryBelow(g, r, And, rest[1], rest[0], rest[2]);
    case DeMorganNotAnd => NotBelow(g, r, root, rest[0]); BinaryBelow(g, r, And, rest[0], rest[1], rest[2]);
    case DeMorganNotOr => NotBelow(g, r, root, rest[0]); BinaryBelow(g, r, Or, rest[0], rest[1], rest[2]);
    case DeMorganAndNots =>
      BinaryBelow(g, r, And, root, rest[0], rest[1]);
      NotBelow(g, r, rest[0], rest[2]); NotBelow(g, r, rest[1], rest[3]);
    case DeMorganOrNots =>
      BinaryBelow(g, r, Or, root, rest[0], rest[1]);
      NotBelow(g, r, rest[0], rest[2]); NotBelow(g, r, rest[1], rest[3]);
  }

  lemma LatticeBelow(g: GraphBody, r: seq<nat>, rule: RuleId, root: u32, rest: seq<u32>)
    requires g.Shaped() && IsRank(g, r) && Instance(g, rule, root, rest) && 22 < AsU16(rule) <= 30
    ensures root < g.Size() && AllBelow(g, r, root, rest)
  {
    var op := if rule.DistributeAndFactor? || rule.DistributeOrExpand? || rule.ConsensusAndAdd?
                 || rule.ConsensusAndRemove? then And else Or;
    match rule
    case DistributeAndFactor | DistributeOrFactor =>
      BinaryBelow(g, r, op, root, rest[0], rest[1]);
      BinaryBelow(g, r, Dual(op), rest[0], rest[2], rest[3]);
      BinaryBelow(g, r, Dual(op), rest[1], rest[2], rest[4]);
    case DistributeOrExpand | DistributeAndExpand =>
      BinaryBelow(g, r, op, root, rest[1], rest[0]);
      BinaryBelow(g, r, Dual(op), rest[0], rest[2], rest[3]);
    case ConsensusAndAdd | ConsensusOrAdd =>
      BinaryBelow(g, r, op, root, rest[0], rest[1]);
      BinaryBelow(g, r, Dual(op), rest[0], rest[2], rest[3]);
      BinaryBelow(g, r, Dual(op), rest[1], rest[5], rest[4]);
    case ConsensusAndRemove | ConsensusOrRemove =>
      var na: nat :| ConsensusTerms(g, Dual(op), rest[2], rest[3], rest[4], rest[5], rest[6], na);
      BinaryBelow(g, r, op, root, rest[0], rest[1]);
      BinaryBelow(g, r, op, rest[0], rest[2], rest[3]);
      BinaryBelow(g, r, Dual(op), rest[2], rest[4], rest[5]);
      BinaryBelow(g, r, Dual(op), rest[3], na, rest[6]);
  }

  /** Except under the complement inverses, no matched node depends on the root. */
  lemma MatchIndependentOfRoot(g: GraphBody, r: seq<nat>, rule: RuleId, root: u32, rest: seq<u32>, c: nat)
    requires g.Shaped() && IsRank(g, r) && Instance(g, rule, root, rest) && !rule.ComplementInverse()
    requires c == root || c in rest
    ensures c < g.Size() && !StrictlyReaches(g, c, root)
  {
    if AsU16(rule) <= 30 {
      if AsU16(rule) <= 12 {
        FoldBelow(g, r, rule, root, rest);
      } else if AsU16(rule) <= 22 {
        ShapeBelow(g, r, rule, root, rest);
      } else {
        LatticeBelow(g, r, rule, root, rest);
      }
      NotAboveSafe(g, r, c, root);
    } else if c == root {
      NotAboveSafe(g, r, c, root);
    } else {
      assert IsConst(g, c, true) || IsConst(g, c, false);
    }
  }

  lemma NotAboveSafe(g: GraphBody, r: seq<nat>, c: nat, root: nat)
    requires g.Shaped() && IsRank(g, r) && c < g.Size() && root < g.Size() && r[c] <= r[root]
    ensures !StrictlyReaches(g, c, root)
  {
    if StrictlyReaches(g, c, root) {
      var d: nat :| g.Reads(c, d) && Reaches(g, d, root);
      ReachesStep(g, c, d, root);
      ReachesLowersRank(g, r, c, root);
    }
  }

  ghost predicate BindsInside(g: GraphBody, root: u32, rest: seq<u32>)
  {
    root < g.Size() && |rest| < MAX_MATCHED && forall k :: 0 <= k < |rest| ==> rest[k] < g.Size()
  }

  lemma FoldInRange(g: GraphBody, rule: RuleId, root: u32, rest: seq<u32>)
    requires g.Shaped() && Instance(g, rule, root, rest) && AsU16(rule) <= 10
    ensures BindsInside(g, root, rest)
  {
  }

  lemma SimplifierInRange(g: GraphBody, rule: RuleId, root: u32, rest: seq<u32>)
    requires g.Shaped() && Instance(g, rule, root, rest) && 10 < AsU16(rule) <= 18
    ensures BindsInside(g, root, rest)
  {
  }

  lemma DistributorInRange(g: GraphBody, rule: RuleId, root: u32, rest: seq<u32>)
    requires g.Shaped() && Instance(g, rule, root, rest) && 18 < AsU16(rule) <= 30
    ensures BindsInside(g, root, rest)
  {
  }

  lemma ExpanderInRange(g: GraphBody, rule: RuleId, root: u32, rest: seq<u32>)
    requires g.Shaped() && Instance(g, rule, root, rest) && 30 < AsU16(rule)
    ensures BindsInside(g, root, rest)
  {
  }

  /** A match lies inside the graph and binds at most seven nodes besides the root. */
  lemma InstanceInRange(g: GraphBody, rule: RuleId, root: u32, rest: seq<u32>)
    requires g.Shaped() && Instance(g, rule, root, rest)
    ensures root < g.Size() && |rest| < MAX_MATCHED && forall k :: 0 <= k < |rest| ==> rest[k] < g.Size()
  {
    hide Instance;
    if AsU16(rule) <= 10 {
      FoldInRange(g, rule, root, rest);
    } else if AsU16(rule) <= 18 {
      SimplifierInRange(g, rule, root, rest);
    } else if AsU16(rule) <= 30 {
      DistributorInRange(g, rule, root, rest);
    } else {
      ExpanderInRange(g, rule, root, rest);
    }
  }
}

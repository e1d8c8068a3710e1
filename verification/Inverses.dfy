/** What a replacement is, and that the inverse rule undoes it. */
module Inverses {
  import opened Basics
  import opened Graphs
  import opened Semantics
  import opened Rules
  import Attempts
  import opened RuleSoundness
  import opened Rewriting
  import opened RewriteTheorems

  // ---- the right-hand sides ----------------------------------------------------------------

  /** `result` is `outer` over `x` and a gate `inner` over `a` and `b`. */
  ghost predicate Nested(h: GraphBody, outer: OpCode, result: nat, x: nat, inner: OpCode, a: nat, b: nat)
    requires h.Shaped() && outer.UsesArg1() && inner.UsesArg1()
  {
    exists p: nat :: IsPair(h, outer, result, x, p) && IsPair(h, inner, p, a, b)
  }

  /** `result` is a gate over the negations of `a` and `b`. */
  ghost predicate OverNots(h: GraphBody, op: OpCode, result: nat, a: nat, b: nat)
    requires h.Shaped() && op.UsesArg1()
  {
    exists p: nat, q: nat :: IsPair(h, op, result, p, q) && IsNot(h, p, a) && IsNot(h, q, b)
  }

  /** `result` is `outer` over two gates `inner`, which share the operand `x`. */
  ghost predicate Spread(h: GraphBody, outer: OpCode, result: nat, inner: OpCode, x: nat, a: nat, b: nat)
    requires h.Shaped() && outer.UsesArg1() && inner.UsesArg1()
  {
    exists p: nat, q: nat :: IsPair(h, outer, result, p, q) && IsPair(h, inner, p, x, a) && IsPair(h, inner, q, x, b)
  }

  /** The right-hand side of a rule's law, read off the rewritten graph at the node that stands for the root. */
  ghost predicate RightSide(h: GraphBody, rule: RuleId, root: nat, rest: seq<nat>, result: nat)
    requires h.Shaped()
  {
    match rule
    case AndFalse | OrTrue => |rest| == 1 && result == rest[0] && IsConst(h, result, rule.OrTrue?)
    case AndTrue | OrFalse => |rest| == 2 && result == rest[1]
    case NotFalse => IsConst(h, result, true)
    case NotTrue => IsConst(h, result, false)
    case AndIdempotent | OrIdempotent => rest == [result]
    case AndComplement => IsConst(h, result, false)
    case OrComplement => IsConst(h, result, true)
    case DoubleNegation => |rest| == 2 && result == rest[1]
    case CommuteAnd => |rest| == 2 && IsPair(h, And, result, rest[1], rest[0])
    case CommuteOr => |rest| == 2 && IsPair(h, Or, result, rest[1], rest[0])
    case AssociateAndLeft =>
      |rest| == 4 && exists p: nat :: IsPair(h, And, result, p, rest[3]) && IsPair(h, And, p, rest[1], rest[2])
    case AssociateOrLeft =>
      |rest| == 4 && exists p: nat :: IsPair(h, Or, result, p, rest[3]) && IsPair(h, Or, p, rest[1], rest[2])
    case AssociateAndRight => |rest| == 4 && Nested(h, And, result, rest[1], And, rest[2], rest[3])
    case AssociateOrRight => |rest| == 4 && Nested(h, Or, result, rest[1], Or, rest[2], rest[3])
    case AbsorbOrAnd | AbsorbAndOr => |rest| == 3 && result == rest[0]
    case DeMorganNotAnd => |rest| == 3 && OverNots(h, Or, result, rest[1], rest[2])
    case DeMorganNotOr => |rest| == 3 && OverNots(h, And, result, rest[1], rest[2])
    case DeMorganOrNots =>
      |rest| == 4 && exists p: nat :: IsNot(h, result, p) && IsPair(h, And, p, rest[2], rest[3])
    case DeMorganAndNots =>
      |rest| == 4 && exists p: nat :: IsNot(h, result, p) && IsPair(h, Or, p, rest[2], rest[3])
    case DistributeOrFactor => |rest| == 5 && Nested(h, And, result, rest[2], Or, rest[3], rest[4])
    case DistributeAndFactor => |rest| == 5 && Nested(h, Or, result, rest[2], And, rest[3], rest[4])
    case DistributeOrExpand => |rest| == 4 && Spread(h, Or, result, And, rest[1], rest[2], rest[3])
    case DistributeAndExpand => |rest| == 4 && Spread(h, And, result, Or, rest[1], rest[2], rest[3])
    case ConsensusOrAdd => |rest| == 6 && Nested(h, Or, result, root, And, rest[3], rest[4])
    case ConsensusAndAdd => |rest| == 6 && Nested(h, And, result, root, Or, rest[3], rest[4])
    case ConsensusOrRemove | ConsensusAndRemove => |rest| == 7 && result == rest[0]
    case AndFalseInverse => IsConst(h, root, false) && IsPair(h, And, result, root, root)
    case OrTrueInverse => IsConst(h, root, true) && IsPair(h, Or, result, root, root)
    case AndTrueInverse => |rest| == 1 && IsConst(h, rest[0], true) && IsPair(h, And, result, root, rest[0])
    case OrFalseInverse => |rest| == 1 && IsConst(h, rest[0], false) && IsPair(h, Or, result, root, rest[0])
    case NotFalseInverse => |rest| == 1 && IsConst(h, rest[0], false) && IsNot(h, result, rest[0])
    case NotTrueInverse => |rest| == 1 && IsConst(h, rest[0], true) && IsNot(h, result, rest[0])
    case AndIdempotentInverse => IsPair(h, And, result, root, root)
    case OrIdempotentInverse => IsPair(h, Or, result, root, root)
    case AndComplementInverse => |rest| == 2 && IsPair(h, And, result, rest[0], rest[1])
    case OrComplementInverse => |rest| == 2 && IsPair(h, Or, result, rest[0], rest[1])
    case DoubleNegationInverse => exists p: nat :: IsNot(h, result, p) && IsNot(h, p, root)
    case AbsorbOrAndInverse => Nested(h, Or, result, root, And, root, root)
    case AbsorbAndOrInverse => Nested(h, And, result, root, Or, root, root)
  }

  /** Operands a gate does not have are blank, and a fresh constant is 0 or 1. */
  predicate Tidy(gate: Gate)
  {
    && (!gate.op.UsesArg1() ==> gate.b == NO_NODE)
    && (gate.op == Const ==> gate.a == 0 || gate.a == 1)
  }

  /** The appended gates, one fact each. */
  lemma Appended(g: GraphBody, root: u32, plan: Plan)
    requires g.Shaped() && Rewritten(g, root, plan).Shaped()
    ensures var h, n := Rewritten(g, root, plan), g.Size();
            && (|plan.gates| > 0 ==> Gate(h.op[n], h.arg0[n], h.arg1[n]) == plan.gates[0])
            && (|plan.gates| > 1 ==> Gate(h.op[n + 1], h.arg0[n + 1], h.arg1[n + 1]) == plan.gates[1])
            && (|plan.gates| > 2 ==> Gate(h.op[n + 2], h.arg0[n + 2], h.arg1[n + 2]) == plan.gates[2])
  {
    var n := g.Size();
    if |plan.gates| > 0 { RewrittenNode(g, root, plan, n); }
    if |plan.gates| > 1 { RewrittenNode(g, root, plan, n + 1); }
    if |plan.gates| > 2 { RewrittenNode(g, root, plan, n + 2); }
  }

  /** Old nodes keep their opcodes, so signals stay signals and constants keep their values. */
  lemma OldNodes(g: GraphBody, root: u32, plan: Plan)
    requires g.Shaped() && Rewritten(g, root, plan).Shaped()
    ensures forall i: nat :: Signal(g, i) ==> Signal(Rewritten(g, root, plan), i)
    ensures forall i: nat, value: bool :: IsConst(g, i, value) ==> IsConst(Rewritten(g, root, plan), i, value)
  {
    var h := Rewritten(g, root, plan);
    forall i: nat | i < g.Size()
      ensures h.op[i] == g.op[i] && (g.op[i] == Const ==> h.arg0[i] == g.arg0[i])
    {
      RewrittenNode(g, root, plan, i);
    }
  }

  /** A match whose rewritten graph still fits the engine's index type. */
  ghost predicate Rewrites(g: GraphBody, rule: RuleId, root: u32, rest: seq<u32>)
  {
    g.Shaped() && Instance(g, rule, root, rest) && |rest| < MAX_MATCHED && RewrittenBy(g, rule, root, rest).Shaped()
  }

  ghost function ResultOf(g: GraphBody, rule: RuleId, root: u32, rest: seq<u32>): u32
    requires g.Shaped() && |rest| < MAX_MATCHED
  {
    PlanOf(g, rule, root, rest).result
  }

  ghost predicate Becomes(g: GraphBody, rule: RuleId, root: u32, rest: seq<u32>)
    requires Rewrites(g, rule, root, rest)
  {
    RightSide(RewrittenBy(g, rule, root, rest), rule, root, rest, ResultOf(g, rule, root, rest))
  }

  lemma FoldsBecome(g: GraphBody, rule: RuleId, root: u32, rest: seq<u32>)
    requires Rewrites(g, rule, root, rest) && AsU16(rule) <= 12
    ensures Becomes(g, rule, root, rest)
  {
    OldNodes(g, root, PlanOf(g, rule, root, rest));
    Appended(g, root, PlanOf(g, rule, root, rest));
  }

  lemma ReshapesBecome(g: GraphBody, rule: RuleId, root: u32, rest: seq<u32>)
    requires Rewrites(g, rule, root, rest) && 12 < AsU16(rule) <= 22
    ensures Becomes(g, rule, root, rest)
  {
    var h, n := RewrittenBy(g, rule, root, rest), g.Size();
    OldNodes(g, root, PlanOf(g, rule, root, rest));
    Appended(g, root, PlanOf(g, rule, root, rest));
    match rule
    case AssociateAndLeft => assert IsPair(h, And, n, rest[1], rest[2]);
    case AssociateOrLeft => assert IsPair(h, Or, n, rest[1], rest[2]);
    case AssociateAndRight => assert IsPair(h, And, n, rest[2], rest[3]);
    case AssociateOrRight => assert IsPair(h, Or, n, rest[2], rest[3]);
    case DeMorganNotAnd | DeMorganNotOr => assert IsNot(h, n, rest[1]) && IsNot(h, n + 1, rest[2]);
    case DeMorganOrNots => assert IsPair(h, And, n, rest[2], rest[3]);
    case DeMorganAndNots => assert IsPair(h, Or, n, rest[2], rest[3]);
    case _ =>
  }

  lemma DistributionBecomes(g: GraphBody, rule: RuleId, root: u32, rest: seq<u32>)
    requires Rewrites(g, rule, root, rest) && 22 < AsU16(rule) <= 26
    ensures Becomes(g, rule, root, rest)
  {
    var h, n := RewrittenBy(g, rule, root, rest), g.Size();
    OldNodes(g, root, PlanOf(g, rule, root, rest));
    Appended(g, root, PlanOf(g, rule, root, rest));
    match rule
    case DistributeOrFactor => assert IsPair(h, Or, n, rest[3], rest[4]);
    case DistributeAndFactor => assert IsPair(h, And, n, rest[3], rest[4]);
    case DistributeOrExpand => assert IsPair(h, And, n, rest[1], rest[2]) && IsPair(h, And, n + 1, rest[1], rest[3]);
    case DistributeAndExpand => assert IsPair(h, Or, n, rest[1], rest[2]) && IsPair(h, Or, n + 1, rest[1], rest[3]);
  }

  lemma ConsensusBecomes(g: GraphBody, rule: RuleId, root: u32, rest: seq<u32>)
    requires Rewrites(g, rule, root, rest) && 26 < AsU16(rule) <= 30
    ensures Becomes(g, rule, root, rest)
  {
    var h, n := RewrittenBy(g, rule, root, rest), g.Size();
    OldNodes(g, root, PlanOf(g, rule, root, rest));
    Appended(g, root, PlanOf(g, rule, root, rest));
    match rule
    case ConsensusOrAdd => assert IsPair(h, And, n, rest[3], rest[4]);
    case ConsensusAndAdd => assert IsPair(h, Or, n, rest[3], rest[4]);
    case _ =>
  }

  lemma ExpandersBecome(g: GraphBody, rule: RuleId, root: u32, rest: seq<u32>)
    requires Rewrites(g, rule, root, rest) && 30 < AsU16(rule)
    ensures Becomes(g, rule, root, rest)
  {
    var h, n := RewrittenBy(g, rule, root, rest), g.Size();
    OldNodes(g, root, PlanOf(g, rule, root, rest));
    Appended(g, root, PlanOf(g, rule, root, rest));
    match rule
    case DoubleNegationInverse => assert IsNot(h, n, root);
    case AbsorbOrAndInverse => assert IsPair(h, And, n, root, root);
    case AbsorbAndOrInverse => assert IsPair(h, Or, n, root, root);
    case _ =>
  }

  /**
   * What a rewrite builds, for all 44 rules: the node that stands for the root is the right-hand side of the
   * rule's law over the matched operands, in that order. Nothing else is appended, and unused operands are blank.
   */
  lemma ReplacementIs(g: GraphBody, rule: RuleId, root: u32, rest: seq<u32>)
    requires Rewrites(g, rule, root, rest)
    ensures RightSide(RewrittenBy(g, rule, root, rest), rule, root, rest, ResultOf(g, rule, root, rest))
    ensures forall k :: 0 <= k < |PlanOf(g, rule, root, rest).gates| ==> Tidy(PlanOf(g, rule, root, rest).gates[k])
  {
    hide Instance, Rewritten, RightSide, Becomes;
    GatesTidy(rule, root, Candidate(rule, root, rest).matched, g.Size());
    if AsU16(rule) <= 12 {
      FoldsBecome(g, rule, root, rest);
    } else if AsU16(rule) <= 22 {
      ReshapesBecome(g, rule, root, rest);
    } else if AsU16(rule) <= 26 {
      DistributionBecomes(g, rule, root, rest);
    } else if AsU16(rule) <= 30 {
      ConsensusBecomes(g, rule, root, rest);
    } else {
      ExpandersBecome(g, rule, root, rest);
    }
    BecomesMeans(g, rule, root, rest);
  }

  lemma BecomesMeans(g: GraphBody, rule: RuleId, root: u32, rest: seq<u32>)
    requires Rewrites(g, rule, root, rest) && Becomes(g, rule, root, rest)
    ensures RightSide(RewrittenBy(g, rule, root, rest), rule, root, rest, ResultOf(g, rule, root, rest))
  {
  }

  lemma GatesTidy(rule: RuleId, root: u32, m: seq<u32>, n: u32)
    requires |m| == MAX_MATCHED && n < 0x7FFF_FFFF
    ensures forall gate :: gate in ReplacementPlan(rule, root, m, n).gates ==> Tidy(gate)
  {
  }

  // ---- the inverse law ---------------------------------------------------------------------

  /** The lowest constant of a value, if there is one. */
  function Lowest(h: GraphBody, value: bool): u32
    requires h.Shaped()
  {
    var at := Attempts.LowestBelow(h, value, h.Size());
    if at < 0 then 0 else at
  }

  lemma LowestIsFirst(h: GraphBody, value: bool, i: nat)
    requires h.Shaped() && IsConst(h, i, value)
    ensures FirstConst(h, value, Lowest(h, value))
  {
    assert i < h.Size();
  }

  /** The negation a consensus was drawn over, if `rest` binds one. */
  ghost function Negation(h: GraphBody, op: OpCode, rest: seq<u32>): u32
    requires h.Shaped() && op.UsesArg1() && |rest| == 7
  {
    if exists na: nat :: ConsensusTerms(h, op, rest[2], rest[3], rest[4], rest[5], rest[6], na) then
      var na: nat :| ConsensusTerms(h, op, rest[2], rest[3], rest[4], rest[5], rest[6], na); na
    else 0
  }

  /** The bindings under which the inverse rule matches the replacement, the first appended gate being node `n`. */
  ghost function Back(h: GraphBody, rule: RuleId, root: u32, rest: seq<u32>, n: u32): seq<u32>
    requires h.Shaped() && n <= h.Size()
  {
    match rule
    case AndFalse | OrTrue => rest
    case AndTrue | NotTrue => [Lowest(h, true)]
    case OrFalse | NotFalse => [Lowest(h, false)]
    case AndIdempotent | OrIdempotent | DoubleNegation => []
    case AndComplement | OrComplement | AndComplementInverse | OrComplementInverse => rest
    case AbsorbOrAnd | AbsorbAndOr => if |rest| == 3 then [rest[0]] else []
    case CommuteAnd | CommuteOr => if |rest| == 2 then [rest[1], rest[0]] else []
    case AssociateAndLeft | AssociateOrLeft | AssociateAndRight | AssociateOrRight =>
      if |rest| == 4 then [n, rest[1], rest[2], rest[3]] else []
    case DeMorganNotAnd | DeMorganNotOr => if |rest| == 3 then [n, n + 1, rest[1], rest[2]] else []
    case DeMorganOrNots | DeMorganAndNots => if |rest| == 4 then [n, rest[2], rest[3]] else []
    case DistributeOrFactor | DistributeAndFactor => if |rest| == 5 then [n, rest[2], rest[3], rest[4]] else []
    case DistributeOrExpand | DistributeAndExpand =>
      if |rest| == 4 then [n, n + 1, rest[1], rest[2], rest[3]] else []
    case ConsensusOrAdd | ConsensusAndAdd =>
      if |rest| == 6 then [root, n, rest[0], rest[1], rest[2], rest[3], rest[4]] else []
    case ConsensusOrRemove => if |rest| == 7 then rest[2..] + [Negation(h, And, rest)] else []
    case ConsensusAndRemove => if |rest| == 7 then rest[2..] + [Negation(h, Or, rest)] else []
    case AndFalseInverse | OrTrueInverse | AndIdempotentInverse | OrIdempotentInverse => [root]
    case AndTrueInverse | OrFalseInverse => rest + [root]
    case NotFalseInverse | NotTrueInverse => rest
    case DoubleNegationInverse => [n, root]
    case AbsorbOrAndInverse | AbsorbAndOrInverse => [root, n, root]
  }

  /** Where the enumerator's own restrictions keep the inverse from being offered. */
  predicate Reversible(rule: RuleId, root: nat, rest: seq<nat>)
  {
    match rule
    case DistributeOrExpand | DistributeAndExpand => |rest| == 4 && rest[1] != rest[2] && rest[1] != rest[3]
    case ConsensusOrAdd | ConsensusAndAdd => |rest| == 6 && rest[0] != rest[1]
    case AndComplementInverse | OrComplementInverse => |rest| == 2 && rest[0] != root
    case _ => true
  }

  ghost predicate Undoable(g: GraphBody, rule: RuleId, root: u32, rest: seq<u32>)
    requires Rewrites(g, rule, root, rest)
  {
    var h := RewrittenBy(g, rule, root, rest);
    Instance(h, InverseRule(rule), ResultOf(g, rule, root, rest), Back(h, rule, root, rest, g.Size()))
  }

  /** A node that does not read the root is as it was. */
  lemma Untouched(g: GraphBody, root: u32, plan: Plan, i: nat)
    requires g.Shaped() && Rewritten(g, root, plan).Shaped() && i < g.Size() && !g.Reads(i, root)
    ensures var h := Rewritten(g, root, plan);
            && (forall a: nat :: IsNot(g, i, a) ==> IsNot(h, i, a))
            && (forall op: OpCode, a: nat, b: nat :: op.UsesArg1() && IsPair(g, op, i, a, b) ==> IsPair(h, op, i, a, b))
  {
    OldNodes(g, root, plan);
    RewrittenNode(g, root, plan, i);
  }

  lemma UnitsUndoable(g: GraphBody, rule: RuleId, root: u32, rest: seq<u32>)
    requires Rewrites(g, rule, root, rest) && (rule.AndTrue? || rule.OrFalse?)
    ensures Undoable(g, rule, root, rest)
  {
    hide Rewritten, AsU16;
    var h := RewrittenBy(g, rule, root, rest);
    OldNodes(g, root, PlanOf(g, rule, root, rest));
    LowestIsFirst(h, rule.AndTrue?, rest[0]);
  }

  lemma NegationsUndoable(g: GraphBody, rule: RuleId, root: u32, rest: seq<u32>)
    requires Rewrites(g, rule, root, rest) && (rule.NotTrue? || rule.NotFalse?)
    ensures Undoable(g, rule, root, rest)
  {
    hide Rewritten, AsU16;
    var h, plan := RewrittenBy(g, rule, root, rest), PlanOf(g, rule, root, rest);
    OldNodes(g, root, plan);
    Appended(g, root, plan);
    LowestIsFirst(h, rule.NotTrue?, rest[0]);
  }

  lemma AnnihilatorsUndoable(g: GraphBody, rule: RuleId, root: u32, rest: seq<u32>)
    requires Rewrites(g, rule, root, rest) && (rule.AndFalse? || rule.OrTrue?)
    ensures Undoable(g, rule, root, rest)
  {
    hide Rewritten, AsU16;
    OldNodes(g, root, PlanOf(g, rule, root, rest));
  }

  lemma FoldsUndoable(g: GraphBody, rule: RuleId, root: u32, rest: seq<u32>)
    requires Rewrites(g, rule, root, rest)
    requires rule.AndIdempotent? || rule.OrIdempotent? || rule.DoubleNegation? || rule.CommuteAnd? || rule.CommuteOr?
    ensures Undoable(g, rule, root, rest)
  {
    hide Rewritten, AsU16;
    OldNodes(g, root, PlanOf(g, rule, root, rest));
    Appended(g, root, PlanOf(g, rule, root, rest));
  }

  lemma ComplementsUndoable(g: GraphBody, r: seq<nat>, rule: RuleId, root: u32, rest: seq<u32>)
    requires Rewrites(g, rule, root, rest) && IsRank(g, r) && (rule.AndComplement? || rule.OrComplement?)
    ensures Undoable(g, rule, root, rest)
  {
    hide Rewritten;
    var plan := PlanOf(g, rule, root, rest);
    Appended(g, root, plan);
    FoldBelow(g, r, rule, root, rest);
    BelowDoesNotRead(g, r, rest[1], root);
    Untouched(g, root, plan, rest[1]);
  }

  lemma AssociationUndoable(g: GraphBody, rule: RuleId, root: u32, rest: seq<u32>)
    requires Rewrites(g, rule, root, rest)
    requires rule.AssociateAndLeft? || rule.AssociateAndRight? || rule.AssociateOrLeft? || rule.AssociateOrRight?
    ensures Undoable(g, rule, root, rest)
  {
    hide Rewritten, AsU16;
    OldNodes(g, root, PlanOf(g, rule, root, rest));
    Appended(g, root, PlanOf(g, rule, root, rest));
  }

  lemma AbsorptionUndoable(g: GraphBody, rule: RuleId, root: u32, rest: seq<u32>)
    requires Rewrites(g, rule, root, rest) && (rule.AbsorbOrAnd? || rule.AbsorbAndOr?)
    ensures Undoable(g, rule, root, rest)
  {
    hide Rewritten, AsU16;
    OldNodes(g, root, PlanOf(g, rule, root, rest));
  }

  lemma DeMorganUndoable(g: GraphBody, rule: RuleId, root: u32, rest: seq<u32>)
    requires Rewrites(g, rule, root, rest)
    requires rule.DeMorganNotAnd? || rule.DeMorganNotOr? || rule.DeMorganOrNots? || rule.DeMorganAndNots?
    ensures Undoable(g, rule, root, rest)
  {
    hide Rewritten, AsU16;
    OldNodes(g, root, PlanOf(g, rule, root, rest));
    Appended(g, root, PlanOf(g, rule, root, rest));
  }

  lemma FactorUndoable(g: GraphBody, rule: RuleId, root: u32, rest: seq<u32>)
    requires Rewrites(g, rule, root, rest) && (rule.DistributeOrFactor? || rule.DistributeAndFactor?)
    ensures Undoable(g, rule, root, rest)
  {
    hide Rewritten, AsU16;
    OldNodes(g, root, PlanOf(g, rule, root, rest));
    Appended(g, root, PlanOf(g, rule, root, rest));
  }

  lemma ExpansionUndoable(g: GraphBody, rule: RuleId, root: u32, rest: seq<u32>)
    requires Rewrites(g, rule, root, rest) && (rule.DistributeOrExpand? || rule.DistributeAndExpand?)
    ensures Undoable(g, rule, root, rest) <==> Reversible(rule, root, rest)
  {
    hide Rewritten, AsU16;
    OldNodes(g, root, PlanOf(g, rule, root, rest));
    Appended(g, root, PlanOf(g, rule, root, rest));
  }

  /** The root and the nodes of its match are as they were. */
  lemma MatchUntouched(g: GraphBody, r: seq<nat>, rule: RuleId, root: u32, rest: seq<u32>, i: nat)
    requires Rewrites(g, rule, root, rest) && IsRank(g, r) && 22 < AsU16(rule) <= 30 && (i == root || i in rest)
    ensures i < g.Size() && !g.Reads(i, root)
  {
    LatticeBelow(g, r, rule, root, rest);
    BelowDoesNotRead(g, r, i, root);
  }

  lemma BinaryUntouched(g: GraphBody, root: u32, plan: Plan, op: OpCode, i: nat, a: nat, b: nat)
    requires g.Shaped() && Rewritten(g, root, plan).Shaped() && op.UsesArg1()
    requires IsBinary(g, op, i, a, b) && !g.Reads(i, root)
    ensures IsBinary(Rewritten(g, root, plan), op, i, a, b)
  {
    hide Rewritten;
    Untouched(g, root, plan, i);
  }

  function ConsensusOp(rule: RuleId): OpCode { if rule.ConsensusOrAdd? || rule.ConsensusOrRemove? then Or else And }

  lemma ConsensusMatch(g: GraphBody, rule: RuleId, root: nat, rest: seq<nat>)
    requires g.Shaped() && 26 < AsU16(rule) <= 30
    ensures Instance(g, rule, root, rest) <==>
            if rule.ConsensusOrAdd? || rule.ConsensusAndAdd?
            then |rest| == 6 && ConsensusAddInstance(g, ConsensusOp(rule), root, rest)
            else |rest| == 7 && ConsensusRemoveInstance(g, ConsensusOp(rule), root, rest)
    ensures 26 < AsU16(InverseRule(rule)) <= 30 && ConsensusOp(InverseRule(rule)) == ConsensusOp(rule)
    ensures (rule.ConsensusOrAdd? || rule.ConsensusAndAdd?)
            != (InverseRule(rule).ConsensusOrAdd? || InverseRule(rule).ConsensusAndAdd?)
  {
  }

  lemma ConsensusPlan(g: GraphBody, rule: RuleId, root: u32, rest: seq<u32>)
    requires g.Shaped() && 26 < AsU16(rule) <= 30 && |rest| < MAX_MATCHED
    ensures var n, op := g.Size(), ConsensusOp(rule);
            PlanOf(g, rule, root, rest) ==
            if rule.ConsensusOrAdd? || rule.ConsensusAndAdd?
            then Plan([Gate(Dual(op), Candidate(rule, root, rest).matched[4], Candidate(rule, root, rest).matched[5]),
                       Gate(op, root, n)], n + 1)
            else Plan([], Candidate(rule, root, rest).matched[1])
  {
  }

  lemma RemovalMatches(h: GraphBody, op: OpCode, result: nat, root: nat, term: nat, rest: seq<nat>)
    requires h.Shaped() && op.UsesArg1() && |rest| == 6
    requires IsBinary(h, op, result, root, term) && IsBinary(h, Dual(op), term, rest[3], rest[4])
    requires ConsensusAddInstance(h, op, root, rest)
    ensures ConsensusRemoveInstance(h, op, result, [root, term, rest[0], rest[1], rest[2], rest[3], rest[4]]) <==>
            rest[0] != rest[1]
  {
    var back := [root, term, rest[0], rest[1], rest[2], rest[3], rest[4]];
    assert ConsensusTerms(h, Dual(op), back[2], back[3], back[4], back[5], back[6], rest[5]);
  }

  lemma ConsensusAddUndoable(g: GraphBody, r: seq<nat>, rule: RuleId, root: u32, rest: seq<u32>)
    requires Rewrites(g, rule, root, rest) && IsRank(g, r) && (rule.ConsensusOrAdd? || rule.ConsensusAndAdd?)
    ensures Undoable(g, rule, root, rest) <==> Reversible(rule, root, rest)
  {
    hide Rewritten, Instance, ReplacementPlan;
    var h, plan, op := RewrittenBy(g, rule, root, rest), PlanOf(g, rule, root, rest), ConsensusOp(rule);
    ConsensusMatch(g, rule, root, rest);
    ConsensusPlan(g, rule, root, rest);
    OldNodes(g, root, plan);
    Appended(g, root, plan);
    MatchUntouched(g, r, rule, root, rest, root);
    MatchUntouched(g, r, rule, root, rest, rest[0]);
    MatchUntouched(g, r, rule, root, rest, rest[1]);
    MatchUntouched(g, r, rule, root, rest, rest[5]);
    BinaryUntouched(g, root, plan, op, root, rest[0], rest[1]);
    BinaryUntouched(g, root, plan, Dual(op), rest[0], rest[2], rest[3]);
    BinaryUntouched(g, root, plan, Dual(op), rest[1], rest[5], rest[4]);
    Untouched(g, root, plan, rest[5]);
    assert IsBinary(h, op, plan.result, root, g.Size()) && IsBinary(h, Dual(op), g.Size(), rest[3], rest[4]);
    RemovalMatches(h, op, plan.result, root, g.Size(), rest);
    ConsensusMatch(h, InverseRule(rule), plan.result, Back(h, rule, root, rest, g.Size()));
  }

  lemma ConsensusRemoveUndoable(g: GraphBody, r: seq<nat>, rule: RuleId, root: u32, rest: seq<u32>)
    requires Rewrites(g, rule, root, rest) && IsRank(g, r) && (rule.ConsensusOrRemove? || rule.ConsensusAndRemove?)
    ensures Undoable(g, rule, root, rest)
  {
    hide Rewritten, Instance, ReplacementPlan;
    var h, plan, op := RewrittenBy(g, rule, root, rest), PlanOf(g, rule, root, rest), ConsensusOp(rule);
    ConsensusMatch(g, rule, root, rest);
    ConsensusPlan(g, rule, root, rest);
    var na: nat :| ConsensusTerms(g, Dual(op), rest[2], rest[3], rest[4], rest[5], rest[6], na);
    MatchUntouched(g, r, rule, root, rest, rest[0]);
    MatchUntouched(g, r, rule, root, rest, rest[2]);
    MatchUntouched(g, r, rule, root, rest, rest[3]);
    NegationUntouched(g, r, rule, root, rest, na);
    BinaryUntouched(g, root, plan, op, rest[0], rest[2], rest[3]);
    BinaryUntouched(g, root, plan, Dual(op), rest[2], rest[4], rest[5]);
    BinaryUntouched(g, root, plan, Dual(op), rest[3], na, rest[6]);
    Untouched(g, root, plan, na);
    assert ConsensusTerms(h, Dual(op), rest[2], rest[3], rest[4], rest[5], rest[6], na);
    ConsensusMatch(h, InverseRule(rule), plan.result, Back(h, rule, root, rest, g.Size()));
  }

  lemma NegationUntouched(g: GraphBody, r: seq<nat>, rule: RuleId, root: u32, rest: seq<u32>, na: nat)
    requires Rewrites(g, rule, root, rest) && IsRank(g, r) && (rule.ConsensusOrRemove? || rule.ConsensusAndRemove?)
    requires ConsensusTerms(g, Dual(ConsensusOp(rule)), rest[2], rest[3], rest[4], rest[5], rest[6], na)
    ensures na < g.Size() && !g.Reads(na, root)
  {
    hide Rewritten, ReplacementPlan;
    LatticeBelow(g, r, rule, root, rest);
    BinaryBelow(g, r, Dual(ConsensusOp(rule)), rest[3], na, rest[6]);
    BelowDoesNotRead(g, r, na, root);
  }

  lemma UnfoldsUndoable(g: GraphBody, rule: RuleId, root: u32, rest: seq<u32>)
    requires Rewrites(g, rule, root, rest)
    requires rule.AndFalseInverse? || rule.OrTrueInverse? || rule.AndTrueInverse? || rule.OrFalseInverse?
             || rule.NotFalseInverse? || rule.NotTrueInverse?
    ensures Undoable(g, rule, root, rest)
  {
    hide Rewritten, AsU16;
    var h := RewrittenBy(g, rule, root, rest);
    OldNodes(g, root, PlanOf(g, rule, root, rest));
    Appended(g, root, PlanOf(g, rule, root, rest));
    match rule
    case AndFalseInverse => assert IsBinary(h, And, g.Size(), root, root);
    case OrTrueInverse => assert IsBinary(h, Or, g.Size(), root, root);
    case _ =>
  }

  lemma GrowthUndoable(g: GraphBody, rule: RuleId, root: u32, rest: seq<u32>)
    requires Rewrites(g, rule, root, rest)
    requires rule.AndIdempotentInverse? || rule.OrIdempotentInverse? || rule.DoubleNegationInverse?
    ensures Undoable(g, rule, root, rest)
  {
    hide Rewritten, AsU16;
    OldNodes(g, root, PlanOf(g, rule, root, rest));
    Appended(g, root, PlanOf(g, rule, root, rest));
  }

  lemma AbsorbedUndoable(g: GraphBody, rule: RuleId, root: u32, rest: seq<u32>)
    requires Rewrites(g, rule, root, rest) && (rule.AbsorbOrAndInverse? || rule.AbsorbAndOrInverse?)
    ensures Undoable(g, rule, root, rest)
  {
    hide Rewritten, AsU16;
    OldNodes(g, root, PlanOf(g, rule, root, rest));
    Appended(g, root, PlanOf(g, rule, root, rest));
  }

  lemma WitnessesUndoable(g: GraphBody, rule: RuleId, root: u32, rest: seq<u32>)
    requires Rewrites(g, rule, root, rest) && rule.ComplementInverse()
    ensures Undoable(g, rule, root, rest) <==> Reversible(rule, root, rest)
  {
    hide Rewritten, AsU16;
    WitnessReplaced(g, rule, root, rest);
  }

  /** The new gate over witness and operand, and the witness, which now reads the gate if it read the constant. */
  lemma WitnessReplaced(g: GraphBody, rule: RuleId, root: u32, rest: seq<u32>)
    requires Rewrites(g, rule, root, rest) && rule.ComplementInverse()
    ensures |rest| == 2 && ResultOf(g, rule, root, rest) == g.Size() != rest[0]
    ensures IsPair(RewrittenBy(g, rule, root, rest), if rule.AndComplementInverse? then And else Or, g.Size(), rest[0],
                   rest[1])
    ensures IsNot(RewrittenBy(g, rule, root, rest), rest[1], rest[0]) <==> rest[0] != root
  {
    hide Rewritten, AsU16;
    var plan := PlanOf(g, rule, root, rest);
    OldNodes(g, root, plan);
    Appended(g, root, plan);
    RewrittenNode(g, root, plan, rest[1]);
  }

  /**
   * The inverse law, for all 44 rules: in the rewritten graph the inverse rule matches at the node that stands
   * for the root, over the same operands; only the enumerator's own restrictions can keep it from being offered.
   */
  lemma InverseMatches(g: GraphBody, rule: RuleId, root: u32, rest: seq<u32>)
    requires Rewrites(g, rule, root, rest) && Acyclic(g)
    ensures var h := RewrittenBy(g, rule, root, rest);
            Instance(h, InverseRule(rule), ResultOf(g, rule, root, rest), Back(h, rule, root, rest, g.Size()))
            <==> Reversible(rule, root, rest)
  {
    hide Instance, Rewritten, Back, InverseRule, ReplacementPlan, AsU16;
    var r :| IsRank(g, r);
    match rule
    case AndFalse | OrTrue => AnnihilatorsUndoable(g, rule, root, rest);
    case AndTrue | OrFalse => UnitsUndoable(g, rule, root, rest);
    case NotFalse | NotTrue => NegationsUndoable(g, rule, root, rest);
    case AndComplement | OrComplement => ComplementsUndoable(g, r, rule, root, rest);
    case AndIdempotent | OrIdempotent | DoubleNegation | CommuteAnd | CommuteOr =>
      FoldsUndoable(g, rule, root, rest);
    case AssociateAndLeft | AssociateAndRight | AssociateOrLeft | AssociateOrRight =>
      AssociationUndoable(g, rule, root, rest);
    case AbsorbOrAnd | AbsorbAndOr => AbsorptionUndoable(g, rule, root, rest);
    case DeMorganNotAnd | DeMorganNotOr | DeMorganOrNots | DeMorganAndNots => DeMorganUndoable(g, rule, root, rest);
    case DistributeOrFactor | DistributeAndFactor => FactorUndoable(g, rule, root, rest);
    case DistributeOrExpand | DistributeAndExpand => ExpansionUndoable(g, rule, root, rest);
    case ConsensusOrAdd | ConsensusAndAdd => ConsensusAddUndoable(g, r, rule, root, rest);
    case ConsensusOrRemove | ConsensusAndRemove => ConsensusRemoveUndoable(g, r, rule, root, rest);
    case AndComplementInverse | OrComplementInverse => WitnessesUndoable(g, rule, root, rest);
    case AndIdempotentInverse | OrIdempotentInverse | DoubleNegationInverse => GrowthUndoable(g, rule, root, rest);
    case AbsorbOrAndInverse | AbsorbAndOrInverse => AbsorbedUndoable(g, rule, root, rest);
    case _ => UnfoldsUndoable(g, rule, root, rest);
  }

  lemma SimplifierOfInverse(rule: RuleId)
    requires AsU16(rule) <= 12
    ensures InverseRule(InverseRule(rule)) == rule
  {
    match rule {
      case AndFalse => case AndTrue => case OrFalse => case OrTrue => case NotFalse => case NotTrue =>
      case AndIdempotent => case OrIdempotent => case AndComplement => case OrComplement => case DoubleNegation =>
      case CommuteAnd => case CommuteOr =>
    }
  }

  lemma ReshaperOfInverse(rule: RuleId)
    requires 12 < AsU16(rule) <= 30
    ensures InverseRule(InverseRule(rule)) == rule
  {
    match rule {
      case AssociateAndLeft => case AssociateAndRight => case AssociateOrLeft => case AssociateOrRight =>
      case AbsorbOrAnd => case AbsorbAndOr => case DeMorganNotAnd => case DeMorganNotOr => case DeMorganOrNots =>
      case DeMorganAndNots => case DistributeOrFactor => case DistributeOrExpand => case DistributeAndFactor =>
      case DistributeAndExpand => case ConsensusOrAdd => case ConsensusOrRemove => case ConsensusAndAdd =>
      case ConsensusAndRemove =>
    }
  }

  lemma ExpanderOfInverse(rule: RuleId)
    requires 30 < AsU16(rule)
    ensures InverseRule(InverseRule(rule)) == rule
  {
    match rule {
      case AndFalseInverse => case AndTrueInverse => case OrFalseInverse => case OrTrueInverse =>
      case NotFalseInverse => case NotTrueInverse => case AndIdempotentInverse => case OrIdempotentInverse =>
      case AndComplementInverse => case OrComplementInverse => case DoubleNegationInverse =>
      case AbsorbOrAndInverse => case AbsorbAndOrInverse =>
    }
  }

  /** Undoing is mutual. */
  lemma InverseOfInverse(rule: RuleId)
    ensures InverseRule(InverseRule(rule)) == rule
  {
    hide InverseRule, AsU16;
    if AsU16(rule) <= 12 {
      SimplifierOfInverse(rule);
    } else if AsU16(rule) <= 30 {
      ReshaperOfInverse(rule);
    } else {
      ExpanderOfInverse(rule);
    }
  }

  lemma FreelyReversible(g: GraphBody, rule: RuleId, root: u32, rest: seq<u32>)
    requires Rewrites(g, rule, root, rest)
    requires !rule.DistributeOrFactor? && !rule.DistributeAndFactor? && !rule.ConsensusOrRemove?
             && !rule.ConsensusAndRemove? && !rule.AndComplement? && !rule.OrComplement?
    ensures var h := RewrittenBy(g, rule, root, rest);
            Reversible(InverseRule(rule), ResultOf(g, rule, root, rest), Back(h, rule, root, rest, g.Size()))
  {
    hide Rewritten, Instance, ReplacementPlan, Back, AsU16;
  }

  lemma FactorReversible(g: GraphBody, rule: RuleId, root: u32, rest: seq<u32>)
    requires Rewrites(g, rule, root, rest) && (rule.DistributeOrFactor? || rule.DistributeAndFactor?)
    ensures var h := RewrittenBy(g, rule, root, rest);
            Reversible(InverseRule(rule), ResultOf(g, rule, root, rest), Back(h, rule, root, rest, g.Size()))
  {
    hide Rewritten, ReplacementPlan, AsU16;
  }

  lemma RemovalReversible(g: GraphBody, rule: RuleId, root: u32, rest: seq<u32>)
    requires Rewrites(g, rule, root, rest) && (rule.ConsensusOrRemove? || rule.ConsensusAndRemove?)
    ensures var h := RewrittenBy(g, rule, root, rest);
            Reversible(InverseRule(rule), ResultOf(g, rule, root, rest), Back(h, rule, root, rest, g.Size()))
  {
    hide Rewritten, Instance, ReplacementPlan;
    ConsensusMatch(g, rule, root, rest);
  }

  lemma ComplementReversible(g: GraphBody, rule: RuleId, root: u32, rest: seq<u32>)
    requires Rewrites(g, rule, root, rest) && (rule.AndComplement? || rule.OrComplement?)
    ensures var h := RewrittenBy(g, rule, root, rest);
            Reversible(InverseRule(rule), ResultOf(g, rule, root, rest), Back(h, rule, root, rest, g.Size()))
  {
    hide Rewritten, AsU16;
  }

  /** The inverse can itself be undone whenever it came from a rule. */
  lemma BackReversible(g: GraphBody, rule: RuleId, root: u32, rest: seq<u32>)
    requires Rewrites(g, rule, root, rest)
    ensures var h := RewrittenBy(g, rule, root, rest);
            Reversible(InverseRule(rule), ResultOf(g, rule, root, rest), Back(h, rule, root, rest, g.Size()))
  {
    hide Rewritten, Instance, ReplacementPlan, Back, InverseRule, Reversible, AsU16;
    match rule
    case DistributeOrFactor | DistributeAndFactor => FactorReversible(g, rule, root, rest);
    case ConsensusOrRemove | ConsensusAndRemove => RemovalReversible(g, rule, root, rest);
    case AndComplement | OrComplement => ComplementReversible(g, rule, root, rest);
    case _ => FreelyReversible(g, rule, root, rest);
  }

  lemma RewrittenFits(g: GraphBody, rule: RuleId, root: u32, rest: seq<u32>)
    requires WellFormed(g) && |rest| < MAX_MATCHED
    ensures RewrittenBy(g, rule, root, rest).Shaped()
  {
    PlanAppendsExtraNodes(rule, root, Candidate(rule, root, rest).matched, g.Size());
  }

  /** After the inverse, `rule` matches again at the node that then stands for `result`. */
  ghost predicate Rebuilds(h: GraphBody, rule: RuleId, result: u32, back: seq<u32>)
  {
    && Rewrites(h, InverseRule(rule), result, back)
    && var again := RewrittenBy(h, InverseRule(rule), result, back);
       Instance(again, rule, ResultOf(h, InverseRule(rule), result, back),
                Back(again, InverseRule(rule), result, back, h.Size()))
  }

  lemma InverseRebuilds(h: GraphBody, rule: RuleId, result: u32, back: seq<u32>)
    requires WellFormed(h) && Acyclic(h) && Instance(h, InverseRule(rule), result, back)
    requires Reversible(InverseRule(rule), result, back)
    ensures Rebuilds(h, rule, result, back)
  {
    hide Instance, Rewritten, ReplacementPlan, Back, Reversible, InverseRule;
    InstanceInRange(h, InverseRule(rule), result, back);
    RewrittenFits(h, InverseRule(rule), result, back);
    InverseMatches(h, InverseRule(rule), result, back);
    InverseOfInverse(rule);
  }

  /**
   * Rewriting and undoing rebuilds the match: from an acyclic graph, apply a reversible rule, then its inverse at
   * the node that stands for the root; the rule matches again at the node that then stands there.
   */
  lemma UndoRebuilds(g: GraphBody, rule: RuleId, root: u32, rest: seq<u32>)
    requires WellFormed(g) && Acyclic(g) && Instance(g, rule, root, rest) && |rest| < MAX_MATCHED
    requires WitnessAvoidsRoot(g, rule, root, rest) && Reversible(rule, root, rest)
    requires g.Size() + rule.ExtraNodes() <= g.capacity
    ensures var h := RewrittenBy(g, rule, root, rest);
            && WellFormed(h) && Acyclic(h)
            && Rebuilds(h, rule, ResultOf(g, rule, root, rest), Back(h, rule, root, rest, g.Size()))
  {
    hide Instance, Rewritten, ReplacementPlan, Back, Reversible, InverseRule;
    var h := RewrittenBy(g, rule, root, rest);
    RewrittenWellFormed(g, rule, root, rest);
    MatchIndependent(g, rule, root, rest);
    IndependentRewriteAcyclic(g, rule, root, rest);
    InverseMatches(g, rule, root, rest);
    BackReversible(g, rule, root, rest);
    InverseRebuilds(h, rule, ResultOf(g, rule, root, rest), Back(h, rule, root, rest, g.Size()));
  }
}

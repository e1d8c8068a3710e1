/** Every replacement computes what the matched root computes. */
module RuleSoundness {
  import opened Basics
  import opened Graphs
  import opened Semantics
  import opened Rules

  /**
   * The setting of every rule proof: `v` values the old nodes and the appended gates, and every old node
   * that does not read the root (so was not redirected) holds its own gate's value.
   */
  ghost predicate Setting(g: GraphBody, r: seq<nat>, x: Assignment, v: seq<bool>, root: nat)
    requires g.Shaped() && g.Closed()
  {
    && IsRank(g, r)
    && root < g.Size() <= |v|
    && forall i: nat :: i < g.Size() && !g.Reads(i, root) ==> Holds(g, x, v, i)
  }

  /** The appended gates hold their values, operands read directly from `v`. */
  ghost predicate GatesHold(gates: seq<Gate>, v: seq<bool>, n: nat)
  {
    && |v| == n + |gates|
    && forall k :: 0 <= k < |gates| ==> GateHolds(gates[k], v, n + k)
  }

  ghost predicate GateHolds(gate: Gate, v: seq<bool>, at: nat)
    requires at < |v|
  {
    match gate.op
    case And => gate.a < |v| && gate.b < |v| && v[at] == (v[gate.a] && v[gate.b])
    case Or => gate.a < |v| && gate.b < |v| && v[at] == (v[gate.a] || v[gate.b])
    case Not => gate.a < |v| && v[at] == !v[gate.a]
    case Const => v[at] == (gate.a != 0)
    case _ => false
  }

  /** A node ranked at or below the root does not read the root. */
  lemma BelowDoesNotRead(g: GraphBody, r: seq<nat>, i: nat, root: nat)
    requires g.Shaped() && IsRank(g, r) && i < g.Size() && root < g.Size() && r[i] <= r[root]
    ensures !g.Reads(i, root)
  {
    assert RankedAt(g, r, i);
  }

  lemma BinaryValue(g: GraphBody, r: seq<nat>, x: Assignment, v: seq<bool>, root: nat, op: OpCode, i: nat, a: nat,
                    b: nat)
    requires g.Shaped() && g.Closed() && op.UsesArg1()
    requires Setting(g, r, x, v, root) && IsBinary(g, op, i, a, b) && r[i] <= r[root]
    ensures v[i] == if op == And then v[a] && v[b] else v[a] || v[b]
    ensures r[a] < r[i] && r[b] < r[i]
  {
    BelowDoesNotRead(g, r, i, root);
    assert Holds(g, x, v, i) && RankedAt(g, r, i);
  }

  lemma NotValue(g: GraphBody, r: seq<nat>, x: Assignment, v: seq<bool>, root: nat, i: nat, a: nat)
    requires g.Shaped() && g.Closed()
    requires Setting(g, r, x, v, root) && IsNot(g, i, a) && r[i] <= r[root]
    ensures v[i] == !v[a] && r[a] < r[i]
  {
    BelowDoesNotRead(g, r, i, root);
    assert Holds(g, x, v, i) && RankedAt(g, r, i);
  }

  lemma ConstValue(g: GraphBody, r: seq<nat>, x: Assignment, v: seq<bool>, root: nat, i: nat, value: bool)
    requires g.Shaped() && g.Closed()
    requires Setting(g, r, x, v, root) && IsConst(g, i, value)
    ensures v[i] == value
  {
    assert !g.Reads(i, root);
  }

  /** Shorthand for the plan of a match. */
  ghost function PlanOf(g: GraphBody, rule: RuleId, root: u32, rest: seq<u32>): Plan
    requires g.Shaped() && |rest| < MAX_MATCHED
  {
    ReplacementPlan(rule, root, Candidate(rule, root, rest).matched, g.Size())
  }

  ghost predicate Replaces(g: GraphBody, r: seq<nat>, x: Assignment, v: seq<bool>, rule: RuleId, root: u32,
                           rest: seq<u32>)
    requires g.Shaped() && g.Closed() && |rest| < MAX_MATCHED
  {
    && Setting(g, r, x, v, root)
    && Instance(g, rule, root, rest)
    && GatesHold(PlanOf(g, rule, root, rest).gates, v, g.Size())
  }

  /** The node the plan puts in the root's place holds the root's value. */
  ghost predicate StandsFor(g: GraphBody, v: seq<bool>, rule: RuleId, root: u32, rest: seq<u32>)
    requires g.Shaped() && |rest| < MAX_MATCHED
  {
    var result := PlanOf(g, rule, root, rest).result;
    result < |v| && root < |v| && v[result] == v[root]
  }

  /** The first three gates of a plan hold, one fact each. */
  lemma PlanGates(g: GraphBody, r: seq<nat>, x: Assignment, v: seq<bool>, rule: RuleId, root: u32, rest: seq<u32>)
    requires g.Shaped() && g.Closed() && |rest| < MAX_MATCHED && Replaces(g, r, x, v, rule, root, rest)
    ensures var gates := PlanOf(g, rule, root, rest).gates;
            && |v| == g.Size() + |gates|
            && (|gates| > 0 ==> GateHolds(gates[0], v, g.Size()))
            && (|gates| > 1 ==> GateHolds(gates[1], v, g.Size() + 1))
            && (|gates| > 2 ==> GateHolds(gates[2], v, g.Size() + 2))
  {
  }

  /** Folding a constant operand of a binary gate. */
  lemma ConstantSound(g: GraphBody, r: seq<nat>, x: Assignment, v: seq<bool>, rule: RuleId, root: u32, rest: seq<u32>)
    requires g.Shaped() && g.Closed() && |rest| < MAX_MATCHED && Replaces(g, r, x, v, rule, root, rest)
    requires rule.AndFalse? || rule.AndTrue? || rule.OrFalse? || rule.OrTrue?
    ensures StandsFor(g, v, rule, root, rest)
  {
    PlanGates(g, r, x, v, rule, root, rest);
    var op := if rule.AndFalse? || rule.AndTrue? then And else Or;
    ConstValue(g, r, x, v, root, rest[0], rule.AndTrue? || rule.OrTrue?);
    if |rest| == 2 {
      BinaryValue(g, r, x, v, root, op, root, rest[0], rest[1]);
    } else {
      var o: nat :| IsBinary(g, op, root, rest[0], o);
      BinaryValue(g, r, x, v, root, op, root, rest[0], o);
    }
  }

  /** Folding a negated constant, and double negation. */
  lemma NegationSound(g: GraphBody, r: seq<nat>, x: Assignment, v: seq<bool>, rule: RuleId, root: u32, rest: seq<u32>)
    requires g.Shaped() && g.Closed() && |rest| < MAX_MATCHED && Replaces(g, r, x, v, rule, root, rest)
    requires rule.NotFalse? || rule.NotTrue? || rule.DoubleNegation?
    ensures StandsFor(g, v, rule, root, rest)
  {
    PlanGates(g, r, x, v, rule, root, rest);
    NotValue(g, r, x, v, root, root, rest[0]);
    if rule.DoubleNegation? {
      NotValue(g, r, x, v, root, rest[0], rest[1]);
    } else {
      ConstValue(g, r, x, v, root, rest[0], rule.NotTrue?);
    }
  }

  /** Idempotence and complements. */
  lemma RepeatSound(g: GraphBody, r: seq<nat>, x: Assignment, v: seq<bool>, rule: RuleId, root: u32, rest: seq<u32>)
    requires g.Shaped() && g.Closed() && |rest| < MAX_MATCHED && Replaces(g, r, x, v, rule, root, rest)
    requires rule.AndIdempotent? || rule.OrIdempotent? || rule.AndComplement? || rule.OrComplement?
    ensures StandsFor(g, v, rule, root, rest)
  {
    PlanGates(g, r, x, v, rule, root, rest);
    var op := if rule.AndIdempotent? || rule.AndComplement? then And else Or;
    if |rest| == 1 {
      BinaryValue(g, r, x, v, root, op, root, rest[0], rest[0]);
    } else {
      BinaryValue(g, r, x, v, root, op, root, rest[0], rest[1]);
      NotValue(g, r, x, v, root, rest[1], rest[0]);
    }
  }

  /** Commutation. */
  lemma CommuteSound(g: GraphBody, r: seq<nat>, x: Assignment, v: seq<bool>, rule: RuleId, root: u32, rest: seq<u32>)
    requires g.Shaped() && g.Closed() && |rest| < MAX_MATCHED && Replaces(g, r, x, v, rule, root, rest)
    requires rule.CommuteAnd? || rule.CommuteOr?
    ensures StandsFor(g, v, rule, root, rest)
  {
    PlanGates(g, r, x, v, rule, root, rest);
    BinaryValue(g, r, x, v, root, if rule.CommuteAnd? then And else Or, root, rest[0], rest[1]);
  }

  /** Association. */
  lemma AssociateSound(g: GraphBody, r: seq<nat>, x: Assignment, v: seq<bool>, rule: RuleId, root: u32, rest: seq<u32>)
    requires g.Shaped() && g.Closed() && |rest| < MAX_MATCHED && Replaces(g, r, x, v, rule, root, rest)
    requires rule.AssociateAndLeft? || rule.AssociateAndRight? || rule.AssociateOrLeft? || rule.AssociateOrRight?
    ensures StandsFor(g, v, rule, root, rest)
  {
    PlanGates(g, r, x, v, rule, root, rest);
    var op := if rule.AssociateAndLeft? || rule.AssociateAndRight? then And else Or;
    if rule.AssociateAndLeft? || rule.AssociateOrLeft? {
      BinaryValue(g, r, x, v, root, op, root, rest[1], rest[0]);
      BinaryValue(g, r, x, v, root, op, rest[0], rest[2], rest[3]);
    } else {
      BinaryValue(g, r, x, v, root, op, root, rest[0], rest[3]);
      BinaryValue(g, r, x, v, root, op, rest[0], rest[1], rest[2]);
    }
  }

  /** Pushing a negation into a gate. */
  lemma DeMorganNotSound(g: GraphBody, r: seq<nat>, x: Assignment, v: seq<bool>, rule: RuleId, root: u32,
                         rest: seq<u32>)
    requires g.Shaped() && g.Closed() && |rest| < MAX_MATCHED && Replaces(g, r, x, v, rule, root, rest)
    requires rule.DeMorganNotAnd? || rule.DeMorganNotOr?
    ensures StandsFor(g, v, rule, root, rest)
  {
    PlanGates(g, r, x, v, rule, root, rest);
    NotValue(g, r, x, v, root, root, rest[0]);
    BinaryValue(g, r, x, v, root, if rule.DeMorganNotAnd? then And else Or, rest[0], rest[1], rest[2]);
  }

  /** Pulling a negation out of a gate. */
  lemma DeMorganNotsSound(g: GraphBody, r: seq<nat>, x: Assignment, v: seq<bool>, rule: RuleId, root: u32,
                          rest: seq<u32>)
    requires g.Shaped() && g.Closed() && |rest| < MAX_MATCHED && Replaces(g, r, x, v, rule, root, rest)
    requires rule.DeMorganAndNots? || rule.DeMorganOrNots?
    ensures StandsFor(g, v, rule, root, rest)
  {
    PlanGates(g, r, x, v, rule, root, rest);
    BinaryValue(g, r, x, v, root, if rule.DeMorganAndNots? then And else Or, root, rest[0], rest[1]);
    NotValue(g, r, x, v, root, rest[0], rest[2]);
    NotValue(g, r, x, v, root, rest[1], rest[3]);
  }

  /** Absorption. */
  lemma AbsorbSound(g: GraphBody, r: seq<nat>, x: Assignment, v: seq<bool>, rule: RuleId, root: u32, rest: seq<u32>)
    requires g.Shaped() && g.Closed() && |rest| < MAX_MATCHED && Replaces(g, r, x, v, rule, root, rest)
    requires rule.AbsorbAndOr? || rule.AbsorbOrAnd?
    ensures StandsFor(g, v, rule, root, rest)
  {
    PlanGates(g, r, x, v, rule, root, rest);
    var op := if rule.AbsorbAndOr? then And else Or;
    BinaryValue(g, r, x, v, root, op, root, rest[0], rest[1]);
    BinaryValue(g, r, x, v, root, Dual(op), rest[1], rest[0], rest[2]);
  }

  /** Factoring a shared operand out. */
  lemma FactorSound(g: GraphBody, r: seq<nat>, x: Assignment, v: seq<bool>, rule: RuleId, root: u32, rest: seq<u32>)
    requires g.Shaped() && g.Closed() && |rest| < MAX_MATCHED && Replaces(g, r, x, v, rule, root, rest)
    requires rule.DistributeAndFactor? || rule.DistributeOrFactor?
    ensures StandsFor(g, v, rule, root, rest)
  {
    PlanGates(g, r, x, v, rule, root, rest);
    var op := if rule.DistributeAndFactor? then And else Or;
    BinaryValue(g, r, x, v, root, op, root, rest[0], rest[1]);
    BinaryValue(g, r, x, v, root, Dual(op), rest[0], rest[2], rest[3]);
    BinaryValue(g, r, x, v, root, Dual(op), rest[1], rest[2], rest[4]);
  }

  /** Distributing an operand in. */
  lemma ExpandSound(g: GraphBody, r: seq<nat>, x: Assignment, v: seq<bool>, rule: RuleId, root: u32, rest: seq<u32>)
    requires g.Shaped() && g.Closed() && |rest| < MAX_MATCHED && Replaces(g, r, x, v, rule, root, rest)
    requires rule.DistributeOrExpand? || rule.DistributeAndExpand?
    ensures StandsFor(g, v, rule, root, rest)
  {
    PlanGates(g, r, x, v, rule, root, rest);
    var op := if rule.DistributeOrExpand? then And else Or;
    BinaryValue(g, r, x, v, root, op, root, rest[1], rest[0]);
    BinaryValue(g, r, x, v, root, Dual(op), rest[0], rest[2], rest[3]);
  }

  /** Adding a consensus term. */
  lemma ConsensusAddSound(g: GraphBody, r: seq<nat>, x: Assignment, v: seq<bool>, rule: RuleId, root: u32,
                          rest: seq<u32>)
    requires g.Shaped() && g.Closed() && |rest| < MAX_MATCHED && Replaces(g, r, x, v, rule, root, rest)
    requires rule.ConsensusOrAdd? || rule.ConsensusAndAdd?
    ensures StandsFor(g, v, rule, root, rest)
  {
    PlanGates(g, r, x, v, rule, root, rest);
    var op := if rule.ConsensusAndAdd? then And else Or;
    BinaryValue(g, r, x, v, root, op, root, rest[0], rest[1]);
    BinaryValue(g, r, x, v, root, Dual(op), rest[0], rest[2], rest[3]);
    BinaryValue(g, r, x, v, root, Dual(op), rest[1], rest[5], rest[4]);
    NotValue(g, r, x, v, root, rest[5], rest[2]);
  }

  /** Removing a consensus term. */
  lemma ConsensusRemoveSound(g: GraphBody, r: seq<nat>, x: Assignment, v: seq<bool>, rule: RuleId, root: u32,
                             rest: seq<u32>)
    requires g.Shaped() && g.Closed() && |rest| < MAX_MATCHED && Replaces(g, r, x, v, rule, root, rest)
    requires rule.ConsensusOrRemove? || rule.ConsensusAndRemove?
    ensures StandsFor(g, v, rule, root, rest)
  {
    PlanGates(g, r, x, v, rule, root, rest);
    var op := if rule.ConsensusAndRemove? then And else Or;
    var na: nat :| ConsensusTerms(g, Dual(op), rest[2], rest[3], rest[4], rest[5], rest[6], na);
    BinaryValue(g, r, x, v, root, op, root, rest[0], rest[1]);
    BinaryValue(g, r, x, v, root, op, rest[0], rest[2], rest[3]);
    BinaryValue(g, r, x, v, root, Dual(op), rest[1], rest[5], rest[6]);
    BinaryValue(g, r, x, v, root, Dual(op), rest[2], rest[4], rest[5]);
    BinaryValue(g, r, x, v, root, Dual(op), rest[3], na, rest[6]);
    NotValue(g, r, x, v, root, na, rest[4]);
  }

  /** Unfolding any signal over a constant. */
  lemma UnitInverseSound(g: GraphBody, r: seq<nat>, x: Assignment, v: seq<bool>, rule: RuleId, root: u32,
                         rest: seq<u32>)
    requires g.Shaped() && g.Closed() && |rest| < MAX_MATCHED && Replaces(g, r, x, v, rule, root, rest)
    requires rule.AndTrueInverse? || rule.OrFalseInverse?
    ensures StandsFor(g, v, rule, root, rest)
  {
    PlanGates(g, r, x, v, rule, root, rest);
    ConstValue(g, r, x, v, root, rest[0], rule.AndTrueInverse?);
  }

  /** Unfolding a constant. */
  lemma ConstantInverseSound(g: GraphBody, r: seq<nat>, x: Assignment, v: seq<bool>, rule: RuleId, root: u32,
                             rest: seq<u32>)
    requires g.Shaped() && g.Closed() && |rest| < MAX_MATCHED && Replaces(g, r, x, v, rule, root, rest)
    requires rule.AndFalseInverse? || rule.OrTrueInverse? || rule.NotTrueInverse? || rule.NotFalseInverse?
    ensures StandsFor(g, v, rule, root, rest)
  {
    PlanGates(g, r, x, v, rule, root, rest);
    ConstValue(g, r, x, v, root, root, rule.OrTrueInverse? || rule.NotFalseInverse?);
    if rule.NotTrueInverse? || rule.NotFalseInverse? {
      ConstValue(g, r, x, v, root, rest[0], rule.NotTrueInverse?);
    }
  }

  /** Doubling a signal. */
  lemma DoublingSound(g: GraphBody, r: seq<nat>, x: Assignment, v: seq<bool>, rule: RuleId, root: u32, rest: seq<u32>)
    requires g.Shaped() && g.Closed() && |rest| < MAX_MATCHED && Replaces(g, r, x, v, rule, root, rest)
    requires rule.AndIdempotentInverse? || rule.OrIdempotentInverse? || rule.DoubleNegationInverse?
    ensures StandsFor(g, v, rule, root, rest)
  {
    PlanGates(g, r, x, v, rule, root, rest);
    assert rest == [];
  }

  /** Growing an absorbed term. */
  lemma AbsorbInverseSound(g: GraphBody, r: seq<nat>, x: Assignment, v: seq<bool>, rule: RuleId, root: u32,
                           rest: seq<u32>)
    requires g.Shaped() && g.Closed() && |rest| < MAX_MATCHED && Replaces(g, r, x, v, rule, root, rest)
    requires rule.AbsorbOrAndInverse? || rule.AbsorbAndOrInverse?
    ensures StandsFor(g, v, rule, root, rest)
  {
    PlanGates(g, r, x, v, rule, root, rest);
    assert rest[0] == root;
  }

  /**
   * The complement inverses. The witness is any negation in the graph, so it may itself read the root;
   * then the appended gate reads the constant directly and is still right.
   */
  lemma ComplementInverseSound(
    g: GraphBody, r: seq<nat>, x: Assignment, v: seq<bool>, rule: RuleId, root: u32, rest: seq<u32>)
    requires g.Shaped() && g.Closed() && |rest| < MAX_MATCHED && Replaces(g, r, x, v, rule, root, rest)
    requires rule.ComplementInverse()
    ensures StandsFor(g, v, rule, root, rest)
  {
    PlanGates(g, r, x, v, rule, root, rest);
    ConstValue(g, r, x, v, root, root, rule.OrComplementInverse?);
    if rest[0] != root {
      assert !g.Reads(rest[1], root);
    }
  }

  /** The rules numbered 0 to 30. */
  lemma SimplifierSound(g: GraphBody, r: seq<nat>, x: Assignment, v: seq<bool>, rule: RuleId, root: u32, rest: seq<u32>)
    requires g.Shaped() && g.Closed() && |rest| < MAX_MATCHED && Replaces(g, r, x, v, rule, root, rest)
    requires AsU16(rule) <= 30
    ensures StandsFor(g, v, rule, root, rest)
  {
    hide Instance, ReplacementPlan, Replaces;
    match rule
    case AndFalse | AndTrue | OrFalse | OrTrue => ConstantSound(g, r, x, v, rule, root, rest);
    case NotFalse | NotTrue | DoubleNegation => NegationSound(g, r, x, v, rule, root, rest);
    case AndIdempotent | OrIdempotent | AndComplement | OrComplement => RepeatSound(g, r, x, v, rule, root, rest);
    case CommuteAnd | CommuteOr => CommuteSound(g, r, x, v, rule, root, rest);
    case AssociateAndLeft | AssociateAndRight | AssociateOrLeft | AssociateOrRight =>
      AssociateSound(g, r, x, v, rule, root, rest);
    case DeMorganNotAnd | DeMorganNotOr => DeMorganNotSound(g, r, x, v, rule, root, rest);
    case DeMorganOrNots | DeMorganAndNots => DeMorganNotsSound(g, r, x, v, rule, root, rest);
    case AbsorbOrAnd | AbsorbAndOr => AbsorbSound(g, r, x, v, rule, root, rest);
    case DistributeOrFactor | DistributeAndFactor => FactorSound(g, r, x, v, rule, root, rest);
    case DistributeOrExpand | DistributeAndExpand => ExpandSound(g, r, x, v, rule, root, rest);
    case ConsensusOrAdd | ConsensusAndAdd => ConsensusAddSound(g, r, x, v, rule, root, rest);
    case ConsensusOrRemove | ConsensusAndRemove => ConsensusRemoveSound(g, r, x, v, rule, root, rest);
  }

  /** The rules numbered 31 to 43. */
  lemma ExpanderSound(g: GraphBody, r: seq<nat>, x: Assignment, v: seq<bool>, rule: RuleId, root: u32, rest: seq<u32>)
    requires g.Shaped() && g.Closed() && |rest| < MAX_MATCHED && Replaces(g, r, x, v, rule, root, rest)
    requires AsU16(rule) > 30
    ensures StandsFor(g, v, rule, root, rest)
  {
    hide Instance, ReplacementPlan, Replaces;
    match rule
    case AndTrueInverse | OrFalseInverse => UnitInverseSound(g, r, x, v, rule, root, rest);
    case AndFalseInverse | OrTrueInverse | NotTrueInverse | NotFalseInverse =>
      ConstantInverseSound(g, r, x, v, rule, root, rest);
    case AndIdempotentInverse | OrIdempotentInverse | DoubleNegationInverse =>
      DoublingSound(g, r, x, v, rule, root, rest);
    case AbsorbOrAndInverse | AbsorbAndOrInverse => AbsorbInverseSound(g, r, x, v, rule, root, rest);
    case AndComplementInverse | OrComplementInverse => ComplementInverseSound(g, r, x, v, rule, root, rest);
  }

  /** All 44 rules at once. */
  lemma ReplacementSound(g: GraphBody, r: seq<nat>, x: Assignment, v: seq<bool>, rule: RuleId, root: u32,
                         rest: seq<u32>)
    requires g.Shaped() && g.Closed() && |rest| < MAX_MATCHED && Replaces(g, r, x, v, rule, root, rest)
    ensures StandsFor(g, v, rule, root, rest)
  {
    hide Instance, ReplacementPlan, Replaces;
    if AsU16(rule) <= 30 {
      SimplifierSound(g, r, x, v, rule, root, rest);
    } else {
      ExpanderSound(g, r, x, v, rule, root, rest);
    }
  }
}

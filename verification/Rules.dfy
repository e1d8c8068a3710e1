/** The rewrite catalogue: rule numbers, match patterns, replacements and their application. */
module Rules {
  import opened Basics
  import opened Graphs
  import opened Semantics
  import opened Compaction

  const MAX_MATCHED: nat := 8
  const RULE_COUNT: nat := 44

  datatype RuleId =
    | AndFalse | AndTrue | OrFalse | OrTrue | NotFalse | NotTrue
    | AndIdempotent | OrIdempotent | AndComplement | OrComplement | DoubleNegation
    | CommuteAnd | CommuteOr
    | AssociateAndLeft | AssociateAndRight | AssociateOrLeft | AssociateOrRight
    | AbsorbOrAnd | AbsorbAndOr
    | DeMorganNotAnd | DeMorganNotOr | DeMorganOrNots | DeMorganAndNots
    | DistributeOrFactor | DistributeOrExpand | DistributeAndFactor | DistributeAndExpand
    | ConsensusOrAdd | ConsensusOrRemove | ConsensusAndAdd | ConsensusAndRemove
    | AndFalseInverse | AndTrueInverse | OrFalseInverse | OrTrueInverse | NotFalseInverse | NotTrueInverse
    | AndIdempotentInverse | OrIdempotentInverse | AndComplementInverse | OrComplementInverse
    | DoubleNegationInverse | AbsorbOrAndInverse | AbsorbAndOrInverse
  {
    /** The rules a caller may switch off: reverse constant folding. */
    predicate ReverseConstantFolding() {
      AndFalseInverse? || AndTrueInverse? || OrFalseInverse? || OrTrueInverse? || NotFalseInverse? || NotTrueInverse?
    }

    /** The rules tried in the second pass of the enumeration, numbered 31 to 43. */
    predicate Expanding() {
      || ReverseConstantFolding() || ComplementInverse()
      || AndIdempotentInverse? || OrIdempotentInverse? || DoubleNegationInverse?
      || AbsorbOrAndInverse? || AbsorbAndOrInverse?
    }

    predicate ComplementInverse() { AndComplementInverse? || OrComplementInverse? }

    /** The number of gates the replacement appends, as tabulated for the capacity check. */
    function ExtraNodes(): nat {
      match this
      case AndFalse | AndTrue | OrFalse | OrTrue | AndIdempotent | OrIdempotent | AbsorbOrAnd | AbsorbAndOr
         | ConsensusOrRemove | ConsensusAndRemove | DoubleNegation => 0
      case AndFalseInverse | AndTrueInverse | OrFalseInverse | OrTrueInverse | NotFalseInverse | NotTrueInverse
         | AndIdempotentInverse | OrIdempotentInverse | AndComplementInverse | OrComplementInverse
         | NotFalse | NotTrue | AndComplement | OrComplement | CommuteAnd | CommuteOr => 1
      case DoubleNegationInverse | AbsorbOrAndInverse | AbsorbAndOrInverse
         | AssociateAndLeft | AssociateAndRight | AssociateOrLeft | AssociateOrRight
         | DeMorganOrNots | DeMorganAndNots | DistributeOrFactor | DistributeAndFactor
         | ConsensusOrAdd | ConsensusAndAdd => 2
      case _ => 3
    }
  }

  /** `RuleId::from_u16`: rule numbers on the wire. */
  function FromU16(id: u16): Option<RuleId>
  {
    match id
    case 0 => Some(AndFalse)
    case 1 => Some(AndTrue)
    case 2 => Some(OrFalse)
    case 3 => Some(OrTrue)
    case 4 => Some(NotFalse)
    case 5 => Some(NotTrue)
    case 6 => Some(AndIdempotent)
    case 7 => Some(OrIdempotent)
    case 8 => Some(AndComplement)
    case 9 => Some(OrComplement)
    case 10 => Some(DoubleNegation)
    case 11 => Some(CommuteAnd)
    case 12 => Some(CommuteOr)
    case 13 => Some(AssociateAndLeft)
    case 14 => Some(AssociateAndRight)
    case 15 => Some(AssociateOrLeft)
    case 16 => Some(AssociateOrRight)
    case 17 => Some(AbsorbOrAnd)
    case 18 => Some(AbsorbAndOr)
    case 19 => Some(DeMorganNotAnd)
    case 20 => Some(DeMorganNotOr)
    case 21 => Some(DeMorganOrNots)
    case 22 => Some(DeMorganAndNots)
    case 23 => Some(DistributeOrFactor)
    case 24 => Some(DistributeOrExpand)
    case 25 => Some(DistributeAndFactor)
    case 26 => Some(DistributeAndExpand)
    case 27 => Some(ConsensusOrAdd)
    case 28 => Some(ConsensusOrRemove)
    case 29 => Some(ConsensusAndAdd)
    case 30 => Some(ConsensusAndRemove)
    case 31 => Some(AndFalseInverse)
    case 32 => Some(AndTrueInverse)
    case 33 => Some(OrFalseInverse)
    case 34 => Some(OrTrueInverse)
    case 35 => Some(NotFalseInverse)
    case 36 => Some(NotTrueInverse)
    case 37 => Some(AndIdempotentInverse)
    case 38 => Some(OrIdempotentInverse)
    case 39 => Some(AndComplementInverse)
    case 40 => Some(OrComplementInverse)
    case 41 => Some(DoubleNegationInverse)
    case 42 => Some(AbsorbOrAndInverse)
    case 43 => Some(AbsorbAndOrInverse)
    case _ => None
  }

  function AsU16(rule: RuleId): (id: u16)
    ensures id < RULE_COUNT && FromU16(id) == Some(rule)
  {
    match rule
    case AndFalse => 0
    case AndTrue => 1
    case OrFalse => 2
    case OrTrue => 3
    case NotFalse => 4
    case NotTrue => 5
    case AndIdempotent => 6
    case OrIdempotent => 7
    case AndComplement => 8
    case OrComplement => 9
    case DoubleNegation => 10
    case CommuteAnd => 11
    case CommuteOr => 12
    case AssociateAndLeft => 13
    case AssociateAndRight => 14
    case AssociateOrLeft => 15
    case AssociateOrRight => 16
    case AbsorbOrAnd => 17
    case AbsorbAndOr => 18
    case DeMorganNotAnd => 19
    case DeMorganNotOr => 20
    case DeMorganOrNots => 21
    case DeMorganAndNots => 22
    case DistributeOrFactor => 23
    case DistributeOrExpand => 24
    case DistributeAndFactor => 25
    case DistributeAndExpand => 26
    case ConsensusOrAdd => 27
    case ConsensusOrRemove => 28
    case ConsensusAndAdd => 29
    case ConsensusAndRemove => 30
    case AndFalseInverse => 31
    case AndTrueInverse => 32
    case OrFalseInverse => 33
    case OrTrueInverse => 34
    case NotFalseInverse => 35
    case NotTrueInverse => 36
    case AndIdempotentInverse => 37
    case OrIdempotentInverse => 38
    case AndComplementInverse => 39
    case OrComplementInverse => 40
    case DoubleNegationInverse => 41
    case AbsorbOrAndInverse => 42
    case AbsorbAndOrInverse => 43
  }

  /** `inverse_rule_id`: the rule that undoes a rule. */
  function InverseRule(rule: RuleId): RuleId
  {
    match rule
    case AndFalse => AndFalseInverse case AndTrue => AndTrueInverse
    case OrFalse => OrFalseInverse case OrTrue => OrTrueInverse
    case NotFalse => NotFalseInverse case NotTrue => NotTrueInverse
    case AndIdempotent => AndIdempotentInverse case OrIdempotent => OrIdempotentInverse
    case AndComplement => AndComplementInverse case OrComplement => OrComplementInverse
    case DoubleNegation => DoubleNegationInverse
    case CommuteAnd => CommuteAnd case CommuteOr => CommuteOr
    case AssociateAndLeft => AssociateAndRight case AssociateAndRight => AssociateAndLeft
    case AssociateOrLeft => AssociateOrRight case AssociateOrRight => AssociateOrLeft
    case AbsorbOrAnd => AbsorbOrAndInverse case AbsorbAndOr => AbsorbAndOrInverse
    case DeMorganNotAnd => DeMorganOrNots case DeMorganNotOr => DeMorganAndNots
    case DeMorganOrNots => DeMorganNotAnd case DeMorganAndNots => DeMorganNotOr
    case DistributeOrFactor => DistributeOrExpand case DistributeOrExpand => DistributeOrFactor
    case DistributeAndFactor => DistributeAndExpand case DistributeAndExpand => DistributeAndFactor
    case ConsensusOrAdd => ConsensusOrRemove case ConsensusOrRemove => ConsensusOrAdd
    case ConsensusAndAdd => ConsensusAndRemove case ConsensusAndRemove => ConsensusAndAdd
    case AndFalseInverse => AndFalse case AndTrueInverse => AndTrue
    case OrFalseInverse => OrFalse case OrTrueInverse => OrTrue
    case NotFalseInverse => NotFalse case NotTrueInverse => NotTrue
    case AndIdempotentInverse => AndIdempotent case OrIdempotentInverse => OrIdempotent
    case AndComplementInverse => AndComplement case OrComplementInverse => OrComplement
    case DoubleNegationInverse => DoubleNegation
    case AbsorbOrAndInverse => AbsorbOrAnd case AbsorbAndOrInverse => AbsorbAndOr
  }

  /** A match: a rule number and up to eight matched nodes, the rest of the array zero. */
  datatype RawCandidateBase = RawCandidate(ruleId: u16, root: u32, matchLen: u8, matched: seq<u32>)
  type RawCandidate = c: RawCandidateBase | |c.matched| == MAX_MATCHED && c.matchLen <= MAX_MATCHED
    witness RawCandidate(0, 0, 0, [0, 0, 0, 0, 0, 0, 0, 0])

  datatype RuleError =
    | UnknownRule(ruleId: u16)
    | BadMatchLength
    | InvalidCandidate(message: string)
    | CapacityExceeded
    | GraphFailure(error: GraphError)

  // ---- patterns ----------------------------------------------------------------------------

  /** Nodes a rule may bind: anything in range except an output marker. */
  predicate Signal(g: GraphBody, i: nat) { i < g.Size() && g.op[i] != Output }

  predicate IsConst(g: GraphBody, i: nat, value: bool)
    requires g.Shaped()
  {
    i < g.Size() && g.op[i] == Const && (g.arg0[i] != 0 <==> value)
  }

  /** Node `i` negates the signal `a`. */
  predicate IsNot(g: GraphBody, i: nat, a: nat)
    requires g.Shaped()
  {
    i < g.Size() && g.op[i] == Not && g.arg0[i] == a && Signal(g, a)
  }

  /** Node `i` is the binary gate `op` over the signals `a` and `b`, in that order. */
  predicate IsPair(g: GraphBody, op: OpCode, i: nat, a: nat, b: nat)
    requires g.Shaped() && op.UsesArg1()
  {
    i < g.Size() && g.op[i] == op && g.arg0[i] == a && g.arg1[i] == b && Signal(g, a) && Signal(g, b)
  }

  /** As `IsPair`, in either order. */
  predicate IsBinary(g: GraphBody, op: OpCode, i: nat, a: nat, b: nat)
    requires g.Shaped() && op.UsesArg1()
  {
    IsPair(g, op, i, a, b) || IsPair(g, op, i, b, a)
  }

  function Dual(op: OpCode): OpCode
    requires op.UsesArg1()
  {
    if op == And then Or else And
  }

  /** The lowest constant node with the given value. */
  ghost predicate FirstConst(g: GraphBody, value: bool, i: nat)
    requires g.Shaped()
  {
    IsConst(g, i, value) && forall j: nat :: j < i ==> !IsConst(g, j, value)
  }

  ghost predicate AbsorptionInstance(g: GraphBody, op: OpCode, root: nat, rest: seq<nat>)
    requires g.Shaped() && op.UsesArg1() && |rest| == 3
  {
    IsBinary(g, op, root, rest[0], rest[1]) && IsBinary(g, Dual(op), rest[1], rest[0], rest[2])
  }

  /** Factoring is only offered between gates whose own two operands differ. */
  ghost predicate FactorInstance(g: GraphBody, op: OpCode, root: nat, rest: seq<nat>)
    requires g.Shaped() && op.UsesArg1() && |rest| == 5
  {
    && IsPair(g, op, root, rest[0], rest[1])
    && IsBinary(g, Dual(op), rest[0], rest[2], rest[3])
    && IsBinary(g, Dual(op), rest[1], rest[2], rest[4])
    && rest[2] != rest[3] && rest[2] != rest[4]
  }

  ghost predicate ConsensusAddInstance(g: GraphBody, op: OpCode, root: nat, rest: seq<nat>)
    requires g.Shaped() && op.UsesArg1() && |rest| == 6
  {
    && IsBinary(g, op, root, rest[0], rest[1])
    && IsBinary(g, Dual(op), rest[0], rest[2], rest[3])
    && IsBinary(g, Dual(op), rest[1], rest[5], rest[4])
    && IsNot(g, rest[5], rest[2])
  }

  /** The two terms a consensus is drawn from: over `a`, `b` and over a negation of `a`, `c`. */
  ghost predicate ConsensusTerms(g: GraphBody, op: OpCode, first: nat, second: nat, a: nat, b: nat, c: nat, na: nat)
    requires g.Shaped() && op.UsesArg1()
  {
    IsBinary(g, op, first, a, b) && IsBinary(g, op, second, na, c) && IsNot(g, na, a)
  }

  /** Removal is only offered when the two terms are different nodes. */
  ghost predicate ConsensusRemoveInstance(g: GraphBody, op: OpCode, root: nat, rest: seq<nat>)
    requires g.Shaped() && op.UsesArg1() && |rest| == 7
  {
    && IsBinary(g, op, root, rest[0], rest[1])
    && IsBinary(g, op, rest[0], rest[2], rest[3])
    && rest[2] != rest[3]
    && IsBinary(g, Dual(op), rest[1], rest[5], rest[6])
    && exists na: nat :: ConsensusTerms(g, Dual(op), rest[2], rest[3], rest[4], rest[5], rest[6], na)
  }

  /** What it means for `rule` to apply at `root` with the further matched nodes `rest`. */
  ghost predicate Instance(g: GraphBody, rule: RuleId, root: nat, rest: seq<nat>)
    requires g.Shaped()
  {
    match rule
    case AndFalse => |rest| == 1 && IsConst(g, rest[0], false) && exists o: nat :: IsBinary(g, And, root, rest[0], o)
    case OrTrue => |rest| == 1 && IsConst(g, rest[0], true) && exists o: nat :: IsBinary(g, Or, root, rest[0], o)
    case AndTrue => |rest| == 2 && IsConst(g, rest[0], true) && IsBinary(g, And, root, rest[0], rest[1])
    case OrFalse => |rest| == 2 && IsConst(g, rest[0], false) && IsBinary(g, Or, root, rest[0], rest[1])
    case NotFalse => |rest| == 1 && IsNot(g, root, rest[0]) && IsConst(g, rest[0], false)
    case NotTrue => |rest| == 1 && IsNot(g, root, rest[0]) && IsConst(g, rest[0], true)
    case AndIdempotent => |rest| == 1 && IsPair(g, And, root, rest[0], rest[0])
    case OrIdempotent => |rest| == 1 && IsPair(g, Or, root, rest[0], rest[0])
    case AndComplement => |rest| == 2 && IsBinary(g, And, root, rest[0], rest[1]) && IsNot(g, rest[1], rest[0])
    case OrComplement => |rest| == 2 && IsBinary(g, Or, root, rest[0], rest[1]) && IsNot(g, rest[1], rest[0])
    case DoubleNegation => |rest| == 2 && IsNot(g, root, rest[0]) && IsNot(g, rest[0], rest[1])
    case CommuteAnd => |rest| == 2 && IsPair(g, And, root, rest[0], rest[1])
    case CommuteOr => |rest| == 2 && IsPair(g, Or, root, rest[0], rest[1])
    case AssociateAndLeft =>
      |rest| == 4 && IsPair(g, And, root, rest[1], rest[0]) && IsPair(g, And, rest[0], rest[2], rest[3])
    case AssociateAndRight =>
      |rest| == 4 && IsPair(g, And, root, rest[0], rest[3]) && IsPair(g, And, rest[0], rest[1], rest[2])
    case AssociateOrLeft =>
      |rest| == 4 && IsPair(g, Or, root, rest[1], rest[0]) && IsPair(g, Or, rest[0], rest[2], rest[3])
    case AssociateOrRight =>
      |rest| == 4 && IsPair(g, Or, root, rest[0], rest[3]) && IsPair(g, Or, rest[0], rest[1], rest[2])
    case AbsorbAndOr => |rest| == 3 && AbsorptionInstance(g, And, root, rest)
    case AbsorbOrAnd => |rest| == 3 && AbsorptionInstance(g, Or, root, rest)
    case DeMorganNotAnd => |rest| == 3 && IsNot(g, root, rest[0]) && IsPair(g, And, rest[0], rest[1], rest[2])
    case DeMorganNotOr => |rest| == 3 && IsNot(g, root, rest[0]) && IsPair(g, Or, rest[0], rest[1], rest[2])
    case DeMorganAndNots =>
      |rest| == 4 && IsPair(g, And, root, rest[0], rest[1]) && IsNot(g, rest[0], rest[2]) && IsNot(g, rest[1], rest[3])
    case DeMorganOrNots =>
      |rest| == 4 && IsPair(g, Or, root, rest[0], rest[1]) && IsNot(g, rest[0], rest[2]) && IsNot(g, rest[1], rest[3])
    case DistributeAndFactor => |rest| == 5 && FactorInstance(g, And, root, rest)
    case DistributeOrFactor => |rest| == 5 && FactorInstance(g, Or, root, rest)
    case DistributeOrExpand =>
      |rest| == 4 && IsBinary(g, And, root, rest[1], rest[0]) && IsPair(g, Or, rest[0], rest[2], rest[3])
    case DistributeAndExpand =>
      |rest| == 4 && IsBinary(g, Or, root, rest[1], rest[0]) && IsPair(g, And, rest[0], rest[2], rest[3])
    case ConsensusAndAdd => |rest| == 6 && ConsensusAddInstance(g, And, root, rest)
    case ConsensusOrAdd => |rest| == 6 && ConsensusAddInstance(g, Or, root, rest)
    case ConsensusAndRemove => |rest| == 7 && ConsensusRemoveInstance(g, And, root, rest)
    case ConsensusOrRemove => |rest| == 7 && ConsensusRemoveInstance(g, Or, root, rest)
    case AndIdempotentInverse | OrIdempotentInverse | DoubleNegationInverse => Signal(g, root) && rest == []
    case AbsorbOrAndInverse | AbsorbAndOrInverse => Signal(g, root) && rest == [root]
    case AndTrueInverse => Signal(g, root) && |rest| == 1 && FirstConst(g, true, rest[0])
    case OrFalseInverse => Signal(g, root) && |rest| == 1 && FirstConst(g, false, rest[0])
    case AndFalseInverse => IsConst(g, root, false) && rest == [root]
    case OrTrueInverse => IsConst(g, root, true) && rest == [root]
    case NotTrueInverse => IsConst(g, root, false) && |rest| == 1 && FirstConst(g, true, rest[0])
    case NotFalseInverse => IsConst(g, root, true) && |rest| == 1 && FirstConst(g, false, rest[0])
    case AndComplementInverse => |rest| == 2 && IsConst(g, root, false) && IsNot(g, rest[1], rest[0])
    case OrComplementInverse => |rest| == 2 && IsConst(g, root, true) && IsNot(g, rest[1], rest[0])
  }

  // ---- replacements ------------------------------------------------------------------------

  /** The gates `build_replacement` appends, in order, and the node that then stands for the root. */
  datatype Plan = Plan(gates: seq<Gate>, result: u32)

  function NotGate(a: u32): Gate { Gate(Not, a, NO_NODE) }

  function AssociatePlan(op: OpCode, m: seq<u32>, n: u32, left: bool): Plan
    requires |m| == MAX_MATCHED && n < 0x7FFF_FFFF
  {
    if left then Plan([Gate(op, m[2], m[3]), Gate(op, n, m[4])], n + 1)
    else Plan([Gate(op, m[3], m[4]), Gate(op, m[2], n)], n + 1)
  }

  /** `build_replacement` for a graph that has `n` nodes so far. */
  function ReplacementPlan(rule: RuleId, root: u32, m: seq<u32>, n: u32): (plan: Plan)
    requires |m| == MAX_MATCHED && n < 0x7FFF_FFFF
  {
    match rule
    case AndFalse | OrTrue => Plan([], m[1])
    case AndTrue | OrFalse => Plan([], m[2])
    case AndIdempotent | OrIdempotent | AbsorbOrAnd | AbsorbAndOr | ConsensusOrRemove | ConsensusAndRemove =>
      Plan([], m[1])
    case DoubleNegation => Plan([], m[2])
    case AndFalseInverse => Plan([Gate(And, m[1], root)], n)
    case AndTrueInverse => Plan([Gate(And, root, m[1])], n)
    case OrFalseInverse => Plan([Gate(Or, root, m[1])], n)
    case OrTrueInverse => Plan([Gate(Or, m[1], root)], n)
    case NotFalseInverse | NotTrueInverse => Plan([NotGate(m[1])], n)
    case AndIdempotentInverse => Plan([Gate(And, root, root)], n)
    case OrIdempotentInverse => Plan([Gate(Or, root, root)], n)
    case AndComplementInverse => Plan([Gate(And, m[1], m[2])], n)
    case OrComplementInverse => Plan([Gate(Or, m[1], m[2])], n)
    case DoubleNegationInverse => Plan([NotGate(root), NotGate(n)], n + 1)
    case AbsorbOrAndInverse => Plan([Gate(And, root, m[1]), Gate(Or, root, n)], n + 1)
    case AbsorbAndOrInverse => Plan([Gate(Or, root, m[1]), Gate(And, root, n)], n + 1)
    case NotFalse | OrComplement => Plan([Gate(Const, 1, NO_NODE)], n)
    case NotTrue | AndComplement => Plan([Gate(Const, 0, NO_NODE)], n)
    case CommuteAnd => Plan([Gate(And, m[2], m[1])], n)
    case CommuteOr => Plan([Gate(Or, m[2], m[1])], n)
    case AssociateAndLeft => AssociatePlan(And, m, n, true)
    case AssociateOrLeft => AssociatePlan(Or, m, n, true)
    case AssociateAndRight => AssociatePlan(And, m, n, false)
    case AssociateOrRight => AssociatePlan(Or, m, n, false)
    case DeMorganNotAnd => Plan([NotGate(m[2]), NotGate(m[3]), Gate(Or, n, n + 1)], n + 2)
    case DeMorganNotOr => Plan([NotGate(m[2]), NotGate(m[3]), Gate(And, n, n + 1)], n + 2)
    case DeMorganOrNots => Plan([Gate(And, m[3], m[4]), NotGate(n)], n + 1)
    case DeMorganAndNots => Plan([Gate(Or, m[3], m[4]), NotGate(n)], n + 1)
    case DistributeOrFactor => Plan([Gate(Or, m[4], m[5]), Gate(And, m[3], n)], n + 1)
    case DistributeAndFactor => Plan([Gate(And, m[4], m[5]), Gate(Or, m[3], n)], n + 1)
    case DistributeOrExpand => Plan([Gate(And, m[2], m[3]), Gate(And, m[2], m[4]), Gate(Or, n, n + 1)], n + 2)
    case DistributeAndExpand => Plan([Gate(Or, m[2], m[3]), Gate(Or, m[2], m[4]), Gate(And, n, n + 1)], n + 2)
    case ConsensusOrAdd => Plan([Gate(And, m[4], m[5]), Gate(Or, root, n)], n + 1)
    case ConsensusAndAdd => Plan([Gate(Or, m[4], m[5]), Gate(And, root, n)], n + 1)
  }

  /** The capacity table is exact: each rule appends as many gates as it announces. */
  lemma PlanAppendsExtraNodes(rule: RuleId, root: u32, m: seq<u32>, n: u32)
    requires |m| == MAX_MATCHED && n < 0x7FFF_FFFF
    ensures |ReplacementPlan(rule, root, m, n).gates| == rule.ExtraNodes()
  {
    match rule {
      case AndFalse => case AndTrue => case OrFalse => case OrTrue => case NotFalse => case NotTrue =>
      case _ =>
    }
  }

  /** Append the plan's gates and make every old use of `root` read the replacement instead. */
  function Rewritten(g: GraphBody, root: u32, plan: Plan): (h: GraphBody)
    requires g.Shaped()
    ensures h.Size() == g.Size() + |plan.gates|
    ensures h.arity == g.arity && h.capacity == g.capacity && h.outputNode == g.outputNode
  {
    var n := g.Size();
    GraphBody(
      g.arity,
      g.capacity,
      g.outputNode,
      g.op + seq(|plan.gates|, k requires 0 <= k < |plan.gates| => plan.gates[k].op),
      seq(n, i requires 0 <= i < n =>
        if g.op[i].UsesArg0() && g.arg0[i] == root then plan.result else g.arg0[i])
        + seq(|plan.gates|, k requires 0 <= k < |plan.gates| => plan.gates[k].a),
      seq(n, i requires 0 <= i < n =>
        if g.op[i].UsesArg1() && g.arg1[i] == root then plan.result else g.arg1[i])
        + seq(|plan.gates|, k requires 0 <= k < |plan.gates| => plan.gates[k].b))
  }

  predicate MatchInRange(g: GraphBody, c: RawCandidate)
  {
    forall k :: 0 <= k < c.matchLen ==> c.matched[k] < g.Size()
  }

  /** The result of `apply_graph`. */
  ghost function Apply(g: GraphBody, c: RawCandidate): Result<GraphBody, RuleError>
    requires g.Shaped()
  {
    if c.root >= g.Size() then Err(InvalidCandidate("candidate root out of range"))
    else if !MatchInRange(g, c) then Err(InvalidCandidate("candidate matched node out of range"))
    else if FromU16(c.ruleId).None? then Err(UnknownRule(c.ruleId))
    else
      var plan := ReplacementPlan(FromU16(c.ruleId).value, c.root, c.matched, g.Size());
      var h := Rewritten(g, c.root, plan);
      if h.Size() > g.capacity then Err(CapacityExceeded)
      else match Compact(h)
        case Ok(body) => Ok(body)
        case Err(error) => Err(GraphFailure(error))
  }

  /** The candidate record for a match. */
  function Candidate(rule: RuleId, root: u32, rest: seq<u32>): (c: RawCandidate)
    requires |rest| < MAX_MATCHED
    ensures c.matched[..c.matchLen] == [root] + rest
    ensures c.matched[0] == root && forall k :: 0 <= k < |rest| ==> c.matched[k + 1] == rest[k]
    ensures FromU16(c.ruleId) == Some(rule) && c.root == root && c.matchLen == |rest| + 1
  {
    RawCandidate(AsU16(rule), root, |rest| + 1,
                 [root] + rest + seq(MAX_MATCHED - 1 - |rest|, _ => 0))
  }
}

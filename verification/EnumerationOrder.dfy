/** The order in which candidates are listed, which decides what a limit cuts off. */
module EnumerationOrder {
  import opened Basics
  import opened Graphs
  import opened Rules
  import opened Attempts
  import opened Enumeration

  /** The place of a rule among the attempts of its pass at one node. */
  function Stage(rule: RuleId): nat
  {
    match rule
    case AndFalse | AndTrue | OrFalse | OrTrue | NotFalse | NotTrue => 0
    case AndIdempotent | OrIdempotent | DoubleNegation => 1
    case AndComplement | OrComplement | DeMorganNotAnd => 2
    case CommuteAnd | CommuteOr | DeMorganNotOr => 3
    case AssociateAndRight | AssociateOrRight => 4
    case AssociateAndLeft | AssociateOrLeft => 5
    case AbsorbOrAnd | AbsorbAndOr | DistributeOrExpand | DistributeAndExpand => 6
    case DeMorganOrNots | DeMorganAndNots => 7
    case DistributeOrFactor | DistributeAndFactor => 8
    case ConsensusOrAdd | ConsensusAndAdd => 9
    case ConsensusOrRemove | ConsensusAndRemove => 10
    case AndIdempotentInverse => 0
    case OrIdempotentInverse => 1
    case DoubleNegationInverse => 2
    case AbsorbOrAndInverse => 3
    case AbsorbAndOrInverse => 4
    case AndTrueInverse => 5
    case OrFalseInverse => 6
    case AndFalseInverse | OrTrueInverse => 7
    case NotTrueInverse | NotFalseInverse => 8
    case AndComplementInverse | OrComplementInverse => 9
  }

  /** First pass before second pass, then by node, then by stage. */
  predicate NotAfter(rule: RuleId, root: nat, rule': RuleId, root': nat)
  {
    || (AsU16(rule) <= 30 < AsU16(rule'))
    || (&& (AsU16(rule) <= 30 <==> AsU16(rule') <= 30)
        && (root < root' || (root == root' && Stage(rule) <= Stage(rule'))))
  }

  // ---- the attempts at one node ------------------------------------------------------------

  /** Attempts at one node in one pass, in stages from `lo` to `hi`, in order. */
  ghost predicate Block(s: seq<Attempt>, second: bool, root: nat, lo: nat, hi: nat)
  {
    && (forall i :: 0 <= i < |s| ==>
          && s[i].root == root && (AsU16(s[i].rule) > 30 <==> second) && lo <= Stage(s[i].rule) <= hi)
    && forall i, j :: 0 <= i < j < |s| ==> Stage(s[i].rule) <= Stage(s[j].rule)
  }

  lemma BlockThen(s: seq<Attempt>, t: seq<Attempt>, second: bool, root: nat, lo: nat, mid: nat, mid': nat, hi: nat)
    requires Block(s, second, root, lo, mid) && Block(t, second, root, mid', hi) && lo <= mid <= mid' <= hi
    ensures Block(s + t, second, root, lo, hi)
  {
    var st := s + t;
    forall i | 0 <= i < |st|
      ensures st[i].root == root && (AsU16(st[i].rule) > 30 <==> second) && lo <= Stage(st[i].rule) <= hi
    {
      if i < |s| { assert st[i] == s[i]; } else { assert st[i] == t[i - |s|]; }
    }
    forall i, j | 0 <= i < j < |st|
      ensures Stage(st[i].rule) <= Stage(st[j].rule)
    {
      if j < |s| {
        assert st[i] == s[i] && st[j] == s[j];
      } else if i >= |s| {
        assert st[i] == t[i - |s|] && st[j] == t[j - |s|];
      } else {
        assert st[i] == s[i] && st[j] == t[j - |s|];
      }
    }
  }

  lemma OneStage(s: seq<Attempt>, second: bool, root: nat, stage: nat)
    requires forall i :: 0 <= i < |s| ==>
               s[i].root == root && (AsU16(s[i].rule) > 30 <==> second) && Stage(s[i].rule) == stage
    ensures Block(s, second, root, stage, stage)
  {
  }

  lemma One(condition: bool, a: Attempt, second: bool, stage: nat)
    requires (AsU16(a.rule) > 30 <==> second) && Stage(a.rule) == stage
    ensures Block(When(condition, a), second, a.root, stage, stage) && Block([a], second, a.root, stage, stage)
  {
    hide AsU16, Stage;
  }

  lemma Nothing(second: bool, root: nat, stage: nat)
    ensures Block([], second, root, stage, stage)
  {
  }

  lemma ConstantBlock(t: Tables, root: u32, op: OpCode, operand: u32, other: u32)
    requires operand < |t.consts|
    ensures Block(ConstantAttempts(t, root, op, operand, other), false, root, 0, 0)
  {
    hide Block;
    if op == And {
      One(t.consts[operand] == 0, Attempt(AndFalse, root, [operand]), false, 0);
      One(t.consts[operand] == 1, Attempt(AndTrue, root, [operand, other]), false, 0);
      BlockThen(When(t.consts[operand] == 0, Attempt(AndFalse, root, [operand])),
                When(t.consts[operand] == 1, Attempt(AndTrue, root, [operand, other])), false, root, 0, 0, 0, 0);
    } else {
      One(t.consts[operand] == 0, Attempt(OrFalse, root, [operand, other]), false, 0);
      One(t.consts[operand] == 1, Attempt(OrTrue, root, [operand]), false, 0);
      BlockThen(When(t.consts[operand] == 0, Attempt(OrFalse, root, [operand, other])),
                When(t.consts[operand] == 1, Attempt(OrTrue, root, [operand])), false, root, 0, 0, 0, 0);
    }
  }

  lemma RepeatBlock(t: Tables, root: u32, op: OpCode, left: u32, right: u32)
    requires left < |t.nots| && right < |t.nots|
    ensures Block(RepeatAttempts(t, root, op, left, right), false, root, 1, 3)
  {
    hide Block;
    var same := When(left == right, Attempt(Idempotent(op), root, [left]));
    var first := When(t.nots[right] >= 0 && t.nots[right] == left, Attempt(Complement(op), root, [left, right]));
    var second := When(left != right && t.nots[left] >= 0 && t.nots[left] == right,
                       Attempt(Complement(op), root, [right, left]));
    One(left == right, Attempt(Idempotent(op), root, [left]), false, 1);
    One(t.nots[right] >= 0 && t.nots[right] == left, Attempt(Complement(op), root, [left, right]), false, 2);
    One(left != right && t.nots[left] >= 0 && t.nots[left] == right, Attempt(Complement(op), root, [right, left]),
        false, 2);
    One(true, Attempt(Commute(op), root, [left, right]), false, 3);
    BlockThen(same, first, false, root, 1, 1, 2, 2);
    BlockThen(same + first, second, false, root, 1, 2, 2, 2);
    BlockThen(same + first + second, [Attempt(Commute(op), root, [left, right])], false, root, 1, 2, 3, 3);
  }

  lemma AssociateBlock(t: Tables, root: u32, op: OpCode, left: u32, right: u32)
    requires left < |t.ands| == |t.ors| && right < |t.ands|
    ensures Block(AssociateAttempts(t, root, op, left, right), false, root, 4, 5)
  {
    hide Block;
    var l, r := t.PairFor(left, op), t.PairFor(right, op);
    One(l.valid, Attempt(AssociateRight(op), root, [left, l.a, l.b, right]), false, 4);
    One(r.valid, Attempt(AssociateLeft(op), root, [right, left, r.a, r.b]), false, 5);
    BlockThen(When(l.valid, Attempt(AssociateRight(op), root, [left, l.a, l.b, right])),
              When(r.valid, Attempt(AssociateLeft(op), root, [right, left, r.a, r.b])), false, root, 4, 4, 5, 5);
  }

  lemma LatticeBlock(t: Tables, root: u32, op: OpCode, outer: u32, inner: u32)
    requires op.UsesArg1() && inner < |t.ands| == |t.ors|
    ensures Block(LatticeAttempts(t, root, op, outer, inner), false, root, 6, 6)
  {
    hide Block;
    var p := t.PairFor(inner, Dual(op));
    Nothing(false, root, 6);
    if p.valid {
      var first := When(p.a == outer, Attempt(Absorb(op), root, [outer, inner, p.b]));
      var second := When(p.b == outer && p.a != p.b, Attempt(Absorb(op), root, [outer, inner, p.a]));
      One(p.a == outer, Attempt(Absorb(op), root, [outer, inner, p.b]), false, 6);
      One(p.b == outer && p.a != p.b, Attempt(Absorb(op), root, [outer, inner, p.a]), false, 6);
      One(true, Attempt(Expand(op), root, [inner, outer, p.a, p.b]), false, 6);
      BlockThen(first, second, false, root, 6, 6, 6, 6);
      BlockThen(first + second, [Attempt(Expand(op), root, [inner, outer, p.a, p.b])], false, root, 6, 6, 6, 6);
    }
  }

  lemma DeMorganBlock(t: Tables, root: u32, op: OpCode, left: u32, right: u32)
    requires left < |t.nots| && right < |t.nots|
    requires t.nots[left] <= 0xFFFF_FFFF && t.nots[right] <= 0xFFFF_FFFF
    ensures Block(DeMorganNotsAttempts(t, root, op, left, right), false, root, 7, 7)
  {
  }

  /** Attempts with one rule at one node. */
  ghost predicate Uniform(s: seq<Attempt>, root: nat, rule: RuleId)
  {
    forall i :: 0 <= i < |s| ==> s[i].root == root && s[i].rule == rule
  }

  lemma UniformThen(s: seq<Attempt>, t: seq<Attempt>, root: nat, rule: RuleId)
    requires Uniform(s, root, rule) && Uniform(t, root, rule)
    ensures Uniform(s + t, root, rule)
  {
  }

  lemma UniformBlock(s: seq<Attempt>, root: nat, rule: RuleId, stage: nat)
    requires Uniform(s, root, rule) && AsU16(rule) <= 30 && Stage(rule) == stage
    ensures Block(s, false, root, stage, stage)
  {
    hide AsU16, Stage;
  }

  lemma FactorPairUniform(root: u32, op: OpCode, left: u32, right: u32, la: u32, lb: u32, r: Pair)
    ensures Uniform(FactorPair(root, op, left, right, la, lb, r), root, Factor(op))
  {
    hide Factor;
  }

  lemma FactorBlock(t: Tables, root: u32, op: OpCode, left: u32, right: u32)
    requires op.UsesArg1() && left < |t.ands| == |t.ors| && right < |t.ands|
    ensures Block(FactorAttempts(t, root, op, left, right), false, root, 8, 8)
  {
    hide Block, FactorPair;
    var l, r := t.PairFor(left, Dual(op)), t.PairFor(right, Dual(op));
    FactorPairUniform(root, op, left, right, l.a, l.b, r);
    FactorPairUniform(root, op, left, right, l.b, l.a, r);
    UniformThen(FactorPair(root, op, left, right, l.a, l.b, r), FactorPair(root, op, left, right, l.b, l.a, r), root,
                Factor(op));
    UniformBlock(FactorAttempts(t, root, op, left, right), root, Factor(op), 8);
  }

  lemma ConsensusAddBlock(t: Tables, root: u32, op: OpCode, first: u32, second: u32)
    requires op.UsesArg1() && first < |t.ands| == |t.ors| && second < |t.ands|
    requires var s := t.PairFor(second, Dual(op)); s.valid ==> s.a < |t.nots| && s.b < |t.nots|
    ensures Block(ConsensusAddAttempts(t, root, op, first, second), false, root, 9, 9)
  {
    hide Block;
    assert Uniform(ConsensusAddAttempts(t, root, op, first, second), root, ConsensusAdd(op)) by { hide ConsensusAdd; }
    UniformBlock(ConsensusAddAttempts(t, root, op, first, second), root, ConsensusAdd(op), 9);
  }

  lemma ConsensusOrderedUniform(
    t: Tables, n: nat, root: u32, op: OpCode, inner: u32, term: u32, first: u32, second: u32)
    requires op.UsesArg1() && TablesClosed(t, n) && first < n && second < n && term < n
    ensures Uniform(ConsensusRemoveOrdered(t, n, root, op, inner, term, first, second), root, ConsensusRemove(op))
  {
    hide ConsensusRemove, BinaryOf;
  }

  lemma ConsensusRemoveBlock(t: Tables, n: nat, root: u32, op: OpCode, inner: u32, term: u32)
    requires op.UsesArg1() && TablesClosed(t, n) && inner < n && term < n
    ensures Block(ConsensusRemoveAttempts(t, n, root, op, inner, term), false, root, 10, 10)
  {
    hide Block, ConsensusRemoveOrdered;
    var p := t.PairFor(inner, op);
    if p.valid && p.a != p.b {
      ConsensusOrderedUniform(t, n, root, op, inner, term, p.a, p.b);
      ConsensusOrderedUniform(t, n, root, op, inner, term, p.b, p.a);
      UniformThen(ConsensusRemoveOrdered(t, n, root, op, inner, term, p.a, p.b),
                  ConsensusRemoveOrdered(t, n, root, op, inner, term, p.b, p.a), root, ConsensusRemove(op));
    }
    UniformBlock(ConsensusRemoveAttempts(t, n, root, op, inner, term), root, ConsensusRemove(op), 10);
  }

  lemma BinaryBlock(t: Tables, n: nat, root: u32, op: OpCode, left: u32, right: u32)
    requires op.UsesArg1() && TablesClosed(t, n) && left < n && right < n
    ensures Block(BinaryAttempts(t, n, root, op, left, right), false, root, 0, 10)
  {
    hide Block, ConstantAttempts, RepeatAttempts, AssociateAttempts, LatticeAttempts, DeMorganNotsAttempts,
      FactorAttempts, ConsensusAddAttempts, ConsensusRemoveAttempts, TablesClosed;
    TablesInside(t, n, left, right, op);
    var two := left != right;
    var constants := ConstantAttempts(t, root, op, left, right);
    var constants' := if two then ConstantAttempts(t, root, op, right, left) else [];
    var repeats, associates := RepeatAttempts(t, root, op, left, right), AssociateAttempts(t, root, op, left, right);
    var lattice := LatticeAttempts(t, root, op, left, right);
    var lattice' := if two then LatticeAttempts(t, root, op, right, left) else [];
    var nots, factors := DeMorganNotsAttempts(t, root, op, left, right), FactorAttempts(t, root, op, left, right);
    var adds := ConsensusAddAttempts(t, root, op, left, right);
    var adds' := if two then ConsensusAddAttempts(t, root, op, right, left) else [];
    var removes := ConsensusRemoveAttempts(t, n, root, op, left, right);
    var removes' := if two then ConsensusRemoveAttempts(t, n, root, op, right, left) else [];
    Nothing(false, root, 0); Nothing(false, root, 6); Nothing(false, root, 9); Nothing(false, root, 10);
    ConstantBlock(t, root, op, left, right); ConstantBlock(t, root, op, right, left);
    RepeatBlock(t, root, op, left, right); AssociateBlock(t, root, op, left, right);
    LatticeBlock(t, root, op, left, right); LatticeBlock(t, root, op, right, left);
    DeMorganBlock(t, root, op, left, right); FactorBlock(t, root, op, left, right);
    ConsensusAddBlock(t, root, op, left, right); ConsensusAddBlock(t, root, op, right, left);
    ConsensusRemoveBlock(t, n, root, op, left, right); ConsensusRemoveBlock(t, n, root, op, right, left);
    var s := constants + constants';
    BlockThen(constants, constants', false, root, 0, 0, 0, 0);
    BlockThen(s, repeats, false, root, 0, 0, 1, 3); s := s + repeats;
    BlockThen(s, associates, false, root, 0, 3, 4, 5); s := s + associates;
    BlockThen(s, lattice, false, root, 0, 5, 6, 6); s := s + lattice;
    BlockThen(s, lattice', false, root, 0, 6, 6, 6); s := s + lattice';
    BlockThen(s, nots, false, root, 0, 6, 7, 7); s := s + nots;
    BlockThen(s, factors, false, root, 0, 7, 8, 8); s := s + factors;
    BlockThen(s, adds, false, root, 0, 8, 9, 9); s := s + adds;
    BlockThen(s, adds', false, root, 0, 9, 9, 9); s := s + adds';
    BlockThen(s, removes, false, root, 0, 9, 10, 10); s := s + removes;
    BlockThen(s, removes', false, root, 0, 10, 10, 10); s := s + removes';
    assert BinaryAttempts(t, n, root, op, left, right) == s;
  }

  lemma TablesInside(t: Tables, n: nat, left: u32, right: u32, op: OpCode)
    requires op.UsesArg1() && TablesClosed(t, n) && left < n && right < n
    ensures |t.consts| == |t.nots| == |t.ands| == |t.ors| == n
    ensures t.nots[left] <= 0xFFFF_FFFF && t.nots[right] <= 0xFFFF_FFFF
    ensures var s := t.PairFor(right, Dual(op)); s.valid ==> s.a < n && s.b < n
    ensures var s := t.PairFor(left, Dual(op)); s.valid ==> s.a < n && s.b < n
  {
  }

  lemma NotBlock(t: Tables, n: nat, root: u32, left: u32)
    requires TablesClosed(t, n) && left < n
    ensures Block(NotAttempts(t, n, root, left), false, root, 0, 3)
  {
    hide Block;
    var none := When(t.consts[left] == 0, Attempt(NotFalse, root, [left]));
    var one := When(t.consts[left] == 1, Attempt(NotTrue, root, [left]));
    var double := if t.nots[left] >= 0 then [Attempt(DoubleNegation, root, [left, t.nots[left]])] else [];
    var ands := When(t.ands[left].valid, Attempt(DeMorganNotAnd, root, [left, t.ands[left].a, t.ands[left].b]));
    var ors := When(t.ors[left].valid, Attempt(DeMorganNotOr, root, [left, t.ors[left].a, t.ors[left].b]));
    One(t.consts[left] == 0, Attempt(NotFalse, root, [left]), false, 0);
    One(t.consts[left] == 1, Attempt(NotTrue, root, [left]), false, 0);
    Nothing(false, root, 1);
    if t.nots[left] >= 0 { One(true, Attempt(DoubleNegation, root, [left, t.nots[left]]), false, 1); }
    One(t.ands[left].valid, Attempt(DeMorganNotAnd, root, [left, t.ands[left].a, t.ands[left].b]), false, 2);
    One(t.ors[left].valid, Attempt(DeMorganNotOr, root, [left, t.ors[left].a, t.ors[left].b]), false, 3);
    BlockThen(none, one, false, root, 0, 0, 0, 0);
    BlockThen(none + one, double, false, root, 0, 0, 1, 1);
    BlockThen(ands, ors, false, root, 2, 2, 3, 3);
    BlockThen(none + one + double, ands + ors, false, root, 0, 1, 2, 3);
  }

  lemma FirstBlock(g: GraphBody, t: Tables, root: nat)
    requires g.Shaped() && TablesFor(g, t) && TablesClosed(t, g.Size()) && root < g.Size()
    ensures TableRow(g, t, root) && Block(FirstPass(g, t, root), false, root, 0, 10)
  {
    hide Block, BinaryAttempts, NotAttempts;
    assert TableRow(g, t, root);
    var op := g.op[root];
    if (op == And || op == Or) && (t.ands[root].valid || t.ors[root].valid) {
      BinaryBlock(t, g.Size(), root, op, g.arg0[root], g.arg1[root]);
    } else {
      Nothing(false, root, 0);
      Widen([], false, root, 0, 0, 10);
      if op == Not && t.nots[root] >= 0 {
        NotBlock(t, g.Size(), root, g.arg0[root]);
        Widen(NotAttempts(t, g.Size(), root, g.arg0[root]), false, root, 0, 3, 10);
      }
    }
  }

  lemma Widen(s: seq<Attempt>, second: bool, root: nat, lo: nat, hi: nat, hi': nat)
    requires Block(s, second, root, lo, hi) && hi <= hi'
    ensures Block(s, second, root, lo, hi')
  {
  }

  // ---- the second pass ---------------------------------------------------------------------

  lemma DoublingStages()
    ensures Stage(AndIdempotentInverse) == 0 && Stage(OrIdempotentInverse) == 1 && Stage(DoubleNegationInverse) == 2
    ensures Stage(AbsorbOrAndInverse) == 3 && Stage(AbsorbAndOrInverse) == 4
    ensures AsU16(AndIdempotentInverse) > 30 && AsU16(OrIdempotentInverse) > 30 && AsU16(DoubleNegationInverse) > 30
    ensures AsU16(AbsorbOrAndInverse) > 30 && AsU16(AbsorbAndOrInverse) > 30
  {
  }

  lemma DoublingBlock(root: u32)
    ensures Block(DoublingAttempts(root), true, root, 0, 4)
  {
    hide Block, AsU16, Stage;
    DoublingStages();
    var ands, ors := Attempt(AndIdempotentInverse, root, []), Attempt(OrIdempotentInverse, root, []);
    var nots := Attempt(DoubleNegationInverse, root, []);
    var absorb, absorb' := Attempt(AbsorbOrAndInverse, root, [root]), Attempt(AbsorbAndOrInverse, root, [root]);
    One(true, ands, true, 0); One(true, ors, true, 1); One(true, nots, true, 2);
    One(true, absorb, true, 3); One(true, absorb', true, 4);
    BlockThen([ands], [ors], true, root, 0, 0, 1, 1);
    BlockThen([ands] + [ors], [nots], true, root, 0, 1, 2, 2);
    BlockThen([ands] + [ors] + [nots], [absorb], true, root, 0, 2, 3, 3);
    BlockThen([ands] + [ors] + [nots] + [absorb], [absorb'], true, root, 0, 3, 4, 4);
  }

  /** An attempt with a table entry that may be missing. */
  lemma Maybe(entry: int, rule: RuleId, root: nat, stage: nat)
    requires entry <= 0xFFFF_FFFF && root <= 0xFFFF_FFFF && AsU16(rule) > 30 && Stage(rule) == stage
    ensures Block(if entry >= 0 then [Attempt(rule, root, [entry])] else [], true, root, stage, stage)
  {
    hide AsU16, Stage;
  }

  lemma UnitBlock(t: Tables, n: nat, root: u32)
    requires TablesClosed(t, n)
    ensures Block(UnitAttempts(t, n, root), true, root, 5, 6)
  {
    hide Block;
    Maybe(t.trueConst, AndTrueInverse, root, 5);
    Maybe(t.falseConst, OrFalseInverse, root, 6);
    BlockThen(if t.trueConst >= 0 then [Attempt(AndTrueInverse, root, [t.trueConst])] else [],
              if t.falseConst >= 0 then [Attempt(OrFalseInverse, root, [t.falseConst])] else [],
              true, root, 5, 5, 6, 6);
  }

  lemma UnfoldBlock(t: Tables, n: nat, root: u32, value: bool)
    requires TablesClosed(t, n)
    ensures Block(UnfoldAttempts(t, n, root, value), true, root, 7, 8)
  {
    hide Block;
    var a := Attempt(if value then OrTrueInverse else AndFalseInverse, root, [root]);
    var rule := if value then NotFalseInverse else NotTrueInverse;
    var entry := if value then t.falseConst else t.trueConst;
    One(true, a, true, 7);
    Maybe(entry, rule, root, 8);
    BlockThen([a], if entry >= 0 then [Attempt(rule, root, [entry])] else [], true, root, 7, 7, 8, 8);
  }

  lemma {:induction false} WitnessBlock(t: Tables, n: nat, root: u32, value: bool, k: nat)
    requires TablesClosed(t, n) && k <= n
    ensures Block(WitnessAttempts(t, n, root, value, k), true, root, 9, 9)
  {
    if k > 0 {
      WitnessBlock(t, n, root, value, k - 1);
      if t.nots[k - 1] >= 0 {
        var a := Attempt(if value then OrComplementInverse else AndComplementInverse, root, [t.nots[k - 1], k - 1]);
        One(true, a, true, 9);
        BlockThen(WitnessAttempts(t, n, root, value, k - 1), [a], true, root, 9, 9, 9, 9);
      }
    }
  }

  lemma SecondBlock(g: GraphBody, t: Tables, root: nat)
    requires g.Shaped() && TablesClosed(t, g.Size()) && root < g.Size()
    ensures Block(SecondPass(g, t, root), true, root, 0, 9)
  {
    hide Block, DoublingAttempts, UnitAttempts, UnfoldAttempts, WitnessAttempts, TablesClosed;
    var n, value := g.Size(), g.arg0[root] != 0;
    Nothing(true, root, 7); Widen([], true, root, 7, 7, 8); Nothing(true, root, 9); Nothing(true, root, 0);
    DoublingBlock(root); UnitBlock(t, n, root); UnfoldBlock(t, n, root, value); WitnessBlock(t, n, root, value, n);
    var grow := GrowAttempts(t, n, root);
    BlockThen(DoublingAttempts(root), UnitAttempts(t, n, root), true, root, 0, 4, 5, 6);
    var unfold := if g.op[root] == Const then UnfoldAttempts(t, n, root, value) else [];
    BlockThen(grow, unfold, true, root, 0, 6, 7, 8);
    var inverses := if g.op[root] == Const then WitnessAttempts(t, n, root, value, n) else [];
    if g.op[root] == Output {
      BlockThen([], inverses, true, root, 0, 0, 9, 9);
    } else {
      BlockThen(grow + unfold, inverses, true, root, 0, 8, 9, 9);
    }
  }

  // ---- the whole graph ---------------------------------------------------------------------

  /** Attempts below node `k` of one pass, in order. */
  ghost predicate PassInOrder(s: seq<Attempt>, second: bool, k: nat)
  {
    && (forall i :: 0 <= i < |s| ==> s[i].root < k && (AsU16(s[i].rule) > 30 <==> second))
    && InOrder(s)
  }

  ghost predicate InOrder(s: seq<Attempt>)
  {
    forall i, j :: 0 <= i < j < |s| ==> NotAfter(s[i].rule, s[i].root, s[j].rule, s[j].root)
  }

  lemma BlockAfter(s: seq<Attempt>, t: seq<Attempt>, second: bool, k: nat, hi: nat)
    requires PassInOrder(s, second, k) && Block(t, second, k, 0, hi)
    ensures PassInOrder(s + t, second, k + 1)
  {
    hide AsU16, Stage;
    var st := s + t;
    forall i, j | 0 <= i < j < |st|
      ensures NotAfter(st[i].rule, st[i].root, st[j].rule, st[j].root)
    {
      if j >= |s| {
        assert st[j] == t[j - |s|];
        if i >= |s| { assert st[i] == t[i - |s|]; }
      }
    }
  }

  lemma {:induction false} FirstInOrder(g: GraphBody, t: Tables, k: nat)
    requires g.Shaped() && TablesFor(g, t) && TablesClosed(t, g.Size()) && k <= g.Size()
    ensures PassInOrder(FirstUpTo(g, t, k), false, k)
  {
    hide PassInOrder, Block, FirstPass, TablesClosed, TablesFor, TableRow, PairSignal, NotSignal, ConstSignal;
    if k == 0 {
      EmptyInOrder(false);
    } else {
      FirstInOrder(g, t, k - 1);
      FirstStep(g, t, k - 1);
    }
  }

  lemma EmptyInOrder(second: bool)
    ensures PassInOrder([], second, 0)
  {
  }

  lemma FirstStep(g: GraphBody, t: Tables, k: nat)
    requires g.Shaped() && TablesFor(g, t) && TablesClosed(t, g.Size()) && k < g.Size()
    requires PassInOrder(FirstUpTo(g, t, k), false, k)
    ensures PassInOrder(FirstUpTo(g, t, k + 1), false, k + 1)
  {
    hide PassInOrder, Block, FirstPass, TablesClosed, TablesFor, PairSignal, NotSignal, ConstSignal;
    FirstBlock(g, t, k);
    BlockAfter(FirstUpTo(g, t, k), FirstPass(g, t, k), false, k, 10);
    assert FirstUpTo(g, t, k + 1) == FirstUpTo(g, t, k) + FirstPass(g, t, k);
  }

  lemma {:induction false} SecondInOrder(g: GraphBody, t: Tables, k: nat)
    requires g.Shaped() && TablesFor(g, t) && TablesClosed(t, g.Size()) && k <= g.Size()
    ensures PassInOrder(SecondUpTo(g, t, k), true, k)
  {
    hide PassInOrder, Block, SecondPass, TablesClosed, TablesFor;
    if k == 0 {
      EmptyInOrder(true);
    } else {
      SecondInOrder(g, t, k - 1);
      SecondStep(g, t, k - 1);
    }
  }

  lemma SecondStep(g: GraphBody, t: Tables, k: nat)
    requires g.Shaped() && TablesFor(g, t) && TablesClosed(t, g.Size()) && k < g.Size()
    requires PassInOrder(SecondUpTo(g, t, k), true, k)
    ensures PassInOrder(SecondUpTo(g, t, k + 1), true, k + 1)
  {
    hide PassInOrder, Block, SecondPass, TablesClosed, TablesFor;
    SecondBlock(g, t, k);
    BlockAfter(SecondUpTo(g, t, k), SecondPass(g, t, k), true, k, 9);
    assert SecondUpTo(g, t, k + 1) == SecondUpTo(g, t, k) + SecondPass(g, t, k);
  }

  lemma AttemptsInOrder(g: GraphBody, t: Tables)
    requires g.Shaped() && TablesFor(g, t) && TablesClosed(t, g.Size())
    ensures InOrder(AllAttempts(g, t))
  {
    hide AsU16, Stage, FirstUpTo, SecondUpTo, TablesClosed, TablesFor;
    FirstInOrder(g, t, g.Size());
    SecondInOrder(g, t, g.Size());
    var first, second := FirstUpTo(g, t, g.Size()), SecondUpTo(g, t, g.Size());
    var all := first + second;
    forall i, j | 0 <= i < j < |all|
      ensures NotAfter(all[i].rule, all[i].root, all[j].rule, all[j].root)
    {
      if j >= |first| {
        assert all[j] == second[j - |first|];
        if i >= |first| { assert all[i] == second[i - |first|]; }
      }
    }
  }

  /** Every collected candidate was attempted. */
  lemma {:induction false} CollectedWasTried(cfg: Config, attempts: seq<Attempt>, c: RawCandidate)
    requires AllShort(attempts) && c in Collect(cfg, attempts)
    ensures exists k :: 0 <= k < |attempts| && CandidateOf(attempts[k]) == c
  {
    hide CandidateOf;
    var last := |attempts| - 1;
    if c in Collect(cfg, attempts[..last]) {
      CollectedWasTried(cfg, attempts[..last], c);
      var k :| 0 <= k < last && CandidateOf(attempts[..last][k]) == c;
      assert attempts[k] == attempts[..last][k];
    } else {
      assert CandidateOf(attempts[last]) == c;
    }
  }

  /** Collecting keeps the order of the attempts. */
  lemma {:induction false} CollectInOrder(cfg: Config, tries: seq<Attempt>, i: nat, j: nat, a: Attempt, b: Attempt)
    requires AllShort(tries) && InOrder(tries) && |a.rest| < MAX_MATCHED && |b.rest| < MAX_MATCHED
    requires i < j < |Collect(cfg, tries)|
    requires Collect(cfg, tries)[i] == CandidateOf(a) && Collect(cfg, tries)[j] == CandidateOf(b)
    ensures NotAfter(a.rule, a.root, b.rule, b.root)
  {
    hide NotAfter, CandidateOf;
    var last := |tries| - 1;
    var init := tries[..last];
    var items := Collect(cfg, init);
    if j < |items| {
      CollectInOrder(cfg, init, i, j, a, b);
    } else {
      CandidateInjective(b, tries[last]);
      CollectedWasTried(cfg, init, items[i]);
      var k :| 0 <= k < |init| && CandidateOf(init[k]) == items[i];
      CandidateInjective(a, init[k]);
      assert tries[k] == init[k];
    }
  }

  /**
   * The candidates come in a fixed order: the first pass before the second, each pass node by node, and at
   * one node stage by stage. Together with the prefix law this says which candidates a limit keeps.
   */
  lemma EnumerationInOrder(
    g: GraphBody, includeReverse: bool, limit: Option<nat>, i: nat, j: nat, a: Attempt, b: Attempt)
    requires g.Shaped() && |a.rest| < MAX_MATCHED && |b.rest| < MAX_MATCHED
    requires i < j < |Enumerated(g, includeReverse, limit)|
    requires Enumerated(g, includeReverse, limit)[i] == CandidateOf(a)
    requires Enumerated(g, includeReverse, limit)[j] == CandidateOf(b)
    ensures NotAfter(a.rule, a.root, b.rule, b.root)
  {
    hide TablesOf, AllAttempts, NotAfter, InOrder;
    var t := TablesOf(g);
    TablesForAreClosed(g, t);
    AttemptsShort(g, t);
    AttemptsInOrder(g, t);
    CollectInOrder(ConfigFor(g, includeReverse, limit), AllAttempts(g, t), i, j, a, b);
  }
}

/** The inverse rule in the graph a rewrite hands on, that is, after compaction. */
module UndoOffered {
  import opened Basics
  import opened Graphs
  import opened Semantics
  import opened Compaction
  import opened Rules
  import opened RuleSoundness
  import opened Rewriting
  import opened RewriteTheorems
  import opened Inverses

  // ---- matches survive compaction ----------------------------------------------------------

  function Lift(keep: seq<nat>, rest: seq<nat>): seq<nat>
    requires forall k :: 0 <= k < |rest| ==> rest[k] < |keep|
  {
    seq(|rest|, k requires 0 <= k < |rest| => keep[rest[k]])
  }

  lemma NodesThrough(g: GraphBody, h: GraphBody, keep: seq<nat>)
    requires g.Shaped() && h.Shaped() && MadeOf(g, h, keep)
    ensures forall i: nat :: i < |keep| && Signal(g, keep[i]) ==> Signal(h, i)
    ensures forall i: nat, value: bool :: i < |keep| && IsConst(g, keep[i], value) ==> IsConst(h, i, value)
    ensures forall i: nat, a: nat :: i < |keep| && a < |keep| && IsNot(g, keep[i], keep[a]) ==> IsNot(h, i, a)
  {
    forall i: nat | i < |keep|
      ensures keep[i] < g.Size() && i < h.Size() && h.op[i] == g.op[keep[i]]
      ensures g.op[keep[i]] == Const ==> (h.arg0[i] != 0 <==> g.arg0[keep[i]] != 0)
    {
      GateOf(g, h, keep, i);
    }
    forall i: nat, a: nat | i < |keep| && a < |keep| && IsNot(g, keep[i], keep[a])
      ensures IsNot(h, i, a)
    {
      GateOf(g, h, keep, i);
      GateOf(g, h, keep, a);
      Injective(g, h, keep, h.arg0[i], a);
    }
  }

  lemma GateOf(g: GraphBody, h: GraphBody, keep: seq<nat>, i: nat)
    requires g.Shaped() && h.Shaped() && MadeOf(g, h, keep) && i < |keep|
    ensures |keep| == h.Size() && keep[i] < g.Size() && SameGate(g, h, keep, i)
  {
  }

  lemma Injective(g: GraphBody, h: GraphBody, keep: seq<nat>, i: nat, j: nat)
    requires g.Shaped() && h.Shaped() && MadeOf(g, h, keep) && i < |keep| && j < |keep| && keep[i] == keep[j]
    ensures i == j
  {
  }

  lemma PairThrough(g: GraphBody, h: GraphBody, keep: seq<nat>, op: OpCode, i: nat, a: nat, b: nat)
    requires g.Shaped() && h.Shaped() && MadeOf(g, h, keep) && op.UsesArg1()
    requires i < |keep| && a < |keep| && b < |keep| && IsPair(g, op, keep[i], keep[a], keep[b])
    ensures IsPair(h, op, i, a, b)
  {
    hide MadeOf;
    GateOf(g, h, keep, i);
    GateOf(g, h, keep, a);
    GateOf(g, h, keep, b);
    Injective(g, h, keep, h.arg0[i], a);
    Injective(g, h, keep, h.arg1[i], b);
  }

  lemma BinariesThrough(g: GraphBody, h: GraphBody, keep: seq<nat>, op: OpCode)
    requires g.Shaped() && h.Shaped() && MadeOf(g, h, keep) && op.UsesArg1()
    ensures forall i: nat, a: nat, b: nat ::
              i < |keep| && a < |keep| && b < |keep| && IsPair(g, op, keep[i], keep[a], keep[b]) ==> IsPair(h, op, i, a, b)
  {
    forall i: nat, a: nat, b: nat |
      i < |keep| && a < |keep| && b < |keep| && IsPair(g, op, keep[i], keep[a], keep[b])
      ensures IsPair(h, op, i, a, b)
    {
      PairThrough(g, h, keep, op, i, a, b);
    }
  }

  lemma BinaryThrough(g: GraphBody, h: GraphBody, keep: seq<nat>, op: OpCode, i: nat, a: nat, b: nat)
    requires g.Shaped() && h.Shaped() && MadeOf(g, h, keep) && op.UsesArg1()
    requires i < |keep| && a < |keep| && b < |keep| && IsBinary(g, op, keep[i], keep[a], keep[b])
    ensures IsBinary(h, op, i, a, b)
  {
    BinariesThrough(g, h, keep, op);
  }

  /** A binary gate over a known operand has its other operand in the compacted graph too. */
  lemma OtherOperand(g: GraphBody, h: GraphBody, keep: seq<nat>, op: OpCode, i: nat, a: nat, o: nat) returns (b: nat)
    requires g.Shaped() && h.Shaped() && MadeOf(g, h, keep) && op.UsesArg1()
    requires i < |keep| && a < |keep| && IsBinary(g, op, keep[i], keep[a], o)
    ensures b < |keep| && keep[b] == o && IsBinary(h, op, i, a, b)
  {
    hide MadeOf;
    GateOf(g, h, keep, i);
    b := if IsPair(g, op, keep[i], keep[a], o) then h.arg1[i] else h.arg0[i];
    if IsPair(g, op, keep[i], keep[a], o) {
      PairThrough(g, h, keep, op, i, a, b);
    } else {
      PairThrough(g, h, keep, op, i, b, a);
    }
  }

  /** The match in the compacted graph whose nodes are those of a match in the graph it was made of. */
  ghost predicate Carried(g: GraphBody, h: GraphBody, keep: seq<nat>, rule: RuleId, root: nat, rest: seq<nat>)
  {
    && g.Shaped() && h.Shaped() && MadeOf(g, h, keep)
    && root < |keep| && (forall k :: 0 <= k < |rest| ==> rest[k] < |keep|)
    && Instance(g, rule, keep[root], Lift(keep, rest))
  }

  lemma FoldsThrough(g: GraphBody, h: GraphBody, keep: seq<nat>, rule: RuleId, root: nat, rest: seq<nat>)
    requires Carried(g, h, keep, rule, root, rest) && AsU16(rule) <= 10
    ensures Instance(h, rule, root, rest)
  {
    NodesThrough(g, h, keep);
    BinariesThrough(g, h, keep, And);
    BinariesThrough(g, h, keep, Or);
    hide MadeOf;
    match rule
    case AndFalse =>
      var o: nat :| IsBinary(g, And, keep[root], keep[rest[0]], o);
      var b := OtherOperand(g, h, keep, And, root, rest[0], o);
    case OrTrue =>
      var o: nat :| IsBinary(g, Or, keep[root], keep[rest[0]], o);
      var b := OtherOperand(g, h, keep, Or, root, rest[0], o);
    case _ =>
  }

  lemma ReshapesThrough(g: GraphBody, h: GraphBody, keep: seq<nat>, rule: RuleId, root: nat, rest: seq<nat>)
    requires Carried(g, h, keep, rule, root, rest) && 10 < AsU16(rule) <= 22
    ensures Instance(h, rule, root, rest)
  {
    NodesThrough(g, h, keep);
    BinariesThrough(g, h, keep, And);
    BinariesThrough(g, h, keep, Or);
    hide MadeOf;
  }

  lemma DistributionThrough(g: GraphBody, h: GraphBody, keep: seq<nat>, rule: RuleId, root: nat, rest: seq<nat>)
    requires Carried(g, h, keep, rule, root, rest) && 22 < AsU16(rule) <= 26
    ensures Instance(h, rule, root, rest)
  {
    BinariesThrough(g, h, keep, And);
    BinariesThrough(g, h, keep, Or);
    hide MadeOf;
  }

  lemma ConsensusAddThrough(g: GraphBody, h: GraphBody, keep: seq<nat>, op: OpCode, root: nat, rest: seq<nat>)
    requires g.Shaped() && h.Shaped() && MadeOf(g, h, keep) && op.UsesArg1() && |rest| == 6
    requires root < |keep| && (forall k :: 0 <= k < |rest| ==> rest[k] < |keep|)
    requires ConsensusAddInstance(g, op, keep[root], Lift(keep, rest))
    ensures ConsensusAddInstance(h, op, root, rest)
  {
    NodesThrough(g, h, keep);
    BinariesThrough(g, h, keep, op);
    BinariesThrough(g, h, keep, Dual(op));
    hide MadeOf;
  }

  lemma ConsensusRemoveThrough(g: GraphBody, h: GraphBody, keep: seq<nat>, op: OpCode, root: nat, rest: seq<nat>)
    requires g.Shaped() && h.Shaped() && MadeOf(g, h, keep) && op.UsesArg1() && |rest| == 7
    requires root < |keep| && (forall k :: 0 <= k < |rest| ==> rest[k] < |keep|)
    requires ConsensusRemoveInstance(g, op, keep[root], Lift(keep, rest))
    ensures ConsensusRemoveInstance(h, op, root, rest)
  {
    hide MadeOf, ConsensusTerms, IsBinary;
    assert Lift(keep, rest)[0] == keep[rest[0]] && Lift(keep, rest)[1] == keep[rest[1]];
    BinaryThrough(g, h, keep, op, root, rest[0], rest[1]);
    BinaryThrough(g, h, keep, op, rest[0], rest[2], rest[3]);
    BinaryThrough(g, h, keep, Dual(op), rest[1], rest[5], rest[6]);
    RemovedThrough(g, h, keep, op, rest);
  }

  lemma RemovedThrough(g: GraphBody, h: GraphBody, keep: seq<nat>, op: OpCode, rest: seq<nat>)
    requires g.Shaped() && h.Shaped() && MadeOf(g, h, keep) && op.UsesArg1() && |rest| == 7
    requires forall k :: 0 <= k < |rest| ==> rest[k] < |keep|
    requires exists na: nat :: ConsensusTerms(g, Dual(op), keep[rest[2]], keep[rest[3]], keep[rest[4]], keep[rest[5]],
                                              keep[rest[6]], na)
    ensures exists na: nat :: ConsensusTerms(h, Dual(op), rest[2], rest[3], rest[4], rest[5], rest[6], na)
  {
    NodesThrough(g, h, keep);
    BinariesThrough(g, h, keep, Dual(op));
    hide MadeOf;
    var na: nat :| ConsensusTerms(g, Dual(op), keep[rest[2]], keep[rest[3]], keep[rest[4]], keep[rest[5]],
                                  keep[rest[6]], na);
    assert IsBinary(g, Dual(op), keep[rest[3]], keep[rest[6]], na);
    var b := OtherOperand(g, h, keep, Dual(op), rest[3], rest[6], na);
    assert ConsensusTerms(h, Dual(op), rest[2], rest[3], rest[4], rest[5], rest[6], b);
  }

  lemma ConsensusThrough(g: GraphBody, h: GraphBody, keep: seq<nat>, rule: RuleId, root: nat, rest: seq<nat>)
    requires Carried(g, h, keep, rule, root, rest) && 26 < AsU16(rule) <= 30
    ensures Instance(h, rule, root, rest)
  {
    hide MadeOf, Instance, ConsensusAddInstance, ConsensusRemoveInstance;
    ConsensusMatch(g, rule, keep[root], Lift(keep, rest));
    ConsensusMatch(h, rule, root, rest);
    if rule.ConsensusOrAdd? || rule.ConsensusAndAdd? {
      ConsensusAddThrough(g, h, keep, ConsensusOp(rule), root, rest);
    } else {
      ConsensusRemoveThrough(g, h, keep, ConsensusOp(rule), root, rest);
    }
  }

  /** The simplifying and reshaping rules match in the compacted graph wherever they matched before. */
  lemma MatchThrough(g: GraphBody, h: GraphBody, keep: seq<nat>, rule: RuleId, root: nat, rest: seq<nat>)
    requires Carried(g, h, keep, rule, root, rest) && AsU16(rule) <= 30
    ensures Instance(h, rule, root, rest)
  {
    hide Instance, MadeOf;
    if AsU16(rule) <= 10 {
      FoldsThrough(g, h, keep, rule, root, rest);
    } else if AsU16(rule) <= 22 {
      ReshapesThrough(g, h, keep, rule, root, rest);
    } else if AsU16(rule) <= 26 {
      DistributionThrough(g, h, keep, rule, root, rest);
    } else {
      ConsensusThrough(g, h, keep, rule, root, rest);
    }
  }

  // ---- the nodes of a match survive with its root ------------------------------------------

  ghost predicate AllSurvive(g: GraphBody, rest: seq<nat>)
    requires g.Shaped()
  {
    forall k :: 0 <= k < |rest| ==> Kept(g, rest[k])
  }

  lemma OperandsSurvive(g: GraphBody, op: OpCode, i: nat, a: nat, b: nat)
    requires WellFormed(g) && LiveClosed(g) && op.UsesArg1() && Kept(g, i) && IsBinary(g, op, i, a, b)
    ensures Kept(g, a) && Kept(g, b)
  {
    KeptOperands(g, i, a);
    KeptOperands(g, i, b);
  }

  lemma NegandSurvives(g: GraphBody, i: nat, a: nat)
    requires WellFormed(g) && LiveClosed(g) && Kept(g, i) && IsNot(g, i, a)
    ensures Kept(g, a)
  {
    KeptOperands(g, i, a);
  }

  lemma ConstantSurvives(g: GraphBody, rule: RuleId, root: u32, rest: seq<u32>)
    requires WellFormed(g) && LiveClosed(g) && Kept(g, root) && Instance(g, rule, root, rest) && AsU16(rule) <= 5
    ensures AllSurvive(g, rest)
  {
    hide Kept, LiveClosed;
    match rule
    case AndFalse => var o: nat :| IsBinary(g, And, root, rest[0], o); OperandsSurvive(g, And, root, rest[0], o);
    case OrTrue => var o: nat :| IsBinary(g, Or, root, rest[0], o); OperandsSurvive(g, Or, root, rest[0], o);
    case AndTrue => OperandsSurvive(g, And, root, rest[0], rest[1]);
    case OrFalse => OperandsSurvive(g, Or, root, rest[0], rest[1]);
    case NotFalse | NotTrue => NegandSurvives(g, root, rest[0]);
  }

  lemma FoldSurvives(g: GraphBody, rule: RuleId, root: u32, rest: seq<u32>)
    requires WellFormed(g) && LiveClosed(g) && Kept(g, root) && Instance(g, rule, root, rest) && 5 < AsU16(rule) <= 12
    ensures AllSurvive(g, rest)
  {
    hide Kept, LiveClosed;
    match rule
    case AndComplement | CommuteAnd => OperandsSurvive(g, And, root, rest[0], rest[1]);
    case OrComplement | CommuteOr => OperandsSurvive(g, Or, root, rest[0], rest[1]);
    case AndIdempotent => OperandsSurvive(g, And, root, rest[0], rest[0]);
    case OrIdempotent => OperandsSurvive(g, Or, root, rest[0], rest[0]);
    case DoubleNegation => NegandSurvives(g, root, rest[0]); NegandSurvives(g, rest[0], rest[1]);
  }

  lemma ReshapeSurvives(g: GraphBody, rule: RuleId, root: u32, rest: seq<u32>)
    requires WellFormed(g) && LiveClosed(g) && Kept(g, root) && Instance(g, rule, root, rest) && 12 < AsU16(rule) <= 18
    ensures AllSurvive(g, rest)
  {
    hide Kept, LiveClosed;
    match rule
    case AssociateAndLeft =>
      OperandsSurvive(g, And, root, rest[1], rest[0]); OperandsSurvive(g, And, rest[0], rest[2], rest[3]);
    case AssociateAndRight =>
      OperandsSurvive(g, And, root, rest[0], rest[3]); OperandsSurvive(g, And, rest[0], rest[1], rest[2]);
    case AssociateOrLeft =>
      OperandsSurvive(g, Or, root, rest[1], rest[0]); OperandsSurvive(g, Or, rest[0], rest[2], rest[3]);
    case AssociateOrRight =>
      OperandsSurvive(g, Or, root, rest[0], rest[3]); OperandsSurvive(g, Or, rest[0], rest[1], rest[2]);
    case AbsorbAndOr =>
      OperandsSurvive(g, And, root, rest[0], rest[1]); OperandsSurvive(g, Or, rest[1], rest[0], rest[2]);
    case AbsorbOrAnd =>
      OperandsSurvive(g, Or, root, rest[0], rest[1]); OperandsSurvive(g, And, rest[1], rest[0], rest[2]);
  }

  lemma DeMorganSurvives(g: GraphBody, rule: RuleId, root: u32, rest: seq<u32>)
    requires WellFormed(g) && LiveClosed(g) && Kept(g, root) && Instance(g, rule, root, rest) && 18 < AsU16(rule) <= 22
    ensures AllSurvive(g, rest)
  {
    hide Kept, LiveClosed;
    match rule
    case DeMorganNotAnd => NegandSurvives(g, root, rest[0]); OperandsSurvive(g, And, rest[0], rest[1], rest[2]);
    case DeMorganNotOr => NegandSurvives(g, root, rest[0]); OperandsSurvive(g, Or, rest[0], rest[1], rest[2]);
    case DeMorganAndNots =>
      OperandsSurvive(g, And, root, rest[0], rest[1]);
      NegandSurvives(g, rest[0], rest[2]); NegandSurvives(g, rest[1], rest[3]);
    case DeMorganOrNots =>
      OperandsSurvive(g, Or, root, rest[0], rest[1]);
      NegandSurvives(g, rest[0], rest[2]); NegandSurvives(g, rest[1], rest[3]);
  }

  lemma DistributionSurvives(g: GraphBody, rule: RuleId, root: u32, rest: seq<u32>)
    requires WellFormed(g) && LiveClosed(g) && Kept(g, root) && Instance(g, rule, root, rest) && 22 < AsU16(rule) <= 26
    ensures AllSurvive(g, rest)
  {
    hide Kept, LiveClosed;
    var op := if rule.DistributeAndFactor? || rule.DistributeOrExpand? then And else Or;
    match rule
    case DistributeAndFactor | DistributeOrFactor =>
      OperandsSurvive(g, op, root, rest[0], rest[1]);
      OperandsSurvive(g, Dual(op), rest[0], rest[2], rest[3]);
      OperandsSurvive(g, Dual(op), rest[1], rest[2], rest[4]);
    case DistributeOrExpand | DistributeAndExpand =>
      OperandsSurvive(g, op, root, rest[1], rest[0]);
      OperandsSurvive(g, Dual(op), rest[0], rest[2], rest[3]);
  }

  lemma ConsensusSurvives(g: GraphBody, rule: RuleId, root: u32, rest: seq<u32>)
    requires WellFormed(g) && LiveClosed(g) && Kept(g, root) && Instance(g, rule, root, rest) && 26 < AsU16(rule) <= 30
    ensures AllSurvive(g, rest)
  {
    hide Kept, LiveClosed, Instance;
    ConsensusMatch(g, rule, root, rest);
    var op := ConsensusOp(rule);
    if rule.ConsensusOrAdd? || rule.ConsensusAndAdd? {
      OperandsSurvive(g, op, root, rest[0], rest[1]);
      OperandsSurvive(g, Dual(op), rest[0], rest[2], rest[3]);
      OperandsSurvive(g, Dual(op), rest[1], rest[5], rest[4]);
    } else {
      var na: nat :| ConsensusTerms(g, Dual(op), rest[2], rest[3], rest[4], rest[5], rest[6], na);
      OperandsSurvive(g, op, root, rest[0], rest[1]);
      OperandsSurvive(g, op, rest[0], rest[2], rest[3]);
      OperandsSurvive(g, Dual(op), rest[2], rest[4], rest[5]);
      OperandsSurvive(g, Dual(op), rest[3], na, rest[6]);
    }
  }

  lemma MatchSurvives(g: GraphBody, rule: RuleId, root: u32, rest: seq<u32>)
    requires WellFormed(g) && LiveClosed(g) && Kept(g, root) && Instance(g, rule, root, rest) && AsU16(rule) <= 30
    ensures AllSurvive(g, rest)
  {
    hide Instance, AllSurvive;
    if AsU16(rule) <= 5 {
      ConstantSurvives(g, rule, root, rest);
    } else if AsU16(rule) <= 12 {
      FoldSurvives(g, rule, root, rest);
    } else if AsU16(rule) <= 18 {
      ReshapeSurvives(g, rule, root, rest);
    } else if AsU16(rule) <= 22 {
      DeMorganSurvives(g, rule, root, rest);
    } else if AsU16(rule) <= 26 {
      DistributionSurvives(g, rule, root, rest);
    } else {
      ConsensusSurvives(g, rule, root, rest);
    }
  }

  /** The match of a simplifying or reshaping rule at a surviving root, renumbered, is one in the compacted graph. */
  lemma MatchCompacts(g: GraphBody, rule: RuleId, root: u32, rest: seq<u32>) returns (at: u32, back: seq<u32>)
    requires WellFormed(g) && Kept(g, root) && Instance(g, rule, root, rest) && AsU16(rule) <= 30
    ensures Compact(g).Ok? && Compact(g).value.Shaped() && Instance(Compact(g).value, rule, at, back)
    ensures |back| == |rest|
  {
    hide Instance, MadeOf, Kept, KeepUpTo, NewIndex;
    CompactSucceeds(g);
    CompactWellFormed(g);
    InstanceInRange(g, rule, root, rest);
    MatchSurvives(g, rule, root, rest);
    CompactMadeOf(g);
    var keep := KeepUpTo(g, g.Size());
    KeptIndex(g, root);
    at := NewIndex(g, root);
    forall k | 0 <= k < |rest|
      ensures NewIndex(g, rest[k]) < |keep| && keep[NewIndex(g, rest[k])] == rest[k]
    {
      KeptIndex(g, rest[k]);
    }
    back := seq(|rest|, k requires 0 <= k < |rest| => NewIndex(g, rest[k]));
    assert Lift(keep, back) == rest;
    MatchThrough(g, Compact(g).value, keep, rule, at, back);
  }

  lemma KeptIndex(g: GraphBody, i: nat)
    requires WellFormed(g) && Kept(g, i)
    ensures var keep := KeepUpTo(g, g.Size());
            NewIndex(g, i) < |keep| <= g.Size() && keep[NewIndex(g, i)] == i
  {
    NewIndexOfKept(g, i, g.Size());
  }

  // ---- the inverse in the graph handed on --------------------------------------------------

  /** Folds whose inverse needs another node, a constant or a negation, that compaction may drop. */
  predicate FoldsAway(rule: RuleId)
  {
    rule.AndTrue? || rule.OrFalse? || rule.NotFalse? || rule.NotTrue? || rule.AndComplement? || rule.OrComplement?
  }

  /** The other folds leave their operand, at which the inverse matches by itself. */
  lemma FoldMatches(h: GraphBody, body: GraphBody, rule: RuleId, result: nat, at: nat, back: seq<nat>)
    requires h.Shaped() && body.Shaped() && AsU16(rule) <= 18 && !FoldsAway(rule) && AsU16(InverseRule(rule)) > 30
    requires Instance(h, InverseRule(rule), result, back)
    requires Signal(h, result) ==> Signal(body, at)
    requires forall value: bool :: IsConst(h, result, value) ==> IsConst(body, at, value)
    ensures Instance(body, InverseRule(rule), at, if back == [] then [] else [at])
  {
  }

  lemma FoldCompacts(h: GraphBody, rule: RuleId, result: u32, back: seq<u32>) returns (at: u32, bind: seq<u32>)
    requires WellFormed(h) && Kept(h, result) && AsU16(rule) <= 18 && !FoldsAway(rule) && AsU16(InverseRule(rule)) > 30
    requires Instance(h, InverseRule(rule), result, back)
    ensures Compact(h).Ok? && Compact(h).value.Shaped() && Instance(Compact(h).value, InverseRule(rule), at, bind)
  {
    hide Instance, MadeOf, Kept, KeepUpTo, NewIndex, InverseRule;
    CompactSucceeds(h);
    CompactWellFormed(h);
    CompactMadeOf(h);
    KeptIndex(h, result);
    at := NewIndex(h, result);
    NodesThrough(h, Compact(h).value, KeepUpTo(h, h.Size()));
    bind := if back == [] then [] else [at];
    FoldMatches(h, Compact(h).value, rule, result, at, back);
  }

  /** If the output depends on the root, it depends on what stands for it afterwards. */
  lemma RootHandsOn(g: GraphBody, root: u32, plan: Plan)
    requires WellFormed(g) && Acyclic(g) && Live(g, root) && root != g.outputNode
    requires Rewritten(g, root, plan).Shaped() && plan.result < Rewritten(g, root, plan).Size()
    ensures Kept(Rewritten(g, root, plan), plan.result)
  {
    hide Rewritten;
    var h := Rewritten(g, root, plan);
    var r :| IsRank(g, r);
    var p: seq<nat> :| PathFromTo(g, p, g.outputNode, root);
    var result: nat := plan.result;
    var q := p[..|p| - 1] + [result];
    forall k | 0 <= k < |q| - 1
      ensures h.Reads(q[k], q[k + 1])
    {
      assert g.Reads(p[k], p[k + 1]);
      RewrittenNode(g, root, plan, p[k]);
      if k + 1 < |p| - 1 {
        var tail := p[k + 1..];
        assert IsPath(g, tail);
        PathLowersRank(g, r, tail);
        assert p[k + 1] != root;
      }
    }
    assert PathFromTo(h, q, h.outputNode, result);
  }

  /**
   * After a rewrite at a node the output depends on, the inverse rule is an instance in the graph handed on, so it
   * could be chosen next. The exceptions are the folds whose other operand may be gone.
   */
  lemma UndoIsOffered(g: GraphBody, rule: RuleId, root: u32, rest: seq<u32>) returns (at: u32, back: seq<u32>)
    requires WellFormed(g) && Acyclic(g) && Instance(g, rule, root, rest) && |rest| < MAX_MATCHED
    requires g.Size() + rule.ExtraNodes() <= g.capacity && Reversible(rule, root, rest) && !FoldsAway(rule)
    requires Live(g, root) && root != g.outputNode
    ensures var after := Apply(g, Candidate(rule, root, rest));
            && after.Ok? && WellFormed(after.value) && Instance(after.value, InverseRule(rule), at, back)
  {
    hide Instance, Rewritten, ReplacementPlan, Back, Reversible, InverseRule, Apply, Kept;
    var h, result := RewrittenBy(g, rule, root, rest), ResultOf(g, rule, root, rest);
    RewrittenWellFormed(g, rule, root, rest);
    ApplySucceeds(g, rule, root, rest);
    InverseMatches(g, rule, root, rest);
    PlanReadsMatch(g, rule, root, rest);
    InstanceInRange(g, rule, root, rest);
    RootHandsOn(g, root, PlanOf(g, rule, root, rest));
    var bind := Back(h, rule, root, rest, g.Size());
    if AsU16(InverseRule(rule)) <= 30 {
      at, back := MatchCompacts(h, InverseRule(rule), result, bind);
    } else {
      InverseOfSimplifier(rule);
      at, back := FoldCompacts(h, rule, result, bind);
    }
  }

  lemma InverseOfSimplifier(rule: RuleId)
    requires AsU16(InverseRule(rule)) > 30
    ensures AsU16(rule) <= 18
  {
  }
}

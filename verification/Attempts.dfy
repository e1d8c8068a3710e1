/** The order in which the enumerator tries rules at each node. */
module Attempts {
  import opened Basics
  import opened Graphs
  import opened Rules

  /** One call of `Builder::add`: a rule, the root and the other matched nodes. */
  datatype Attempt = Attempt(rule: RuleId, root: u32, rest: seq<u32>)

  datatype Pair = Pair(a: u32, b: u32, valid: bool)

  /**
   * What the enumerator tabulates about each node before matching; -1 stands for "none".
   * `falseConst` and `trueConst` are the lowest constants of each value.
   */
  datatype Tables = Tables(
    consts: seq<int>, nots: seq<int>, ands: seq<Pair>, ors: seq<Pair>, falseConst: int, trueConst: int)
  {
    function PairFor(node: nat, kind: OpCode): Pair
      requires node < |ands| == |ors|
    {
      if kind == And then ands[node] else ors[node]
    }
  }

  function ConstSignal(g: GraphBody, i: nat): int
    requires g.Shaped() && i < g.Size()
  {
    if g.op[i] != Const then -1 else if g.arg0[i] != 0 then 1 else 0
  }

  function NotSignal(g: GraphBody, i: nat): int
    requires g.Shaped() && i < g.Size()
  {
    if g.op[i] == Not && Signal(g, g.arg0[i]) then g.arg0[i] else -1
  }

  function PairSignal(g: GraphBody, kind: OpCode, i: nat): Pair
    requires g.Shaped() && i < g.Size()
  {
    if g.op[i] == kind && Signal(g, g.arg0[i]) && Signal(g, g.arg1[i])
    then Pair(g.arg0[i], g.arg1[i], true)
    else Pair(0, 0, false)
  }

  ghost predicate LowestConst(g: GraphBody, value: bool, at: int)
    requires g.Shaped()
  {
    if at == -1 then forall i: nat :: !IsConst(g, i, value) else at >= 0 && FirstConst(g, value, at)
  }

  ghost predicate TableRow(g: GraphBody, t: Tables, i: nat)
    requires g.Shaped() && |t.consts| == |t.nots| == |t.ands| == |t.ors| == g.Size() && i < g.Size()
  {
    && t.consts[i] == ConstSignal(g, i)
    && t.nots[i] == NotSignal(g, i)
    && t.ands[i] == PairSignal(g, And, i)
    && t.ors[i] == PairSignal(g, Or, i)
  }

  ghost predicate TablesFor(g: GraphBody, t: Tables)
    requires g.Shaped()
  {
    && |t.consts| == |t.nots| == |t.ands| == |t.ors| == g.Size()
    && (forall i: nat :: i < g.Size() ==> TableRow(g, t, i))
    && LowestConst(g, false, t.falseConst)
    && LowestConst(g, true, t.trueConst)
  }

  // ---- rule names by gate kind -------------------------------------------------------------

  function Idempotent(op: OpCode): RuleId { if op == And then AndIdempotent else OrIdempotent }
  function Complement(op: OpCode): RuleId { if op == And then AndComplement else OrComplement }
  function Commute(op: OpCode): RuleId { if op == And then CommuteAnd else CommuteOr }
  function AssociateLeft(op: OpCode): RuleId { if op == And then AssociateAndLeft else AssociateOrLeft }
  function AssociateRight(op: OpCode): RuleId { if op == And then AssociateAndRight else AssociateOrRight }
  function Absorb(op: OpCode): RuleId { if op == And then AbsorbAndOr else AbsorbOrAnd }
  function Expand(op: OpCode): RuleId { if op == And then DistributeOrExpand else DistributeAndExpand }
  function DeMorganNots(op: OpCode): RuleId { if op == And then DeMorganAndNots else DeMorganOrNots }
  function Factor(op: OpCode): RuleId { if op == And then DistributeAndFactor else DistributeOrFactor }
  function ConsensusAdd(op: OpCode): RuleId { if op == And then ConsensusAndAdd else ConsensusOrAdd }
  function ConsensusRemove(op: OpCode): RuleId { if op == And then ConsensusAndRemove else ConsensusOrRemove }

  function When(condition: bool, attempt: Attempt): seq<Attempt>
  {
    if condition then [attempt] else []
  }

  // ---- binary roots ------------------------------------------------------------------------

  /** The constant-folding attempts for one operand, `other` being the opposite one. */
  function ConstantAttempts(t: Tables, root: u32, op: OpCode, operand: u32, other: u32): seq<Attempt>
    requires operand < |t.consts|
  {
    if op == And then
      When(t.consts[operand] == 0, Attempt(AndFalse, root, [operand]))
      + When(t.consts[operand] == 1, Attempt(AndTrue, root, [operand, other]))
    else
      When(t.consts[operand] == 0, Attempt(OrFalse, root, [operand, other]))
      + When(t.consts[operand] == 1, Attempt(OrTrue, root, [operand]))
  }

  function RepeatAttempts(t: Tables, root: u32, op: OpCode, left: u32, right: u32): seq<Attempt>
    requires left < |t.nots| && right < |t.nots|
  {
    When(left == right, Attempt(Idempotent(op), root, [left]))
    + When(t.nots[right] >= 0 && t.nots[right] == left, Attempt(Complement(op), root, [left, right]))
    + When(left != right && t.nots[left] >= 0 && t.nots[left] == right, Attempt(Complement(op), root, [right, left]))
    + [Attempt(Commute(op), root, [left, right])]
  }

  function AssociateAttempts(t: Tables, root: u32, op: OpCode, left: u32, right: u32): seq<Attempt>
    requires left < |t.ands| == |t.ors| && right < |t.ands|
  {
    var l, r := t.PairFor(left, op), t.PairFor(right, op);
    When(l.valid, Attempt(AssociateRight(op), root, [left, l.a, l.b, right]))
    + When(r.valid, Attempt(AssociateLeft(op), root, [right, left, r.a, r.b]))
  }

  /** Absorption and expansion against one operand `inner` of the dual kind. */
  function LatticeAttempts(t: Tables, root: u32, op: OpCode, outer: u32, inner: u32): seq<Attempt>
    requires op.UsesArg1() && inner < |t.ands| == |t.ors|
  {
    var p := t.PairFor(inner, Dual(op));
    if !p.valid then [] else
      When(p.a == outer, Attempt(Absorb(op), root, [outer, inner, p.b]))
      + When(p.b == outer && p.a != p.b, Attempt(Absorb(op), root, [outer, inner, p.a]))
      + [Attempt(Expand(op), root, [inner, outer, p.a, p.b])]
  }

  function DeMorganNotsAttempts(t: Tables, root: u32, op: OpCode, left: u32, right: u32): seq<Attempt>
    requires left < |t.nots| && right < |t.nots|
    requires t.nots[left] <= 0xFFFF_FFFF && t.nots[right] <= 0xFFFF_FFFF
  {
    if t.nots[left] >= 0 && t.nots[right] >= 0
    then [Attempt(DeMorganNots(op), root, [left, right, t.nots[left], t.nots[right]])]
    else []
  }

  function FactorPair(root: u32, op: OpCode, left: u32, right: u32, la: u32, lb: u32, r: Pair): seq<Attempt>
  {
    if r.a == r.b then [] else
      When(la == r.a, Attempt(Factor(op), root, [left, right, la, lb, r.b]))
      + When(la == r.b, Attempt(Factor(op), root, [left, right, la, lb, r.a]))
  }

  /** Both operand orders on both sides; a side whose operands coincide is skipped in both orders. */
  function FactorAttempts(t: Tables, root: u32, op: OpCode, left: u32, right: u32): seq<Attempt>
    requires op.UsesArg1() && left < |t.ands| == |t.ors| && right < |t.ands|
  {
    var l, r := t.PairFor(left, Dual(op)), t.PairFor(right, Dual(op));
    if !l.valid || !r.valid || l.a == l.b then [] else
      FactorPair(root, op, left, right, l.a, l.b, r) + FactorPair(root, op, left, right, l.b, l.a, r)
  }

  /** `consensus_add_bindings` for one choice of term operands. */
  function ConsensusAddAt(
    t: Tables, root: u32, op: OpCode, first: u32, second: u32, a: u32, b: u32, na: u32, c: u32): seq<Attempt>
    requires na < |t.nots|
  {
    When(t.nots[na] >= 0 && t.nots[na] == a, Attempt(ConsensusAdd(op), root, [first, second, a, b, c, na]))
  }

  /** `consensus_add_bindings`. */
  function ConsensusAddAttempts(t: Tables, root: u32, op: OpCode, first: u32, second: u32): seq<Attempt>
    requires op.UsesArg1() && first < |t.ands| == |t.ors| && second < |t.ands|
    requires var s := t.PairFor(second, Dual(op)); s.valid ==> s.a < |t.nots| && s.b < |t.nots|
  {
    var f, s := t.PairFor(first, Dual(op)), t.PairFor(second, Dual(op));
    if !f.valid || !s.valid then [] else
      ConsensusAddAt(t, root, op, first, second, f.a, f.b, s.a, s.b)
      + (if s.a == s.b then [] else ConsensusAddAt(t, root, op, first, second, f.a, f.b, s.b, s.a))
      + (if f.a == f.b then [] else
          ConsensusAddAt(t, root, op, first, second, f.b, f.a, s.a, s.b)
          + (if s.a == s.b then [] else ConsensusAddAt(t, root, op, first, second, f.b, f.a, s.b, s.a)))
  }

  /** `binary_of`: the node is the gate `kind` over these two operands, in either order. */
  predicate BinaryOf(t: Tables, node: nat, kind: OpCode, left: u32, right: u32)
    requires node < |t.ands| == |t.ors|
  {
    var p := t.PairFor(node, kind);
    p.valid && ((p.a == left && p.b == right) || (p.a == right && p.b == left))
  }

  function ConsensusRemoveAt(
    t: Tables, root: u32, op: OpCode, inner: u32, term: u32, first: u32, second: u32,
    a: u32, b: u32, na: u32, c: u32): seq<Attempt>
    requires op.UsesArg1() && na < |t.nots| && term < |t.ands| == |t.ors|
  {
    When(t.nots[na] >= 0 && t.nots[na] == a && BinaryOf(t, term, Dual(op), b, c),
         Attempt(ConsensusRemove(op), root, [inner, term, first, second, a, b, c]))
  }

  /** The tables stay inside the graph: every tabulated operand is a node. */
  predicate TablesClosed(t: Tables, n: nat)
  {
    && |t.consts| == |t.nots| == |t.ands| == |t.ors| == n <= 0x7FFF_FFFF
    && (forall i :: 0 <= i < n ==> t.nots[i] < n)
    && (forall i :: 0 <= i < n && t.ands[i].valid ==> t.ands[i].a < n && t.ands[i].b < n)
    && (forall i :: 0 <= i < n && t.ors[i].valid ==> t.ors[i].a < n && t.ors[i].b < n)
    && t.falseConst < n && t.trueConst < n
  }

  /** One operand order of the inner gate in `consensus_remove_bindings`. */
  function ConsensusRemoveOrdered(
    t: Tables, n: nat, root: u32, op: OpCode, inner: u32, term: u32, first: u32, second: u32): seq<Attempt>
    requires op.UsesArg1() && TablesClosed(t, n) && first < n && second < n && term < n
  {
    var f, s := t.PairFor(first, Dual(op)), t.PairFor(second, Dual(op));
    if !f.valid || !s.valid then [] else
      ConsensusRemoveAt(t, root, op, inner, term, first, second, f.a, f.b, s.a, s.b)
      + (if s.a == s.b then [] else ConsensusRemoveAt(t, root, op, inner, term, first, second, f.a, f.b, s.b, s.a))
      + (if f.a == f.b then [] else
          ConsensusRemoveAt(t, root, op, inner, term, first, second, f.b, f.a, s.a, s.b)
          + (if s.a == s.b then [] else
              ConsensusRemoveAt(t, root, op, inner, term, first, second, f.b, f.a, s.b, s.a)))
  }

  /** `consensus_remove_bindings`; an inner gate over one node twice is skipped in both orders. */
  function ConsensusRemoveAttempts(t: Tables, n: nat, root: u32, op: OpCode, inner: u32, term: u32): seq<Attempt>
    requires op.UsesArg1() && TablesClosed(t, n) && inner < n && term < n
  {
    var p := t.PairFor(inner, op);
    if !p.valid || p.a == p.b then [] else
      ConsensusRemoveOrdered(t, n, root, op, inner, term, p.a, p.b)
      + ConsensusRemoveOrdered(t, n, root, op, inner, term, p.b, p.a)
  }

  /** Everything tried at an AND or OR root over valid operands. */
  function BinaryAttempts(t: Tables, n: nat, root: u32, op: OpCode, left: u32, right: u32): seq<Attempt>
    requires op.UsesArg1() && TablesClosed(t, n) && left < n && right < n
  {
    var rightOrder := left != right;
    ConstantAttempts(t, root, op, left, right)
    + (if rightOrder then ConstantAttempts(t, root, op, right, left) else [])
    + RepeatAttempts(t, root, op, left, right)
    + AssociateAttempts(t, root, op, left, right)
    + LatticeAttempts(t, root, op, left, right)
    + (if rightOrder then LatticeAttempts(t, root, op, right, left) else [])
    + DeMorganNotsAttempts(t, root, op, left, right)
    + FactorAttempts(t, root, op, left, right)
    + ConsensusAddAttempts(t, root, op, left, right)
    + (if rightOrder then ConsensusAddAttempts(t, root, op, right, left) else [])
    + ConsensusRemoveAttempts(t, n, root, op, left, right)
    + (if rightOrder then ConsensusRemoveAttempts(t, n, root, op, right, left) else [])
  }

  // ---- other roots -------------------------------------------------------------------------

  function NegatedFoldAttempts(t: Tables, n: nat, root: u32, left: u32): seq<Attempt>
    requires TablesClosed(t, n) && left < n
  {
    When(t.consts[left] == 0, Attempt(NotFalse, root, [left]))
    + When(t.consts[left] == 1, Attempt(NotTrue, root, [left]))
    + (if t.nots[left] >= 0 then [Attempt(DoubleNegation, root, [left, t.nots[left]])] else [])
  }

  function NegatedPairAttempts(t: Tables, n: nat, root: u32, left: u32): seq<Attempt>
    requires TablesClosed(t, n) && left < n
  {
    When(t.ands[left].valid, Attempt(DeMorganNotAnd, root, [left, t.ands[left].a, t.ands[left].b]))
    + When(t.ors[left].valid, Attempt(DeMorganNotOr, root, [left, t.ors[left].a, t.ors[left].b]))
  }

  /** Everything tried at a NOT root over a valid operand. */
  function NotAttempts(t: Tables, n: nat, root: u32, left: u32): seq<Attempt>
    requires TablesClosed(t, n) && left < n
  {
    NegatedFoldAttempts(t, n, root, left) + NegatedPairAttempts(t, n, root, left)
  }

  /** The first pass at one root: simplifying and reshaping rules. */
  function FirstPass(g: GraphBody, t: Tables, root: nat): seq<Attempt>
    requires g.Shaped() && TablesClosed(t, g.Size()) && root < g.Size()
    requires t.ands[root] == PairSignal(g, And, root) && t.ors[root] == PairSignal(g, Or, root)
    requires t.nots[root] == NotSignal(g, root)
  {
    var op := g.op[root];
    if (op == And || op == Or) && (t.ands[root].valid || t.ors[root].valid) then
      BinaryAttempts(t, g.Size(), root, op, g.arg0[root], g.arg1[root])
    else if op == Not && t.nots[root] >= 0 then
      NotAttempts(t, g.Size(), root, g.arg0[root])
    else []
  }

  function DoublingAttempts(root: u32): seq<Attempt>
  {
    [Attempt(AndIdempotentInverse, root, [])]
    + [Attempt(OrIdempotentInverse, root, [])]
    + [Attempt(DoubleNegationInverse, root, [])]
    + [Attempt(AbsorbOrAndInverse, root, [root])]
    + [Attempt(AbsorbAndOrInverse, root, [root])]
  }

  function UnitAttempts(t: Tables, n: nat, root: u32): seq<Attempt>
    requires TablesClosed(t, n)
  {
    (if t.trueConst >= 0 then [Attempt(AndTrueInverse, root, [t.trueConst])] else [])
    + (if t.falseConst >= 0 then [Attempt(OrFalseInverse, root, [t.falseConst])] else [])
  }

  /** The expanding rules that apply at any signal. */
  function GrowAttempts(t: Tables, n: nat, root: u32): seq<Attempt>
    requires TablesClosed(t, n)
  {
    DoublingAttempts(root) + UnitAttempts(t, n, root)
  }

  /** The expanding rules that apply at a constant, other than the complement inverses. */
  function UnfoldAttempts(t: Tables, n: nat, root: u32, value: bool): seq<Attempt>
    requires TablesClosed(t, n)
  {
    if !value then
      [Attempt(AndFalseInverse, root, [root])]
      + (if t.trueConst >= 0 then [Attempt(NotTrueInverse, root, [t.trueConst])] else [])
    else
      [Attempt(OrTrueInverse, root, [root])]
      + (if t.falseConst >= 0 then [Attempt(NotFalseInverse, root, [t.falseConst])] else [])
  }

  /** The complement inverses at a constant, one per negation among the first `k` nodes. */
  function WitnessAttempts(t: Tables, n: nat, root: u32, value: bool, k: nat): seq<Attempt>
    requires TablesClosed(t, n) && k <= n
  {
    if k == 0 then [] else
      WitnessAttempts(t, n, root, value, k - 1)
      + (if t.nots[k - 1] < 0 then [] else
          [Attempt(if value then OrComplementInverse else AndComplementInverse, root, [t.nots[k - 1], k - 1])])
  }

  /** The part of the second pass before the witness loop. */
  function SecondPassHead(g: GraphBody, t: Tables, root: nat): seq<Attempt>
    requires g.Shaped() && TablesClosed(t, g.Size()) && root < g.Size()
  {
    if g.op[root] == Output then [] else
      GrowAttempts(t, g.Size(), root)
      + (if g.op[root] == Const then UnfoldAttempts(t, g.Size(), root, g.arg0[root] != 0) else [])
  }

  /** The second pass at one root: expanding rules. */
  function SecondPass(g: GraphBody, t: Tables, root: nat): seq<Attempt>
    requires g.Shaped() && TablesClosed(t, g.Size()) && root < g.Size()
  {
    SecondPassHead(g, t, root)
    + (if g.op[root] == Const then WitnessAttempts(t, g.Size(), root, g.arg0[root] != 0, g.Size()) else [])
  }

  /** The lowest constant of a value below `k`, or -1. */
  function LowestBelow(g: GraphBody, value: bool, k: nat): (at: int)
    requires g.Shaped() && k <= g.Size()
    ensures -1 <= at < k
    ensures at >= 0 ==> FirstConst(g, value, at)
    ensures at == -1 ==> forall i: nat :: i < k ==> !IsConst(g, i, value)
  {
    if k == 0 then -1
    else if LowestBelow(g, value, k - 1) >= 0 then LowestBelow(g, value, k - 1)
    else if IsConst(g, k - 1, value) then k - 1
    else -1
  }

  /** The tables of a graph. */
  function TablesOf(g: GraphBody): (t: Tables)
    requires g.Shaped()
    ensures TablesFor(g, t)
  {
    var n := g.Size();
    var t := Tables(
      seq(n, i requires 0 <= i < n => ConstSignal(g, i)),
      seq(n, i requires 0 <= i < n => NotSignal(g, i)),
      seq(n, i requires 0 <= i < n => PairSignal(g, And, i)),
      seq(n, i requires 0 <= i < n => PairSignal(g, Or, i)),
      LowestBelow(g, false, n),
      LowestBelow(g, true, n));
    assert forall i: nat :: i < n ==> TableRow(g, t, i);
    t
  }

  /** The tables are determined by the graph. */
  lemma TablesUnique(g: GraphBody, t: Tables)
    requires g.Shaped() && TablesFor(g, t)
    ensures t == TablesOf(g)
  {
    var u := TablesOf(g);
    forall i: nat | i < g.Size()
      ensures t.consts[i] == u.consts[i] && t.nots[i] == u.nots[i] && t.ands[i] == u.ands[i] && t.ors[i] == u.ors[i]
    {
      assert TableRow(g, t, i);
    }
  }

  lemma TablesForAreClosed(g: GraphBody, t: Tables)
    requires g.Shaped() && TablesFor(g, t)
    ensures TablesClosed(t, g.Size())
  {
    forall i | 0 <= i < g.Size()
      ensures t.nots[i] < g.Size()
      ensures t.ands[i].valid ==> t.ands[i].a < g.Size() && t.ands[i].b < g.Size()
      ensures t.ors[i].valid ==> t.ors[i].a < g.Size() && t.ors[i].b < g.Size()
    {
      assert TableRow(g, t, i);
    }
  }
}

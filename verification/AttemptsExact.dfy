/** The enumerator tries exactly the matches of the pattern definitions. */
module AttemptsExact {
  import opened Basics
  import opened Graphs
  import opened Rules
  import opened Attempts

  ghost predicate Matches(g: GraphBody, a: Attempt)
    requires g.Shaped()
  {
    Instance(g, a.rule, a.root, a.rest)
  }

  /** A binary root over signals `left`, `right`, with the tables of its graph. */
  ghost predicate BinaryRoot(g: GraphBody, t: Tables, root: u32, op: OpCode, left: u32, right: u32)
    requires g.Shaped()
  {
    TablesFor(g, t) && op.UsesArg1() && IsPair(g, op, root, left, right)
  }

  /** What the tables say about a binary gate. */
  lemma PairTabled(g: GraphBody, t: Tables, op: OpCode, i: nat)
    requires g.Shaped() && TablesFor(g, t) && op.UsesArg1() && i < g.Size()
    ensures var p := t.PairFor(i, op);
            && (p.valid ==> IsPair(g, op, i, p.a, p.b))
            && (forall a: nat, b: nat :: IsPair(g, op, i, a, b) ==> p.valid && p.a == a && p.b == b)
  {
    assert TableRow(g, t, i);
  }

  lemma NotTabled(g: GraphBody, t: Tables, i: nat)
    requires g.Shaped() && TablesFor(g, t) && i < g.Size()
    ensures t.nots[i] >= 0 ==> IsNot(g, i, t.nots[i])
    ensures forall a: nat :: IsNot(g, i, a) ==> t.nots[i] == a
  {
    assert TableRow(g, t, i);
  }

  lemma ConstTabled(g: GraphBody, t: Tables, i: nat)
    requires g.Shaped() && TablesFor(g, t) && i < g.Size()
    ensures t.consts[i] == 0 <==> IsConst(g, i, false)
    ensures t.consts[i] == 1 <==> IsConst(g, i, true)
  {
    assert TableRow(g, t, i);
  }

  // ---- binary roots ------------------------------------------------------------------------

  predicate ConstantRule(op: OpCode, rule: RuleId)
  {
    if op == And then rule.AndFalse? || rule.AndTrue? else rule.OrFalse? || rule.OrTrue?
  }

  lemma AnnihilatorOneWay(g: GraphBody, t: Tables, root: u32, op: OpCode, operand: u32, other: u32, a: Attempt)
    requires g.Shaped() && TablesFor(g, t) && op.UsesArg1() && IsBinary(g, op, root, operand, other)
    requires a.root == root && a.rule == if op == And then AndFalse else OrTrue
    ensures a in ConstantAttempts(t, root, op, operand, other) <==> Matches(g, a) && a.rest[0] == operand
  {
    ConstTabled(g, t, operand);
    if |a.rest| == 1 { assert a.rest == [a.rest[0]]; }
  }

  lemma UnitOneWay(g: GraphBody, t: Tables, root: u32, op: OpCode, operand: u32, other: u32, a: Attempt)
    requires g.Shaped() && TablesFor(g, t) && op.UsesArg1() && IsBinary(g, op, root, operand, other)
    requires a.root == root && a.rule == if op == And then AndTrue else OrFalse
    ensures a in ConstantAttempts(t, root, op, operand, other) <==> Matches(g, a) && a.rest == [operand, other]
  {
    ConstTabled(g, t, operand);
    if |a.rest| == 2 { assert a.rest == [a.rest[0], a.rest[1]]; }
  }

  lemma ConstantNames(t: Tables, root: u32, op: OpCode, operand: u32, other: u32, a: Attempt)
    requires operand < |t.consts|
    ensures a in ConstantAttempts(t, root, op, operand, other) ==> a.root == root && ConstantRule(op, a.rule)
  {
  }

  lemma ConstantExact(g: GraphBody, t: Tables, root: u32, op: OpCode, left: u32, right: u32, a: Attempt)
    requires g.Shaped() && BinaryRoot(g, t, root, op, left, right) && a.root == root
    ensures a in ConstantAttempts(t, root, op, left, right)
            || (left != right && a in ConstantAttempts(t, root, op, right, left))
            <==> ConstantRule(op, a.rule) && Matches(g, a)
  {
    hide ConstantAttempts;
    ConstantNames(t, root, op, left, right, a);
    ConstantNames(t, root, op, right, left, a);
    if a.rule == if op == And then AndFalse else OrTrue {
      AnnihilatorOneWay(g, t, root, op, left, right, a);
      AnnihilatorOneWay(g, t, root, op, right, left, a);
    } else if a.rule == if op == And then AndTrue else OrFalse {
      UnitOneWay(g, t, root, op, left, right, a);
      UnitOneWay(g, t, root, op, right, left, a);
      if |a.rest| == 2 { assert a.rest == [a.rest[0], a.rest[1]]; }
    }
  }

  predicate RepeatRule(op: OpCode, rule: RuleId)
  {
    rule == Idempotent(op) || rule == Complement(op) || rule == Commute(op)
  }

  lemma RepeatNames(t: Tables, root: u32, op: OpCode, left: u32, right: u32, a: Attempt)
    requires left < |t.nots| && right < |t.nots|
    ensures a in RepeatAttempts(t, root, op, left, right) ==> a.root == root && RepeatRule(op, a.rule)
  {
  }

  lemma IdempotentOneWay(g: GraphBody, t: Tables, root: u32, op: OpCode, left: u32, right: u32, a: Attempt)
    requires g.Shaped() && BinaryRoot(g, t, root, op, left, right) && a.root == root
    requires a.rule == Idempotent(op) || a.rule == Commute(op)
    ensures a in RepeatAttempts(t, root, op, left, right) <==> Matches(g, a)
  {
    if |a.rest| == 1 { assert a.rest == [a.rest[0]]; }
    if |a.rest| == 2 { assert a.rest == [a.rest[0], a.rest[1]]; }
  }

  lemma ComplementOneWay(g: GraphBody, t: Tables, root: u32, op: OpCode, left: u32, right: u32, a: Attempt)
    requires g.Shaped() && BinaryRoot(g, t, root, op, left, right) && a.root == root
    requires a.rule == Complement(op)
    ensures a in RepeatAttempts(t, root, op, left, right) <==> Matches(g, a)
  {
    NotTabled(g, t, left);
    NotTabled(g, t, right);
    if |a.rest| == 2 { assert a.rest == [a.rest[0], a.rest[1]]; }
  }

  lemma RepeatExact(g: GraphBody, t: Tables, root: u32, op: OpCode, left: u32, right: u32, a: Attempt)
    requires g.Shaped() && BinaryRoot(g, t, root, op, left, right) && a.root == root
    ensures a in RepeatAttempts(t, root, op, left, right) <==> RepeatRule(op, a.rule) && Matches(g, a)
  {
    hide RepeatAttempts, Instance;
    RepeatNames(t, root, op, left, right, a);
    if a.rule == Idempotent(op) || a.rule == Commute(op) {
      IdempotentOneWay(g, t, root, op, left, right, a);
    } else if a.rule == Complement(op) {
      ComplementOneWay(g, t, root, op, left, right, a);
    }
  }

  predicate AssociateRule(op: OpCode, rule: RuleId)
  {
    rule == AssociateLeft(op) || rule == AssociateRight(op)
  }

  lemma AssociateExact(g: GraphBody, t: Tables, root: u32, op: OpCode, left: u32, right: u32, a: Attempt)
    requires g.Shaped() && BinaryRoot(g, t, root, op, left, right) && a.root == root
    ensures a in AssociateAttempts(t, root, op, left, right) <==> AssociateRule(op, a.rule) && Matches(g, a)
  {
    PairTabled(g, t, op, left);
    PairTabled(g, t, op, right);
    if |a.rest| == 4 { assert a.rest == [a.rest[0], a.rest[1], a.rest[2], a.rest[3]]; }
  }

  predicate LatticeRule(op: OpCode, rule: RuleId)
  {
    rule == Absorb(op) || rule == Expand(op)
  }

  lemma LatticeNames(t: Tables, root: u32, op: OpCode, outer: u32, inner: u32, a: Attempt)
    requires op.UsesArg1() && inner < |t.ands| == |t.ors|
    ensures a in LatticeAttempts(t, root, op, outer, inner) ==> a.root == root && LatticeRule(op, a.rule)
  {
  }

  lemma AbsorbOneWay(g: GraphBody, t: Tables, root: u32, op: OpCode, outer: u32, inner: u32, a: Attempt)
    requires g.Shaped() && TablesFor(g, t) && op.UsesArg1() && IsBinary(g, op, root, outer, inner)
    requires a.root == root && a.rule == Absorb(op)
    ensures a in LatticeAttempts(t, root, op, outer, inner)
            <==> Matches(g, a) && a.rest[0] == outer && a.rest[1] == inner
  {
    PairTabled(g, t, Dual(op), inner);
    if |a.rest| == 3 { assert a.rest == [a.rest[0], a.rest[1], a.rest[2]]; }
  }

  lemma ExpandOneWay(g: GraphBody, t: Tables, root: u32, op: OpCode, outer: u32, inner: u32, a: Attempt)
    requires g.Shaped() && TablesFor(g, t) && op.UsesArg1() && IsBinary(g, op, root, outer, inner)
    requires a.root == root && a.rule == Expand(op)
    ensures a in LatticeAttempts(t, root, op, outer, inner)
            <==> Matches(g, a) && a.rest[0] == inner && a.rest[1] == outer
  {
    PairTabled(g, t, Dual(op), inner);
    if |a.rest| == 4 { assert a.rest == [a.rest[0], a.rest[1], a.rest[2], a.rest[3]]; }
  }

  lemma LatticeExact(g: GraphBody, t: Tables, root: u32, op: OpCode, left: u32, right: u32, a: Attempt)
    requires g.Shaped() && BinaryRoot(g, t, root, op, left, right) && a.root == root
    ensures a in LatticeAttempts(t, root, op, left, right)
            || (left != right && a in LatticeAttempts(t, root, op, right, left))
            <==> LatticeRule(op, a.rule) && Matches(g, a)
  {
    hide LatticeAttempts;
    LatticeNames(t, root, op, left, right, a);
    LatticeNames(t, root, op, right, left, a);
    if a.rule == Absorb(op) {
      AbsorbOneWay(g, t, root, op, left, right, a);
      AbsorbOneWay(g, t, root, op, right, left, a);
    } else if a.rule == Expand(op) {
      ExpandOneWay(g, t, root, op, left, right, a);
      ExpandOneWay(g, t, root, op, right, left, a);
    }
  }

  lemma DeMorganNotsExact(g: GraphBody, t: Tables, root: u32, op: OpCode, left: u32, right: u32, a: Attempt)
    requires g.Shaped() && BinaryRoot(g, t, root, op, left, right) && a.root == root
    requires TablesClosed(t, g.Size())
    ensures a in DeMorganNotsAttempts(t, root, op, left, right) <==> a.rule == DeMorganNots(op) && Matches(g, a)
  {
    NotTabled(g, t, left);
    NotTabled(g, t, right);
    if |a.rest| == 4 { assert a.rest == [a.rest[0], a.rest[1], a.rest[2], a.rest[3]]; }
  }

  lemma FactorList(t: Tables, root: u32, op: OpCode, left: u32, right: u32, a: Attempt)
    requires op.UsesArg1() && left < |t.ands| == |t.ors| && right < |t.ands|
    requires a.root == root && a.rule == Factor(op) && |a.rest| == 5
    ensures a in FactorAttempts(t, root, op, left, right) <==>
            && a.rest[0] == left && a.rest[1] == right
            && BinaryOf(t, left, Dual(op), a.rest[2], a.rest[3])
            && BinaryOf(t, right, Dual(op), a.rest[2], a.rest[4])
            && a.rest[2] != a.rest[3] && a.rest[2] != a.rest[4]
  {
    assert a.rest == [a.rest[0], a.rest[1], a.rest[2], a.rest[3], a.rest[4]];
  }

  lemma FactorPairNames(root: u32, op: OpCode, left: u32, right: u32, la: u32, lb: u32, r: Pair, a: Attempt)
    ensures a in FactorPair(root, op, left, right, la, lb, r) ==>
            a.root == root && a.rule == Factor(op) && |a.rest| == 5
  {
  }

  lemma FactorNames(t: Tables, root: u32, op: OpCode, left: u32, right: u32, a: Attempt)
    requires op.UsesArg1() && left < |t.ands| == |t.ors| && right < |t.ands|
    ensures a in FactorAttempts(t, root, op, left, right) ==> a.root == root && a.rule == Factor(op) && |a.rest| == 5
  {
    hide FactorPair;
    var l, r := t.PairFor(left, Dual(op)), t.PairFor(right, Dual(op));
    FactorPairNames(root, op, left, right, l.a, l.b, r, a);
    FactorPairNames(root, op, left, right, l.b, l.a, r, a);
  }

  lemma FactorExact(g: GraphBody, t: Tables, root: u32, op: OpCode, left: u32, right: u32, a: Attempt)
    requires g.Shaped() && BinaryRoot(g, t, root, op, left, right) && a.root == root
    ensures a in FactorAttempts(t, root, op, left, right) <==> a.rule == Factor(op) && Matches(g, a)
  {
    hide FactorAttempts;
    FactorNames(t, root, op, left, right, a);
    if a.rule == Factor(op) && |a.rest| == 5 {
      FactorList(t, root, op, left, right, a);
      PairTabled(g, t, Dual(op), left);
      PairTabled(g, t, Dual(op), right);
    }
  }

  /** The two terms of a consensus, as the tables give them. */
  ghost predicate TermsTabled(t: Tables, f: Pair, s: Pair, a: nat, b: nat, na: nat, c: nat)
    requires s.valid ==> s.a < |t.nots| && s.b < |t.nots|
  {
    && f.valid && s.valid
    && ((a == f.a && b == f.b) || (a == f.b && b == f.a))
    && ((na == s.a && c == s.b) || (na == s.b && c == s.a))
    && t.nots[na] >= 0 && t.nots[na] == a
  }

  lemma TermsFromTables(
    g: GraphBody, t: Tables, op: OpCode, first: u32, second: u32, a: nat, b: nat, c: nat, na: nat)
    requires g.Shaped() && TablesFor(g, t) && op.UsesArg1() && first < g.Size() && second < g.Size()
    requires TablesClosed(t, g.Size())
    ensures TermsTabled(t, t.PairFor(first, op), t.PairFor(second, op), a, b, na, c)
            <==> ConsensusTerms(g, op, first, second, a, b, c, na)
  {
    PairTabled(g, t, op, first);
    PairTabled(g, t, op, second);
    if na < g.Size() { NotTabled(g, t, na); }
  }

  lemma ConsensusAddAtList(
    t: Tables, root: u32, op: OpCode, first: u32, second: u32, p: u32, q: u32, na: u32, c: u32, a: Attempt)
    requires na < |t.nots|
    ensures a in ConsensusAddAt(t, root, op, first, second, p, q, na, c) <==>
            && t.nots[na] >= 0 && t.nots[na] == p
            && a.root == root && a.rule == ConsensusAdd(op) && |a.rest| == 6
            && a.rest[0] == first && a.rest[1] == second && a.rest[2] == p && a.rest[3] == q
            && a.rest[4] == c && a.rest[5] == na
  {
    if |a.rest| == 6 {
      assert a.rest == [a.rest[0], a.rest[1], a.rest[2], a.rest[3], a.rest[4], a.rest[5]];
    }
  }

  /** The candidate list of `consensus_add_bindings` in terms of the tables alone. */
  lemma ConsensusAddList(t: Tables, root: u32, op: OpCode, first: u32, second: u32, a: Attempt)
    requires op.UsesArg1() && first < |t.ands| == |t.ors| && second < |t.ands|
    requires var s := t.PairFor(second, Dual(op)); s.valid ==> s.a < |t.nots| && s.b < |t.nots|
    requires a.root == root && a.rule == ConsensusAdd(op) && |a.rest| == 6
    ensures a in ConsensusAddAttempts(t, root, op, first, second) <==>
            && a.rest[0] == first && a.rest[1] == second
            && TermsTabled(t, t.PairFor(first, Dual(op)), t.PairFor(second, Dual(op)),
                           a.rest[2], a.rest[3], a.rest[5], a.rest[4])
  {
    hide ConsensusAddAt;
    var f, s := t.PairFor(first, Dual(op)), t.PairFor(second, Dual(op));
    if f.valid && s.valid {
      ConsensusAddAtList(t, root, op, first, second, f.a, f.b, s.a, s.b, a);
      ConsensusAddAtList(t, root, op, first, second, f.a, f.b, s.b, s.a, a);
      ConsensusAddAtList(t, root, op, first, second, f.b, f.a, s.a, s.b, a);
      ConsensusAddAtList(t, root, op, first, second, f.b, f.a, s.b, s.a, a);
    }
  }

  lemma ConsensusAddNames(t: Tables, root: u32, op: OpCode, first: u32, second: u32, a: Attempt)
    requires op.UsesArg1() && first < |t.ands| == |t.ors| && second < |t.ands|
    requires var s := t.PairFor(second, Dual(op)); s.valid ==> s.a < |t.nots| && s.b < |t.nots|
    ensures a in ConsensusAddAttempts(t, root, op, first, second) ==>
              a.root == root && a.rule == ConsensusAdd(op) && |a.rest| == 6
  {
    hide ConsensusAddAt;
    var f, s := t.PairFor(first, Dual(op)), t.PairFor(second, Dual(op));
    if f.valid && s.valid {
      ConsensusAddAtList(t, root, op, first, second, f.a, f.b, s.a, s.b, a);
      ConsensusAddAtList(t, root, op, first, second, f.a, f.b, s.b, s.a, a);
      ConsensusAddAtList(t, root, op, first, second, f.b, f.a, s.a, s.b, a);
      ConsensusAddAtList(t, root, op, first, second, f.b, f.a, s.b, s.a, a);
    }
  }

  lemma ConsensusAddOneWay(g: GraphBody, t: Tables, root: u32, op: OpCode, first: u32, second: u32, a: Attempt)
    requires g.Shaped() && TablesFor(g, t) && TablesClosed(t, g.Size()) && op.UsesArg1()
    requires IsBinary(g, op, root, first, second) && a.root == root
    ensures a in ConsensusAddAttempts(t, root, op, first, second)
            <==> a.rule == ConsensusAdd(op) && Matches(g, a) && a.rest[0] == first && a.rest[1] == second
  {
    hide ConsensusAddAttempts;
    ConsensusAddNames(t, root, op, first, second, a);
    if a.rule == ConsensusAdd(op) && |a.rest| == 6 {
      ConsensusAddList(t, root, op, first, second, a);
      TermsFromTables(g, t, Dual(op), first, second, a.rest[2], a.rest[3], a.rest[4], a.rest[5]);
    }
  }

  lemma ConsensusAddExact(g: GraphBody, t: Tables, root: u32, op: OpCode, left: u32, right: u32, a: Attempt)
    requires g.Shaped() && BinaryRoot(g, t, root, op, left, right) && a.root == root
    requires TablesClosed(t, g.Size())
    ensures a in ConsensusAddAttempts(t, root, op, left, right)
            || (left != right && a in ConsensusAddAttempts(t, root, op, right, left))
            <==> a.rule == ConsensusAdd(op) && Matches(g, a)
  {
    hide ConsensusAddAttempts;
    ConsensusAddOneWay(g, t, root, op, left, right, a);
    ConsensusAddOneWay(g, t, root, op, right, left, a);
  }

  lemma ConsensusRemoveAtList(
    t: Tables, root: u32, op: OpCode, inner: u32, term: u32, first: u32, second: u32,
    p: u32, q: u32, na: u32, c: u32, a: Attempt)
    requires op.UsesArg1() && na < |t.nots| && term < |t.ands| == |t.ors|
    ensures a in ConsensusRemoveAt(t, root, op, inner, term, first, second, p, q, na, c) <==>
            && t.nots[na] >= 0 && t.nots[na] == p && BinaryOf(t, term, Dual(op), q, c)
            && a.root == root && a.rule == ConsensusRemove(op) && |a.rest| == 7
            && a.rest[0] == inner && a.rest[1] == term && a.rest[2] == first && a.rest[3] == second
            && a.rest[4] == p && a.rest[5] == q && a.rest[6] == c
  {
    if |a.rest| == 7 {
      assert a.rest == [a.rest[0], a.rest[1], a.rest[2], a.rest[3], a.rest[4], a.rest[5], a.rest[6]];
    }
  }

  /** The four operand orders of one inner order, spelled out. */
  lemma ConsensusRemoveOrders(
    t: Tables, n: nat, root: u32, op: OpCode, inner: u32, term: u32, first: u32, second: u32, a: Attempt)
    requires op.UsesArg1() && TablesClosed(t, n) && first < n && second < n && term < n
    ensures var f, s := t.PairFor(first, Dual(op)), t.PairFor(second, Dual(op));
            a in ConsensusRemoveOrdered(t, n, root, op, inner, term, first, second) <==>
            && f.valid && s.valid
            && (|| a in ConsensusRemoveAt(t, root, op, inner, term, first, second, f.a, f.b, s.a, s.b)
                || a in ConsensusRemoveAt(t, root, op, inner, term, first, second, f.a, f.b, s.b, s.a)
                || a in ConsensusRemoveAt(t, root, op, inner, term, first, second, f.b, f.a, s.a, s.b)
                || a in ConsensusRemoveAt(t, root, op, inner, term, first, second, f.b, f.a, s.b, s.a))
  {
    hide ConsensusRemoveAt;
  }

  /** The candidate list of one inner order of `consensus_remove_bindings` in terms of the tables alone. */
  lemma ConsensusRemoveList(
    t: Tables, n: nat, root: u32, op: OpCode, inner: u32, term: u32, first: u32, second: u32, a: Attempt)
    requires op.UsesArg1() && TablesClosed(t, n) && first < n && second < n && term < n
    ensures a in ConsensusRemoveOrdered(t, n, root, op, inner, term, first, second) <==>
            && a.root == root && a.rule == ConsensusRemove(op) && |a.rest| == 7
            && a.rest[0] == inner && a.rest[1] == term && a.rest[2] == first && a.rest[3] == second
            && BinaryOf(t, term, Dual(op), a.rest[5], a.rest[6])
            && exists na: nat :: TermsTabled(t, t.PairFor(first, Dual(op)), t.PairFor(second, Dual(op)),
                                             a.rest[4], a.rest[5], na, a.rest[6])
  {
    hide ConsensusRemoveOrdered, ConsensusRemoveAt;
    var f, s := t.PairFor(first, Dual(op)), t.PairFor(second, Dual(op));
    ConsensusRemoveOrders(t, n, root, op, inner, term, first, second, a);
    if f.valid && s.valid {
      ConsensusRemoveAtList(t, root, op, inner, term, first, second, f.a, f.b, s.a, s.b, a);
      ConsensusRemoveAtList(t, root, op, inner, term, first, second, f.a, f.b, s.b, s.a, a);
      ConsensusRemoveAtList(t, root, op, inner, term, first, second, f.b, f.a, s.a, s.b, a);
      ConsensusRemoveAtList(t, root, op, inner, term, first, second, f.b, f.a, s.b, s.a, a);
      if |a.rest| == 7 {
        assert TermsTabled(t, f, s, a.rest[4], a.rest[5], s.a, a.rest[6])
            || TermsTabled(t, f, s, a.rest[4], a.rest[5], s.b, a.rest[6])
            || forall na: nat :: !TermsTabled(t, f, s, a.rest[4], a.rest[5], na, a.rest[6]);
      }
    }
  }

  /** One inner order of `consensus_remove_bindings`, in terms of the graph. */
  lemma ConsensusRemoveOrder(
    g: GraphBody, t: Tables, root: u32, op: OpCode, inner: u32, term: u32, first: u32, second: u32, a: Attempt)
    requires g.Shaped() && TablesFor(g, t) && TablesClosed(t, g.Size()) && op.UsesArg1()
    requires IsBinary(g, op, root, inner, term) && IsBinary(g, op, inner, first, second) && first != second
    requires a.root == root
    ensures a in ConsensusRemoveOrdered(t, g.Size(), root, op, inner, term, first, second) <==>
            && a.rule == ConsensusRemove(op) && |a.rest| == 7
            && a.rest[0] == inner && a.rest[1] == term && a.rest[2] == first && a.rest[3] == second
            && ConsensusRemoveInstance(g, op, root, a.rest)
  {
    hide ConsensusRemoveOrdered, TermsTabled, ConsensusTerms;
    ConsensusRemoveList(t, g.Size(), root, op, inner, term, first, second, a);
    if a.rule == ConsensusRemove(op) && |a.rest| == 7 {
      PairTabled(g, t, Dual(op), term);
      forall na: nat
        ensures TermsTabled(t, t.PairFor(first, Dual(op)), t.PairFor(second, Dual(op)),
                            a.rest[4], a.rest[5], na, a.rest[6])
                <==> ConsensusTerms(g, Dual(op), first, second, a.rest[4], a.rest[5], a.rest[6], na)
      {
        TermsFromTables(g, t, Dual(op), first, second, a.rest[4], a.rest[5], a.rest[6], na);
      }
    }
  }

  lemma ConsensusRemoveMatch(g: GraphBody, op: OpCode, a: Attempt)
    requires g.Shaped() && op.UsesArg1() && a.rule == ConsensusRemove(op)
    ensures Matches(g, a) <==> |a.rest| == 7 && ConsensusRemoveInstance(g, op, a.root, a.rest)
  {
  }

  lemma ConsensusRemoveOneWay(g: GraphBody, t: Tables, root: u32, op: OpCode, inner: u32, term: u32, a: Attempt)
    requires g.Shaped() && TablesFor(g, t) && TablesClosed(t, g.Size()) && op.UsesArg1()
    requires IsBinary(g, op, root, inner, term) && a.root == root
    ensures a in ConsensusRemoveAttempts(t, g.Size(), root, op, inner, term) <==>
            && a.rule == ConsensusRemove(op) && |a.rest| == 7 && a.rest[0] == inner && a.rest[1] == term
            && ConsensusRemoveInstance(g, op, root, a.rest)
  {
    hide ConsensusRemoveOrdered;
    PairTabled(g, t, op, inner);
    var p := t.PairFor(inner, op);
    if p.valid && p.a != p.b {
      ConsensusRemoveOrder(g, t, root, op, inner, term, p.a, p.b, a);
      ConsensusRemoveOrder(g, t, root, op, inner, term, p.b, p.a, a);
    }
  }

  lemma ConsensusRemoveExact(g: GraphBody, t: Tables, root: u32, op: OpCode, left: u32, right: u32, a: Attempt)
    requires g.Shaped() && BinaryRoot(g, t, root, op, left, right) && a.root == root
    requires TablesClosed(t, g.Size())
    ensures a in ConsensusRemoveAttempts(t, g.Size(), root, op, left, right)
            || (left != right && a in ConsensusRemoveAttempts(t, g.Size(), root, op, right, left))
            <==> a.rule == ConsensusRemove(op) && Matches(g, a)
  {
    hide ConsensusRemoveAttempts, Instance;
    ConsensusRemoveOneWay(g, t, root, op, left, right, a);
    ConsensusRemoveOneWay(g, t, root, op, right, left, a);
    if a.rule == ConsensusRemove(op) {
      ConsensusRemoveMatch(g, op, a);
    }
  }

  /** The rules that match at a binary root of the given kind. */
  predicate BinaryRule(op: OpCode, rule: RuleId)
  {
    || ConstantRule(op, rule) || RepeatRule(op, rule) || AssociateRule(op, rule) || LatticeRule(op, rule)
    || rule == DeMorganNots(op) || rule == Factor(op) || rule == ConsensusAdd(op) || rule == ConsensusRemove(op)
  }

  predicate NotRule(rule: RuleId)
  {
    rule.NotFalse? || rule.NotTrue? || rule.DoubleNegation? || rule.DeMorganNotAnd? || rule.DeMorganNotOr?
  }

  /** A rule of the first pass only matches at a root of its own kind. */
  /** The root has the shape the rule is matched on. */
  ghost predicate RootShaped(g: GraphBody, rule: RuleId, root: nat)
    requires g.Shaped()
  {
    && root < g.Size()
    && (NotRule(rule) ==> g.op[root] == Not && IsNot(g, root, g.arg0[root]))
    && (!NotRule(rule) ==>
          && g.op[root].UsesArg1() && BinaryRule(g.op[root], rule)
          && IsPair(g, g.op[root], root, g.arg0[root], g.arg1[root]))
  }

  lemma FoldRoots(g: GraphBody, rule: RuleId, root: nat, rest: seq<nat>)
    requires g.Shaped() && Instance(g, rule, root, rest) && AsU16(rule) <= 12
    ensures RootShaped(g, rule, root)
  {
  }

  lemma ShapeRoots(g: GraphBody, rule: RuleId, root: nat, rest: seq<nat>)
    requires g.Shaped() && Instance(g, rule, root, rest) && 12 < AsU16(rule) <= 22
    ensures RootShaped(g, rule, root)
  {
  }

  lemma LatticeRoots(g: GraphBody, rule: RuleId, root: nat, rest: seq<nat>)
    requires g.Shaped() && Instance(g, rule, root, rest) && 22 < AsU16(rule) && !rule.Expanding()
    ensures RootShaped(g, rule, root)
  {
  }

  lemma FirstPassRoots(g: GraphBody, rule: RuleId, root: nat, rest: seq<nat>)
    requires g.Shaped() && Instance(g, rule, root, rest) && !rule.Expanding()
    ensures root < g.Size()
    ensures NotRule(rule) ==> g.op[root] == Not && IsNot(g, root, g.arg0[root])
    ensures !NotRule(rule) ==> g.op[root].UsesArg1() && BinaryRule(g.op[root], rule)
    ensures !NotRule(rule) ==> IsPair(g, g.op[root], root, g.arg0[root], g.arg1[root])
  {
    hide Instance;
    if AsU16(rule) <= 12 {
      FoldRoots(g, rule, root, rest);
    } else if AsU16(rule) <= 22 {
      ShapeRoots(g, rule, root, rest);
    } else {
      LatticeRoots(g, rule, root, rest);
    }
  }

  lemma BinaryExact(g: GraphBody, t: Tables, root: u32, op: OpCode, left: u32, right: u32, a: Attempt)
    requires g.Shaped() && BinaryRoot(g, t, root, op, left, right) && a.root == root
    requires TablesClosed(t, g.Size())
    ensures a in BinaryAttempts(t, g.Size(), root, op, left, right) <==> BinaryRule(op, a.rule) && Matches(g, a)
  {
    hide Instance, ConstantAttempts, RepeatAttempts, AssociateAttempts, LatticeAttempts, DeMorganNotsAttempts,
      FactorAttempts, ConsensusAddAttempts, ConsensusRemoveAttempts;
    ConstantExact(g, t, root, op, left, right, a);
    RepeatExact(g, t, root, op, left, right, a);
    AssociateExact(g, t, root, op, left, right, a);
    LatticeExact(g, t, root, op, left, right, a);
    DeMorganNotsExact(g, t, root, op, left, right, a);
    FactorExact(g, t, root, op, left, right, a);
    ConsensusAddExact(g, t, root, op, left, right, a);
    ConsensusRemoveExact(g, t, root, op, left, right, a);
  }

  lemma NegatedFoldExact(g: GraphBody, t: Tables, root: u32, left: u32, a: Attempt)
    requires g.Shaped() && TablesFor(g, t) && TablesClosed(t, g.Size()) && IsNot(g, root, left) && a.root == root
    ensures a in NegatedFoldAttempts(t, g.Size(), root, left)
            <==> (a.rule.NotFalse? || a.rule.NotTrue? || a.rule.DoubleNegation?) && Matches(g, a)
  {
    if a.rule.NotFalse? || a.rule.NotTrue? {
      ConstTabled(g, t, left);
      if |a.rest| == 1 { assert a.rest == [a.rest[0]]; }
    } else if a.rule.DoubleNegation? {
      NotTabled(g, t, left);
      if |a.rest| == 2 { assert a.rest == [a.rest[0], a.rest[1]]; }
    }
  }

  lemma NegatedPairExact(g: GraphBody, t: Tables, root: u32, left: u32, a: Attempt)
    requires g.Shaped() && TablesFor(g, t) && TablesClosed(t, g.Size()) && IsNot(g, root, left) && a.root == root
    ensures a in NegatedPairAttempts(t, g.Size(), root, left)
            <==> (a.rule.DeMorganNotAnd? || a.rule.DeMorganNotOr?) && Matches(g, a)
  {
    if a.rule.DeMorganNotAnd? || a.rule.DeMorganNotOr? {
      PairTabled(g, t, And, left);
      PairTabled(g, t, Or, left);
      if |a.rest| == 3 { assert a.rest == [a.rest[0], a.rest[1], a.rest[2]]; }
    }
  }

  lemma NotExact(g: GraphBody, t: Tables, root: u32, left: u32, a: Attempt)
    requires g.Shaped() && TablesFor(g, t) && TablesClosed(t, g.Size()) && IsNot(g, root, left) && a.root == root
    ensures a in NotAttempts(t, g.Size(), root, left) <==> NotRule(a.rule) && Matches(g, a)
  {
    hide Instance, NegatedFoldAttempts, NegatedPairAttempts;
    NegatedFoldExact(g, t, root, left, a);
    NegatedPairExact(g, t, root, left, a);
  }

  // ---- attempts carry their root -----------------------------------------------------------

  lemma SmallBlockRoots(t: Tables, n: nat, root: u32, op: OpCode, left: u32, right: u32, a: Attempt)
    requires op.UsesArg1() && TablesClosed(t, n) && left < n && right < n
    requires || a in RepeatAttempts(t, root, op, left, right)
             || a in AssociateAttempts(t, root, op, left, right)
             || a in DeMorganNotsAttempts(t, root, op, left, right)
    ensures a.root == root
  {
  }

  lemma ConsensusRemoveRoots(t: Tables, n: nat, root: u32, op: OpCode, inner: u32, term: u32, a: Attempt)
    requires op.UsesArg1() && TablesClosed(t, n) && inner < n && term < n
    requires a in ConsensusRemoveAttempts(t, n, root, op, inner, term)
    ensures a.root == root
  {
    hide ConsensusRemoveOrdered;
    var p := t.PairFor(inner, op);
    ConsensusRemoveList(t, n, root, op, inner, term, p.a, p.b, a);
    ConsensusRemoveList(t, n, root, op, inner, term, p.b, p.a, a);
  }

  lemma BinaryRoots(t: Tables, n: nat, root: u32, op: OpCode, left: u32, right: u32, a: Attempt)
    requires op.UsesArg1() && TablesClosed(t, n) && left < n && right < n
    requires a in BinaryAttempts(t, n, root, op, left, right)
    ensures a.root == root
  {
    hide ConstantAttempts, RepeatAttempts, AssociateAttempts, LatticeAttempts, DeMorganNotsAttempts,
      FactorAttempts, ConsensusAddAttempts, ConsensusRemoveAttempts;
    ConstantNames(t, root, op, left, right, a);
    ConstantNames(t, root, op, right, left, a);
    LatticeNames(t, root, op, left, right, a);
    LatticeNames(t, root, op, right, left, a);
    FactorNames(t, root, op, left, right, a);
    ConsensusAddNames(t, root, op, left, right, a);
    ConsensusAddNames(t, root, op, right, left, a);
    if a in ConsensusRemoveAttempts(t, n, root, op, left, right) {
      ConsensusRemoveRoots(t, n, root, op, left, right, a);
    } else if left != right && a in ConsensusRemoveAttempts(t, n, root, op, right, left) {
      ConsensusRemoveRoots(t, n, root, op, right, left, a);
    } else if || a in RepeatAttempts(t, root, op, left, right)
              || a in AssociateAttempts(t, root, op, left, right)
              || a in DeMorganNotsAttempts(t, root, op, left, right) {
      SmallBlockRoots(t, n, root, op, left, right, a);
    }
  }

  lemma NegatedFoldRoots(t: Tables, n: nat, root: u32, left: u32, a: Attempt)
    requires TablesClosed(t, n) && left < n && a in NegatedFoldAttempts(t, n, root, left)
    ensures a.root == root
  {
  }

  lemma NegatedPairRoots(t: Tables, n: nat, root: u32, left: u32, a: Attempt)
    requires TablesClosed(t, n) && left < n && a in NegatedPairAttempts(t, n, root, left)
    ensures a.root == root
  {
  }

  lemma NotRoots(t: Tables, n: nat, root: u32, left: u32, a: Attempt)
    requires TablesClosed(t, n) && left < n && a in NotAttempts(t, n, root, left)
    ensures a.root == root
  {
    hide NegatedFoldAttempts, NegatedPairAttempts;
    if a in NegatedFoldAttempts(t, n, root, left) {
      NegatedFoldRoots(t, n, root, left, a);
    } else {
      NegatedPairRoots(t, n, root, left, a);
    }
  }

  lemma GrowRoots(t: Tables, n: nat, root: u32, a: Attempt)
    requires TablesClosed(t, n) && a in GrowAttempts(t, n, root)
    ensures a.root == root
  {
  }

  lemma UnfoldRoots(t: Tables, n: nat, root: u32, value: bool, a: Attempt)
    requires TablesClosed(t, n) && a in UnfoldAttempts(t, n, root, value)
    ensures a.root == root
  {
  }

  lemma {:induction false} WitnessRoots(t: Tables, n: nat, root: u32, value: bool, k: nat, a: Attempt)
    requires TablesClosed(t, n) && k <= n && a in WitnessAttempts(t, n, root, value, k)
    ensures a.root == root
  {
    if a in WitnessAttempts(t, n, root, value, k - 1) { WitnessRoots(t, n, root, value, k - 1, a); }
  }

  /** The first pass at a node tries exactly the matches of rules 0 to 30 rooted there. */
  lemma FirstPassExact(g: GraphBody, t: Tables, root: u32, a: Attempt)
    requires g.Shaped() && TablesFor(g, t) && TablesClosed(t, g.Size()) && root < g.Size()
    ensures TableRow(g, t, root)
    ensures a in FirstPass(g, t, root) <==> a.root == root && !a.rule.Expanding() && Matches(g, a)
  {
    hide Instance, BinaryAttempts, NotAttempts;
    assert TableRow(g, t, root);
    var op, left, right := g.op[root], g.arg0[root], g.arg1[root];
    if a.root == root && !a.rule.Expanding() && Matches(g, a) {
      FirstPassRoots(g, a.rule, root, a.rest);
    }
    if (op == And || op == Or) && (t.ands[root].valid || t.ors[root].valid) {
      if a.root == root {
        BinaryExact(g, t, root, op, left, right, a);
      } else if a in BinaryAttempts(t, g.Size(), root, op, left, right) {
        BinaryRoots(t, g.Size(), root, op, left, right, a);
      }
    } else if op == Not && t.nots[root] >= 0 {
      if a.root == root {
        NotExact(g, t, root, left, a);
      } else if a in NotAttempts(t, g.Size(), root, left) {
        NotRoots(t, g.Size(), root, left, a);
      }
    }
  }

  // ---- the second pass ---------------------------------------------------------------------

  predicate DoublingRule(rule: RuleId)
  {
    || rule.AndIdempotentInverse? || rule.OrIdempotentInverse? || rule.DoubleNegationInverse?
    || rule.AbsorbOrAndInverse? || rule.AbsorbAndOrInverse?
  }

  predicate UnitRule(rule: RuleId) { rule.AndTrueInverse? || rule.OrFalseInverse? }

  predicate GrowRule(rule: RuleId) { DoublingRule(rule) || UnitRule(rule) }

  predicate UnfoldRule(rule: RuleId)
  {
    rule.AndFalseInverse? || rule.OrTrueInverse? || rule.NotTrueInverse? || rule.NotFalseInverse?
  }

  lemma DoublingExact(g: GraphBody, root: u32, a: Attempt)
    requires g.Shaped() && Signal(g, root) && a.root == root
    ensures a in DoublingAttempts(root) <==> DoublingRule(a.rule) && Matches(g, a)
  {
    if DoublingRule(a.rule) {
      assert Matches(g, a) <==>
        a.rest == (if a.rule.AbsorbOrAndInverse? || a.rule.AbsorbAndOrInverse? then [root] else []);
    }
  }

  lemma UnitExact(g: GraphBody, t: Tables, root: u32, a: Attempt)
    requires g.Shaped() && TablesFor(g, t) && TablesClosed(t, g.Size()) && Signal(g, root) && a.root == root
    ensures a in UnitAttempts(t, g.Size(), root) <==> UnitRule(a.rule) && Matches(g, a)
  {
    if UnitRule(a.rule) {
      if |a.rest| == 1 { assert a.rest == [a.rest[0]]; }
    }
  }

  lemma GrowExact(g: GraphBody, t: Tables, root: u32, a: Attempt)
    requires g.Shaped() && TablesFor(g, t) && TablesClosed(t, g.Size()) && Signal(g, root) && a.root == root
    ensures a in GrowAttempts(t, g.Size(), root) <==> GrowRule(a.rule) && Matches(g, a)
  {
    hide Instance, DoublingAttempts, UnitAttempts;
    DoublingExact(g, root, a);
    UnitExact(g, t, root, a);
  }

  lemma UnfoldExact(g: GraphBody, t: Tables, root: u32, value: bool, a: Attempt)
    requires g.Shaped() && TablesFor(g, t) && TablesClosed(t, g.Size()) && IsConst(g, root, value) && a.root == root
    ensures a in UnfoldAttempts(t, g.Size(), root, value) <==> UnfoldRule(a.rule) && Matches(g, a)
  {
    if UnfoldRule(a.rule) {
      if |a.rest| == 1 { assert a.rest == [a.rest[0]]; }
    }
  }

  lemma {:induction false} WitnessExact(g: GraphBody, t: Tables, root: u32, value: bool, k: nat, a: Attempt)
    requires g.Shaped() && TablesFor(g, t) && TablesClosed(t, g.Size()) && IsConst(g, root, value) && a.root == root
    requires k <= g.Size()
    ensures a in WitnessAttempts(t, g.Size(), root, value, k) <==>
              a.rule.ComplementInverse() && Matches(g, a) && a.rest[1] < k
  {
    if k > 0 {
      WitnessExact(g, t, root, value, k - 1, a);
      NotTabled(g, t, k - 1);
      if a.rule.ComplementInverse() && |a.rest| == 2 { assert a.rest == [a.rest[0], a.rest[1]]; }
    }
  }

  lemma SecondPassRoots(g: GraphBody, rule: RuleId, root: nat, rest: seq<nat>)
    requires g.Shaped() && Instance(g, rule, root, rest) && rule.Expanding()
    ensures Signal(g, root)
    ensures GrowRule(rule) || UnfoldRule(rule) || rule.ComplementInverse()
    ensures UnfoldRule(rule) || rule.ComplementInverse() ==> g.op[root] == Const
    ensures rule.ComplementInverse() ==> |rest| == 2 && rest[1] < g.Size()
  {
    match rule {
      case AndComplementInverse => case OrComplementInverse =>
      case AndFalseInverse => case NotTrueInverse => case OrTrueInverse => case NotFalseInverse =>
      case AndTrueInverse => case OrFalseInverse =>
      case AndIdempotentInverse => case OrIdempotentInverse => case DoubleNegationInverse =>
      case AbsorbOrAndInverse => case AbsorbAndOrInverse =>
    }
  }

  /** The second pass at a node tries exactly the matches of rules 31 to 43 rooted there. */
  lemma SecondPassExact(g: GraphBody, t: Tables, root: u32, a: Attempt)
    requires g.Shaped() && TablesFor(g, t) && TablesClosed(t, g.Size()) && root < g.Size()
    ensures a in SecondPass(g, t, root) <==> a.root == root && a.rule.Expanding() && Matches(g, a)
  {
    hide Instance, GrowAttempts, UnfoldAttempts, WitnessAttempts;
    var n, value := g.Size(), g.arg0[root] != 0;
    if a.root == root && a.rule.Expanding() && Matches(g, a) {
      SecondPassRoots(g, a.rule, root, a.rest);
    }
    if g.op[root] != Output {
      if a.root == root {
        GrowExact(g, t, root, a);
      } else if a in GrowAttempts(t, n, root) {
        GrowRoots(t, n, root, a);
      }
      if g.op[root] == Const {
        if a.root == root {
          UnfoldExact(g, t, root, value, a);
          WitnessExact(g, t, root, value, n, a);
        } else if a in UnfoldAttempts(t, n, root, value) {
          UnfoldRoots(t, n, root, value, a);
        } else if a in WitnessAttempts(t, n, root, value, n) {
          WitnessRoots(t, n, root, value, n, a);
        }
      }
    }
  }
}

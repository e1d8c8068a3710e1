/** `compact_graph`: drop the nodes the output does not depend on and renumber the rest. */
module Compaction {
  import opened Basics
  import opened Graphs
  import opened Semantics

  /** The output depends on node `i`. */
  ghost predicate Live(g: GraphBody, i: nat)
    requires g.Shaped()
  {
    Reaches(g, g.outputNode, i)
  }

  /** The nodes that survive: the numbered inputs and the live nodes. */
  ghost predicate Kept(g: GraphBody, i: nat)
    requires g.Shaped()
  {
    i < g.Size() && (i < g.arity || Live(g, i))
  }

  /** No live node reads outside the graph. */
  ghost predicate LiveClosed(g: GraphBody)
    requires g.Shaped()
  {
    forall i: nat, c: nat :: Live(g, i) && g.Reads(i, c) ==> c < g.Size()
  }

  /** The surviving nodes below `k`, in ascending order. */
  ghost function KeepUpTo(g: GraphBody, k: nat): (keep: seq<nat>)
    requires g.Shaped() && k <= g.Size()
    ensures |keep| <= k
    ensures forall j :: 0 <= j < |keep| ==> keep[j] < k && Kept(g, keep[j])
    ensures forall j, l :: 0 <= j < l < |keep| ==> keep[j] < keep[l]
  {
    if k == 0 then [] else KeepUpTo(g, k - 1) + if Kept(g, k - 1) then [k - 1] else []
  }

  /** The number a surviving node gets. */
  ghost function NewIndex(g: GraphBody, i: nat): nat
    requires g.Shaped() && i <= g.Size()
  {
    |KeepUpTo(g, i)|
  }

  lemma {:induction false} KeepPrefix(g: GraphBody, j: nat, k: nat)
    requires g.Shaped() && j <= k <= g.Size()
    ensures KeepUpTo(g, j) <= KeepUpTo(g, k)
    decreases k
  {
    if j < k { KeepPrefix(g, j, k - 1); }
  }

  /** `NewIndex` inverts the list of survivors. */
  lemma NewIndexOfKept(g: GraphBody, i: nat, k: nat)
    requires g.Shaped() && i < k <= g.Size() && Kept(g, i)
    ensures NewIndex(g, i) < |KeepUpTo(g, k)| && KeepUpTo(g, k)[NewIndex(g, i)] == i
  {
    KeepPrefix(g, i + 1, k);
    assert KeepUpTo(g, i + 1) == KeepUpTo(g, i) + [i];
  }

  lemma NewIndexOfListed(g: GraphBody, k: nat, j: nat)
    requires g.Shaped() && k <= g.Size() && j < |KeepUpTo(g, k)|
    ensures NewIndex(g, KeepUpTo(g, k)[j]) == j
  {
    var keep := KeepUpTo(g, k);
    NewIndexOfKept(g, keep[j], k);
  }

  /** As long as everything survives, survivors keep their numbers. */
  lemma {:induction false} AllKept(g: GraphBody, k: nat)
    requires g.Shaped() && k <= g.Size()
    requires forall i: nat :: i < k ==> Kept(g, i)
    ensures |KeepUpTo(g, k)| == k
  {
    if k > 0 { AllKept(g, k - 1); }
  }

  lemma {:induction false} FullKeep(g: GraphBody, k: nat, i: nat)
    requires g.Shaped() && i < k <= g.Size() && |KeepUpTo(g, k)| == k
    ensures Kept(g, i)
    decreases k
  {
    if i < k - 1 { FullKeep(g, k - 1, i); }
  }

  /** The gate a surviving node becomes: operands renumbered, unused fields normalised. */
  ghost function CompactedGate(g: GraphBody, i: nat): Gate
    requires g.Shaped() && i < g.Size()
    requires g.op[i].UsesArg0() ==> Kept(g, g.arg0[i]) && NewIndex(g, g.arg0[i]) <= 0xFFFF_FFFF
    requires g.op[i].UsesArg1() ==> Kept(g, g.arg1[i]) && NewIndex(g, g.arg1[i]) <= 0xFFFF_FFFF
  {
    match g.op[i]
    case Input => Gate(Input, g.arg0[i], NO_NODE)
    case Const => Gate(Const, if g.arg0[i] != 0 then 1 else 0, NO_NODE)
    case Not => Gate(Not, NewIndex(g, g.arg0[i]), NO_NODE)
    case Output => Gate(Output, NewIndex(g, g.arg0[i]), NO_NODE)
    case And => Gate(And, NewIndex(g, g.arg0[i]), NewIndex(g, g.arg1[i]))
    case Or => Gate(Or, NewIndex(g, g.arg0[i]), NewIndex(g, g.arg1[i]))
  }

  /** The operands of a surviving node survive. */
  lemma KeptOperands(g: GraphBody, i: nat, c: nat)
    requires Validate(g).None? && LiveClosed(g) && Kept(g, i) && g.Reads(i, c)
    ensures Kept(g, c) && NewIndex(g, c) < g.Size()
  {
    if i >= g.arity || Live(g, i) {
      ReachesExtend(g, g.outputNode, i, c);
    }
  }

  /** The graph made of the survivors. */
  ghost function Renumbered(g: GraphBody): (h: GraphBody)
    requires Validate(g).None? && LiveClosed(g)
  {
    var keep := KeepUpTo(g, g.Size());
    ReachesSelf(g, g.outputNode);
    NewIndexOfKept(g, g.outputNode, g.Size());
    forall j | 0 <= j < |keep|
      ensures g.op[keep[j]].UsesArg0() ==>
                Kept(g, g.arg0[keep[j]]) && NewIndex(g, g.arg0[keep[j]]) < g.Size()
      ensures g.op[keep[j]].UsesArg1() ==>
                Kept(g, g.arg1[keep[j]]) && NewIndex(g, g.arg1[keep[j]]) < g.Size()
    {
      if g.op[keep[j]].UsesArg0() { KeptOperands(g, keep[j], g.arg0[keep[j]]); }
      if g.op[keep[j]].UsesArg1() { KeptOperands(g, keep[j], g.arg1[keep[j]]); }
    }
    GraphBody(
      g.arity,
      g.capacity,
      NewIndex(g, g.outputNode),
      seq(|keep|, j requires 0 <= j < |keep| => g.op[keep[j]]),
      seq(|keep|, j requires 0 <= j < |keep| => CompactedGate(g, keep[j]).a),
      seq(|keep|, j requires 0 <= j < |keep| => CompactedGate(g, keep[j]).b))
  }

  /** The result of `compact_graph`. A graph that loses nothing is returned untouched. */
  ghost function Compact(g: GraphBody): Result<GraphBody, GraphError>
  {
    if Validate(g).Some? then Err(Validate(g).value)
    else if !LiveClosed(g) then Err(InvalidInput("bad node reference"))
    else if |KeepUpTo(g, g.Size())| == g.Size() then Ok(g)
    else Ok(Renumbered(g))
  }

  // ---- what compaction keeps ---------------------------------------------------------------

  /** Compaction succeeds exactly on valid graphs whose live nodes read only nodes of the graph. */
  lemma CompactSucceeds(g: GraphBody)
    ensures Compact(g).Ok? <==> Validate(g).None? && LiveClosed(g)
    ensures Validate(g).None? && g.Closed() ==> Compact(g).Ok?
  {
    if Validate(g).None? && g.Closed() {
      forall i: nat, c: nat | Live(g, i) && g.Reads(i, c)
        ensures c < g.Size()
      {
      }
    }
  }

  /** Inputs are the first survivors, so they keep their numbers. */
  lemma {:induction false} InputsKeepNumbers(g: GraphBody, i: nat)
    requires g.Shaped() && i <= g.arity <= g.Size()
    ensures NewIndex(g, i) == i
  {
    AllKept(g, i);
  }

  /** One field of the renumbered graph at a time: node `j` is survivor number `j`. */
  lemma RenumberedNode(g: GraphBody, j: nat)
    requires Validate(g).None? && LiveClosed(g) && j < Renumbered(g).Size()
    ensures var i := KeepUpTo(g, g.Size())[j];
            var h := Renumbered(g);
            && h.Shaped()
            && h.op[j] == g.op[i]
            && (h.op[j].UsesArg0() ==> Kept(g, g.arg0[i]) && h.arg0[j] == NewIndex(g, g.arg0[i]) < h.Size())
            && (h.op[j].UsesArg1() ==> Kept(g, g.arg1[i]) && h.arg1[j] == NewIndex(g, g.arg1[i]) < h.Size())
            && (h.op[j] == Input ==> h.arg0[j] == g.arg0[i])
            && (h.op[j] == Const ==> (h.arg0[j] != 0 <==> g.arg0[i] != 0))
  {
    var i := KeepUpTo(g, g.Size())[j];
    if g.op[i].UsesArg0() {
      KeptOperands(g, i, g.arg0[i]);
      NewIndexOfKept(g, g.arg0[i], g.Size());
    }
    if g.op[i].UsesArg1() {
      KeptOperands(g, i, g.arg1[i]);
      NewIndexOfKept(g, g.arg1[i], g.Size());
    }
  }

  /** The renumbered graph is one the engine may hold. */
  lemma RenumberedWellFormed(g: GraphBody)
    requires Validate(g).None? && LiveClosed(g)
    ensures WellFormed(Renumbered(g))
    ensures Renumbered(g).arity == g.arity && Renumbered(g).capacity == g.capacity
  {
    var h := Renumbered(g);
    ReachesSelf(g, g.outputNode);
    NewIndexOfKept(g, g.outputNode, g.Size());
    forall i: nat | i < g.arity
      ensures i < h.Size() && h.op[i] == Input && h.arg0[i] == i
    {
      InputsKeepNumbers(g, i);
      NewIndexOfKept(g, i, g.Size());
    }
    if g.arity > 0 {
      InputsKeepNumbers(g, g.arity - 1);
      NewIndexOfKept(g, g.arity - 1, g.Size());
    }
    forall j | 0 <= j < h.Size()
      ensures h.op[j].UsesArg0() ==> h.arg0[j] < h.Size()
      ensures h.op[j].UsesArg1() ==> h.arg1[j] < h.Size()
    {
      RenumberedNode(g, j);
    }
  }

  /** A graph that loses nothing is already closed. */
  lemma UntouchedClosed(g: GraphBody)
    requires Validate(g).None? && LiveClosed(g) && |KeepUpTo(g, g.Size())| == g.Size()
    ensures WellFormed(g)
  {
    forall i | 0 <= i < g.Size()
      ensures g.op[i].UsesArg0() ==> g.arg0[i] < g.Size()
      ensures g.op[i].UsesArg1() ==> g.arg1[i] < g.Size()
    {
      FullKeep(g, g.Size(), i);
      if g.op[i].UsesArg0() { KeptOperands(g, i, g.arg0[i]); }
      if g.op[i].UsesArg1() { KeptOperands(g, i, g.arg1[i]); }
    }
  }

  lemma CompactWellFormed(g: GraphBody)
    requires Compact(g).Ok?
    ensures WellFormed(Compact(g).value)
    ensures Compact(g).value.arity == g.arity && Compact(g).value.capacity == g.capacity
    ensures Compact(g).value.Size() <= g.Size()
  {
    if |KeepUpTo(g, g.Size())| == g.Size() { UntouchedClosed(g); } else { RenumberedWellFormed(g); }
  }

  /** Node `j` of `h` is node `keep[j]` of `g`: the same gate over the same operands, in the same order. */
  ghost predicate SameGate(g: GraphBody, h: GraphBody, keep: seq<nat>, j: nat)
    requires g.Shaped() && h.Shaped() && j < h.Size() == |keep| && keep[j] < g.Size()
  {
    var i := keep[j];
    && h.op[j] == g.op[i]
    && (g.op[i].UsesArg0() ==> h.arg0[j] < |keep| && keep[h.arg0[j]] == g.arg0[i])
    && (g.op[i].UsesArg1() ==> h.arg1[j] < |keep| && keep[h.arg1[j]] == g.arg1[i])
    && (g.op[i] == Input ==> h.arg0[j] == g.arg0[i])
    && (g.op[i] == Const ==> (h.arg0[j] != 0 <==> g.arg0[i] != 0))
  }

  /** A gate as compaction writes it: constants are 0 or 1, and operands it does not have are blank. */
  predicate Normal(h: GraphBody, j: nat)
    requires h.Shaped() && j < h.Size()
  {
    && (h.op[j] == Const ==> h.arg0[j] <= 1)
    && (!h.op[j].UsesArg1() ==> h.arg1[j] == NO_NODE)
  }

  /** `keep` lists the nodes of `g` that `h` is made of, in order. */
  ghost predicate MadeOf(g: GraphBody, h: GraphBody, keep: seq<nat>)
    requires g.Shaped() && h.Shaped()
  {
    && |keep| == h.Size()
    && (forall j, l :: 0 <= j < l < |keep| ==> keep[j] < keep[l])
    && (forall j :: 0 <= j < |keep| ==> keep[j] < g.Size() && SameGate(g, h, keep, j))
    && (forall j: nat, l: nat :: j < |keep| && l < |keep| ==> (h.Reads(j, l) <==> g.Reads(keep[j], keep[l])))
  }

  /** If nothing is dropped, survivor number `j` is node `j`. */
  lemma FullKeepIsIdentity(g: GraphBody, j: nat)
    requires g.Shaped() && j < g.Size() && |KeepUpTo(g, g.Size())| == g.Size()
    ensures KeepUpTo(g, g.Size())[j] == j
  {
    forall i: nat | i <= j ensures Kept(g, i) { FullKeep(g, g.Size(), i); }
    AllKept(g, j);
    NewIndexOfKept(g, j, g.Size());
  }

  lemma RenumberedReads(g: GraphBody, j: nat, l: nat)
    requires Validate(g).None? && LiveClosed(g)
    requires Renumbered(g).Shaped() && j < Renumbered(g).Size() && l < Renumbered(g).Size()
    ensures var keep := KeepUpTo(g, g.Size()); Renumbered(g).Reads(j, l) <==> g.Reads(keep[j], keep[l])
  {
    var keep := KeepUpTo(g, g.Size());
    RenumberedNode(g, j);
    NewIndexOfListed(g, g.Size(), l);
    if g.op[keep[j]].UsesArg0() { NewIndexOfKept(g, g.arg0[keep[j]], g.Size()); }
    if g.op[keep[j]].UsesArg1() { NewIndexOfKept(g, g.arg1[keep[j]], g.Size()); }
  }

  lemma RenumberedGate(g: GraphBody, j: nat)
    requires Validate(g).None? && LiveClosed(g) && Renumbered(g).Shaped() && j < Renumbered(g).Size()
    ensures SameGate(g, Renumbered(g), KeepUpTo(g, g.Size()), j) && Normal(Renumbered(g), j)
  {
    var i := KeepUpTo(g, g.Size())[j];
    RenumberedNode(g, j);
    if g.op[i].UsesArg0() { NewIndexOfKept(g, g.arg0[i], g.Size()); }
    if g.op[i].UsesArg1() { NewIndexOfKept(g, g.arg1[i], g.Size()); }
  }

  lemma UntouchedMadeOf(g: GraphBody)
    requires WellFormed(g) && |KeepUpTo(g, g.Size())| == g.Size()
    ensures MadeOf(g, g, KeepUpTo(g, g.Size()))
  {
    var keep := KeepUpTo(g, g.Size());
    forall j: nat | j < g.Size() ensures keep[j] == j { FullKeepIsIdentity(g, j); }
    hide KeepUpTo;
  }

  lemma RenumberedMadeOf(g: GraphBody)
    requires Validate(g).None? && LiveClosed(g)
    ensures Renumbered(g).Shaped() && MadeOf(g, Renumbered(g), KeepUpTo(g, g.Size()))
  {
    var h, keep := Renumbered(g), KeepUpTo(g, g.Size());
    RenumberedWellFormed(g);
    assert |keep| == h.Size();
    hide Renumbered, SameGate, KeepUpTo;
    forall j: nat | j < |keep| ensures SameGate(g, h, keep, j) { RenumberedGate(g, j); }
    forall j: nat, l: nat | j < |keep| && l < |keep|
      ensures h.Reads(j, l) <==> g.Reads(keep[j], keep[l])
    {
      RenumberedReads(g, j, l);
    }
  }

  lemma CompactMadeOf(g: GraphBody)
    requires Compact(g).Ok?
    ensures Compact(g).value.Shaped() && MadeOf(g, Compact(g).value, KeepUpTo(g, g.Size()))
  {
    hide MadeOf, Renumbered;
    if |KeepUpTo(g, g.Size())| == g.Size() {
      UntouchedClosed(g);
      UntouchedMadeOf(g);
    } else {
      RenumberedMadeOf(g);
    }
  }

  /**
   * Compaction keeps exactly the inputs and the nodes the output depends on, with their order, their opcodes and
   * their operands, each in its place. If any node is dropped, the rest is written in normal form.
   */
  lemma CompactKeepsExactly(g: GraphBody) returns (keep: seq<nat>)
    requires Compact(g).Ok?
    ensures Compact(g).value.Shaped() && MadeOf(g, Compact(g).value, keep)
    ensures forall i: nat :: i in keep <==> i < g.Size() && (i < g.arity || Reaches(g, g.outputNode, i))
    ensures Compact(g).value.outputNode < |keep| && keep[Compact(g).value.outputNode] == g.outputNode
    ensures Compact(g).value.arity == g.arity && Compact(g).value.capacity == g.capacity
    ensures if |keep| == g.Size() then Compact(g).value == g
            else forall j: nat :: j < |keep| ==> Normal(Compact(g).value, j)
  {
    keep := KeepUpTo(g, g.Size());
    CompactMadeOf(g);
    if |keep| != g.Size() {
      forall j: nat | j < |keep| ensures Normal(Compact(g).value, j) { RenumberedGate(g, j); }
    }
    ReachesSelf(g, g.outputNode);
    forall i: nat | i < g.Size() && (i < g.arity || Reaches(g, g.outputNode, i))
      ensures i in keep && NewIndex(g, i) < |keep| && keep[NewIndex(g, i)] == i
    {
      NewIndexOfKept(g, i, g.Size());
    }
    if |keep| == g.Size() { FullKeepIsIdentity(g, g.outputNode); }
  }

  // ---- meaning -----------------------------------------------------------------------------

  lemma RenumberedRank(g: GraphBody, r: seq<nat>) returns (q: seq<nat>)
    requires Validate(g).None? && LiveClosed(g) && IsRank(g, r)
    ensures Renumbered(g).Shaped() && IsRank(Renumbered(g), q)
  {
    var keep := KeepUpTo(g, g.Size());
    var h := Renumbered(g);
    q := seq(|keep|, j requires 0 <= j < |keep| => r[keep[j]]);
    forall j: nat | j < h.Size()
      ensures RankedAt(h, q, j)
    {
      RenumberedNode(g, j);
      assert RankedAt(g, r, keep[j]);
      if g.op[keep[j]].UsesArg0() { NewIndexOfKept(g, g.arg0[keep[j]], g.Size()); }
      if g.op[keep[j]].UsesArg1() { NewIndexOfKept(g, g.arg1[keep[j]], g.Size()); }
    }
  }

  lemma RenumberedConsistent(g: GraphBody, x: Assignment, v: seq<bool>) returns (w: seq<bool>)
    requires WellFormed(g) && LiveClosed(g) && Consistent(g, x, v)
    ensures WellFormed(Renumbered(g)) && Consistent(Renumbered(g), x, w)
    ensures w[Renumbered(g).outputNode] == v[g.outputNode]
  {
    var keep := KeepUpTo(g, g.Size());
    var h := Renumbered(g);
    RenumberedWellFormed(g);
    w := seq(|keep|, j requires 0 <= j < |keep| => v[keep[j]]);
    forall j: nat | j < h.Size()
      ensures Holds(h, x, w, j)
    {
      RenumberedNode(g, j);
      assert Holds(g, x, v, keep[j]);
      if g.op[keep[j]].UsesArg0() { NewIndexOfKept(g, g.arg0[keep[j]], g.Size()); }
      if g.op[keep[j]].UsesArg1() { NewIndexOfKept(g, g.arg1[keep[j]], g.Size()); }
    }
    ReachesSelf(g, g.outputNode);
    NewIndexOfKept(g, g.outputNode, g.Size());
  }

  /** Compaction of an acyclic graph is acyclic and computes the same function. */
  lemma CompactPreservesFunction(g: GraphBody)
    requires WellFormed(g) && Acyclic(g)
    ensures Compact(g).Ok? && WellFormed(Compact(g).value) && Acyclic(Compact(g).value)
    ensures forall x :: Evaluate(Compact(g).value, x) == Evaluate(g, x)
  {
    CompactSucceeds(g);
    CompactWellFormed(g);
    if |KeepUpTo(g, g.Size())| != g.Size() {
      var h := Renumbered(g);
      var r :| IsRank(g, r);
      var q := RenumberedRank(g, r);
      forall x: Assignment
        ensures Evaluate(h, x) == Evaluate(g, x)
      {
        var v := ConsistentExists(g, x);
        var w := RenumberedConsistent(g, x, v);
        EvaluateFromConsistent(g, x, v);
        EvaluateFromConsistent(h, x, w);
      }
    }
  }

  lemma RankThrough(g: GraphBody, h: GraphBody, keep: seq<nat>, r: seq<nat>)
    requires g.Shaped() && h.Shaped() && MadeOf(g, h, keep) && |r| == g.Size()
    requires forall j :: 0 <= j < |keep| ==> RankedAt(g, r, keep[j])
    ensures Acyclic(h)
  {
    var q := seq(|keep|, j requires 0 <= j < |keep| => r[keep[j]]);
    forall j: nat | j < h.Size()
      ensures RankedAt(h, q, j)
    {
      assert RankedAt(g, r, keep[j]);
      if h.op[j].UsesArg0() && h.arg0[j] < h.Size() { assert h.Reads(j, h.arg0[j]); }
      if h.op[j].UsesArg1() && h.arg1[j] < h.Size() { assert h.Reads(j, h.arg1[j]); }
    }
    assert IsRank(h, q);
  }

  /** A rank for the surviving nodes is enough for the compacted graph. */
  lemma CompactRanked(g: GraphBody, r: seq<nat>)
    requires Compact(g).Ok? && |r| == g.Size() && forall i: nat :: Kept(g, i) ==> RankedAt(g, r, i)
    ensures Compact(g).value.Shaped() && Acyclic(Compact(g).value)
  {
    CompactMadeOf(g);
    hide Compact, MadeOf, RankedAt, Kept;
    RankThrough(g, Compact(g).value, KeepUpTo(g, g.Size()), r);
  }

  lemma {:induction false} PathStaysLive(g: GraphBody, p: seq<nat>, k: nat)
    requires g.Shaped() && IsPath(g, p) && Live(g, p[0]) && k < |p|
    ensures Live(g, p[k])
  {
    if k > 0 {
      PathStaysLive(g, p, k - 1);
      ReachesExtend(g, g.outputNode, p[k - 1], p[k]);
    }
  }

  /** A cycle the output depends on survives compaction. */
  lemma LiveCycleSurvives(g: GraphBody, i: nat)
    requires Compact(g).Ok? && Live(g, i) && StrictlyReaches(g, i, i)
    ensures Compact(g).value.Shaped() && !Acyclic(Compact(g).value)
  {
    var h, keep := Compact(g).value, KeepUpTo(g, g.Size());
    CompactMadeOf(g);
    hide Compact;
    var c: nat :| g.Reads(i, c) && Reaches(g, c, i);
    var p :| PathFromTo(g, p, c, i);
    ReachesExtend(g, g.outputNode, i, c);
    forall k | 0 <= k < |p|
      ensures NewIndex(g, p[k]) < |keep| && keep[NewIndex(g, p[k])] == p[k]
    {
      PathStaysLive(g, p, k);
      NewIndexOfKept(g, p[k], g.Size());
    }
    var q := seq(|p|, k requires 0 <= k < |p| => NewIndex(g, p[k]));
    hide MadeOf, NewIndex, KeepUpTo;
    CarriedPath(g, h, keep, p, q);
    EdgeBetween(g, h, keep, q[|q| - 1], q[0]);
    ClosedPathIsCycle(h, q);
  }

  lemma EdgeBetween(g: GraphBody, h: GraphBody, keep: seq<nat>, i: nat, j: nat)
    requires g.Shaped() && h.Shaped() && MadeOf(g, h, keep) && i < |keep| && j < |keep| && g.Reads(keep[i], keep[j])
    ensures |keep| == h.Size() && h.Reads(i, j)
  {
  }

  lemma CarriedPath(g: GraphBody, h: GraphBody, keep: seq<nat>, p: seq<nat>, q: seq<nat>)
    requires g.Shaped() && h.Shaped() && MadeOf(g, h, keep) && |q| == |p| > 0 && PathFromTo(g, p, p[0], p[|p| - 1])
    requires forall k :: 0 <= k < |q| ==> q[k] < |keep| && keep[q[k]] == p[k]
    ensures PathFromTo(h, q, q[0], q[|q| - 1])
  {
    hide MadeOf;
    forall k | 0 <= k < |q| - 1
      ensures h.Reads(q[k], q[k + 1])
    {
      assert g.Reads(p[k], p[k + 1]);
      EdgeBetween(g, h, keep, q[k], q[k + 1]);
    }
    EdgeTargets(g, h, keep, q);
  }

  lemma EdgeTargets(g: GraphBody, h: GraphBody, keep: seq<nat>, q: seq<nat>)
    requires g.Shaped() && h.Shaped() && MadeOf(g, h, keep) && forall k :: 0 <= k < |q| ==> q[k] < |keep|
    ensures forall k :: 0 <= k < |q| ==> q[k] < h.Size()
  {
  }

  lemma ClosedPathIsCycle(h: GraphBody, q: seq<nat>)
    requires h.Shaped() && |q| > 0 && PathFromTo(h, q, q[0], q[|q| - 1]) && h.Reads(q[|q| - 1], q[0])
    ensures !Acyclic(h)
  {
    ReachesStep(h, q[|q| - 1], q[0], q[|q| - 1]);
    if Acyclic(h) { AcyclicHasNoCycle(h, q[|q| - 1]); }
  }

  // ---- idempotence -------------------------------------------------------------------------

  /** Renumbering carries a path from the output of `g` to one from the output of the result. */
  lemma RenumberedPath(g: GraphBody, p: seq<nat>, i: nat)
    requires Validate(g).None? && LiveClosed(g) && PathFromTo(g, p, g.outputNode, i)
    ensures Renumbered(g).Shaped() && Kept(g, i) && Live(Renumbered(g), NewIndex(g, i))
    decreases |p|
  {
    var h := Renumbered(g);
    RenumberedWellFormed(g);
    if |p| == 1 {
      ReachesSelf(g, g.outputNode);
      ReachesSelf(h, h.outputNode);
    } else {
      var b := p[|p| - 2];
      assert PathFromTo(g, p[..|p| - 1], g.outputNode, b);
      RenumberedPath(g, p[..|p| - 1], b);
      assert g.Reads(b, i);
      KeptOperands(g, b, i);
      NewIndexOfKept(g, b, g.Size());
      NewIndexOfKept(g, i, g.Size());
      RenumberedNode(g, NewIndex(g, b));
      ReachesExtend(h, h.outputNode, NewIndex(g, b), NewIndex(g, i));
    }
  }

  /** Compacting twice is compacting once. */
  lemma CompactIdempotent(g: GraphBody)
    requires Compact(g).Ok?
    ensures Compact(Compact(g).value) == Compact(g)
  {
    if |KeepUpTo(g, g.Size())| != g.Size() {
      var h := Renumbered(g);
      RenumberedWellFormed(g);
      CompactSucceeds(h);
      forall j: nat | j < h.Size()
        ensures Kept(h, j)
      {
        var i := KeepUpTo(g, g.Size())[j];
        NewIndexOfListed(g, g.Size(), j);
        if i < g.arity {
          InputsKeepNumbers(g, i);
        } else {
          var p :| PathFromTo(g, p, g.outputNode, i);
          RenumberedPath(g, p, i);
        }
      }
      AllKept(h, h.Size());
    }
  }
}

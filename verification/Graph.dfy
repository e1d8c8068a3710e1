/** The flat boolean graph of the Whittle engine: three parallel arrays, node references by index. */
module Graphs {
  import opened Basics

  const NO_NODE: u32 := 0xFFFF_FFFF

  datatype OpCode = Input | Const | And | Or | Not | Output {
    /** Opcodes whose `arg0` is a node reference. */
    predicate UsesArg0() { And? || Or? || Not? || Output? }
    /** Opcodes whose `arg1` is a node reference. */
    predicate UsesArg1() { And? || Or? }
  }

  datatype GraphError = InvalidInput(message: string) | BadOp(code: int)

  /** One gate, as a triple; the graph stores the triples column by column. */
  datatype Gate = Gate(op: OpCode, a: u32, b: u32)

  datatype GraphBody = GraphBody(
    arity: u16,
    capacity: u16,
    outputNode: u32,
    op: seq<OpCode>,
    arg0: seq<u32>,
    arg1: seq<u32>)
  {
    function Size(): nat { |op| }

    /** The three columns are parallel, and node counts fit the 32-bit signed counters of the rule tables. */
    predicate Shaped() { |op| == |arg0| == |arg1| < 0x7FFF_FFFF }

    /** Node `i` reads node `c`. */
    predicate Reads(i: nat, c: nat)
      requires Shaped()
    {
      i < |op| && ((op[i].UsesArg0() && arg0[i] == c) || (op[i].UsesArg1() && arg1[i] == c))
    }

    /** Every operand is a node of the graph. */
    ghost predicate Closed()
      requires Shaped()
    {
      forall i :: 0 <= i < |op| ==>
        (op[i].UsesArg0() ==> arg0[i] < |op|) && (op[i].UsesArg1() ==> arg1[i] < |op|)
    }

    /** Nodes 0..arity-1 are exactly the numbered inputs. */
    predicate InputsFirst()
      requires Shaped() && arity <= |op|
    {
      forall i :: 0 <= i < arity ==> op[i] == Input && arg0[i] == i
    }
  }

  /** `GraphBody::validate`: the first failing check, in source order. */
  function Validate(g: GraphBody): (r: Option<GraphError>)
    ensures r.None? <==> (
      && 0 < g.Size() <= g.capacity
      && g.Shaped()
      && g.outputNode < g.Size()
      && g.arity <= g.Size()
      && g.InputsFirst())
  {
    var n := |g.op|;
    if n == 0 then Some(InvalidInput("graph must contain nodes"))
    else if |g.arg0| != n || |g.arg1| != n then Some(InvalidInput("graph arrays differ in length"))
    else if g.capacity < n then Some(InvalidInput("capacity below node count"))
    else if g.outputNode >= n then Some(InvalidInput("output_node out of range"))
    else if g.arity > n then Some(InvalidInput("arity exceeds node count"))
    else if !g.InputsFirst() then Some(InvalidInput("input nodes must occupy ids 0..arity-1"))
    else None
  }

  /** A graph the engine may hold: it validates and every operand is in range. */
  ghost predicate WellFormed(g: GraphBody)
  {
    Validate(g).None? && g.Closed()
  }

  /** `children`: the operands a node pushes on a traversal stack, in order. */
  function Children(g: GraphBody, i: nat): (cs: seq<u32>)
    requires g.Shaped() && i < g.Size()
    ensures forall c :: c in cs <==> g.Reads(i, c)
    ensures |cs| <= 2
  {
    if g.op[i].UsesArg1() then [g.arg0[i], g.arg1[i]]
    else if g.op[i].UsesArg0() then [g.arg0[i]]
    else []
  }
}

/** Paths, ranks and the boolean function a graph computes. */
module Semantics {
  import opened Basics
  import opened Graphs

  // ---- paths -------------------------------------------------------------------------------

  /** `p` is a nonempty walk along operand references, inside the graph. */
  ghost predicate IsPath(g: GraphBody, p: seq<nat>)
    requires g.Shaped()
  {
    && |p| > 0
    && (forall k :: 0 <= k < |p| ==> p[k] < g.Size())
    && (forall k :: 0 <= k < |p| - 1 ==> g.Reads(p[k], p[k + 1]))
  }

  ghost predicate PathFromTo(g: GraphBody, p: seq<nat>, i: nat, j: nat)
    requires g.Shaped()
  {
    IsPath(g, p) && p[0] == i && p[|p| - 1] == j
  }

  /** `j` can be reached from `i` along zero or more operand references. */
  ghost predicate Reaches(g: GraphBody, i: nat, j: nat)
    requires g.Shaped()
  {
    exists p :: PathFromTo(g, p, i, j)
  }

  /** `j` can be reached from `i` along one or more operand references. */
  ghost predicate StrictlyReaches(g: GraphBody, i: nat, j: nat)
    requires g.Shaped()
  {
    exists c: nat :: g.Reads(i, c) && Reaches(g, c, j)
  }

  lemma ReachesSelf(g: GraphBody, i: nat)
    requires g.Shaped() && i < g.Size()
    ensures Reaches(g, i, i)
  {
    assert PathFromTo(g, [i], i, i);
  }

  lemma ReachesStep(g: GraphBody, i: nat, c: nat, j: nat)
    requires g.Shaped() && g.Reads(i, c) && Reaches(g, c, j)
    ensures Reaches(g, i, j) && StrictlyReaches(g, i, j)
  {
    var p :| PathFromTo(g, p, c, j);
    var q := [i] + p;
    forall k | 0 <= k < |q| - 1
      ensures g.Reads(q[k], q[k + 1])
    {
      if k > 0 { assert q[k] == p[k - 1] && q[k + 1] == p[k]; }
    }
    assert PathFromTo(g, q, i, j);
  }

  lemma ReachesExtend(g: GraphBody, i: nat, j: nat, c: nat)
    requires g.Shaped() && Reaches(g, i, j) && g.Reads(j, c) && c < g.Size()
    ensures Reaches(g, i, c)
  {
    var p :| PathFromTo(g, p, i, j);
    var q := p + [c];
    forall k | 0 <= k < |q| - 1
      ensures g.Reads(q[k], q[k + 1])
    {
      if k < |p| - 1 { assert q[k] == p[k] && q[k + 1] == p[k + 1]; }
    }
    assert PathFromTo(g, q, i, c);
  }

  // ---- ranks -------------------------------------------------------------------------------

  /** A certificate of acyclicity: every in-range operand has a smaller rank. */
  ghost predicate IsRank(g: GraphBody, r: seq<nat>)
    requires g.Shaped()
  {
    |r| == g.Size() && forall i: nat :: i < g.Size() ==> RankedAt(g, r, i)
  }

  ghost predicate RankedAt(g: GraphBody, r: seq<nat>, i: nat)
    requires g.Shaped() && |r| == g.Size() && i < g.Size()
  {
    && (g.op[i].UsesArg0() && g.arg0[i] < g.Size() ==> r[g.arg0[i]] < r[i])
    && (g.op[i].UsesArg1() && g.arg1[i] < g.Size() ==> r[g.arg1[i]] < r[i])
  }

  ghost predicate Acyclic(g: GraphBody)
    requires g.Shaped()
  {
    exists r :: IsRank(g, r)
  }

  lemma ReadsLowersRank(g: GraphBody, r: seq<nat>, i: nat, c: nat)
    requires g.Shaped() && IsRank(g, r) && g.Reads(i, c) && c < g.Size()
    ensures r[c] < r[i]
  {
    assert RankedAt(g, r, i);
  }

  lemma {:induction false} PathLowersRank(g: GraphBody, r: seq<nat>, p: seq<nat>)
    requires g.Shaped() && IsRank(g, r) && IsPath(g, p)
    ensures r[p[|p| - 1]] + |p| - 1 <= r[p[0]]
    decreases |p|
  {
    if |p| > 1 {
      var q := p[..|p| - 1];
      assert IsPath(g, q);
      PathLowersRank(g, r, q);
      ReadsLowersRank(g, r, p[|p| - 2], p[|p| - 1]);
    }
  }

  lemma ReachesLowersRank(g: GraphBody, r: seq<nat>, i: nat, j: nat)
    requires g.Shaped() && IsRank(g, r) && Reaches(g, i, j)
    ensures i < g.Size() && j < g.Size() && r[j] <= r[i]
    ensures StrictlyReaches(g, i, j) ==> r[j] < r[i]
  {
    var p :| PathFromTo(g, p, i, j);
    PathLowersRank(g, r, p);
    if StrictlyReaches(g, i, j) {
      var c: nat :| g.Reads(i, c) && Reaches(g, c, j);
      var q :| PathFromTo(g, q, c, j);
      PathLowersRank(g, r, q);
      ReadsLowersRank(g, r, i, c);
    }
  }

  /** In an acyclic graph no node depends on itself. */
  lemma AcyclicHasNoCycle(g: GraphBody, i: nat)
    requires g.Shaped() && Acyclic(g)
    ensures !StrictlyReaches(g, i, i)
  {
    var r :| IsRank(g, r);
    if StrictlyReaches(g, i, i) {
      var c: nat :| g.Reads(i, c) && Reaches(g, c, i);
      ReachesStep(g, i, c, i);
      ReachesLowersRank(g, r, i, i);
    }
  }

  /** The nodes below a node. */
  ghost function Below(g: GraphBody, i: nat): set<nat>
    requires g.Shaped()
  {
    set j: nat | j < g.Size() && StrictlyReaches(g, i, j)
  }

  lemma BelowShrinks(g: GraphBody, i: nat, c: nat)
    requires g.Shaped() && g.Reads(i, c) && c < g.Size() && !StrictlyReaches(g, c, c)
    ensures |Below(g, c)| < |Below(g, i)|
  {
    ReachesSelf(g, c);
    assert c in Below(g, i) && c !in Below(g, c);
    forall j | j in Below(g, c)
      ensures j in Below(g, i)
    {
      var d: nat :| g.Reads(c, d) && Reaches(g, d, j);
      ReachesStep(g, c, d, j);
      ReachesStep(g, i, c, j);
    }
    var rest := Below(g, i) - {c};
    assert Below(g, c) <= rest;
    SubsetCard(Below(g, c), rest);
  }

  /** Ranks are no more than the absence of cycles: counting the nodes below gives one. */
  lemma AcyclicIffNoCycle(g: GraphBody)
    requires g.Shaped()
    ensures Acyclic(g) <==> forall i: nat :: i < g.Size() ==> !StrictlyReaches(g, i, i)
  {
    if Acyclic(g) {
      forall i: nat | i < g.Size() ensures !StrictlyReaches(g, i, i) { AcyclicHasNoCycle(g, i); }
    }
    if forall i: nat :: i < g.Size() ==> !StrictlyReaches(g, i, i) {
      var r := seq(g.Size(), i requires 0 <= i < g.Size() => |Below(g, i)|);
      forall i: nat | i < g.Size()
        ensures RankedAt(g, r, i)
      {
        if g.op[i].UsesArg0() && g.arg0[i] < g.Size() { BelowShrinks(g, i, g.arg0[i]); }
        if g.op[i].UsesArg1() && g.arg1[i] < g.Size() { BelowShrinks(g, i, g.arg1[i]); }
      }
      assert IsRank(g, r);
    }
  }

  // ---- the function a graph computes -------------------------------------------------------

  type Assignment = nat -> bool

  /** The value the gate at `i` produces when its operands hold the values in `v`. */
  ghost predicate GateValue(g: GraphBody, x: Assignment, v: seq<bool>, i: nat)
    requires g.Shaped() && i < g.Size()
    requires g.op[i].UsesArg0() ==> g.arg0[i] < |v|
    requires g.op[i].UsesArg1() ==> g.arg1[i] < |v|
  {
    match g.op[i]
    case Input => x(g.arg0[i])
    case Const => g.arg0[i] != 0
    case And => v[g.arg0[i]] && v[g.arg1[i]]
    case Or => v[g.arg0[i]] || v[g.arg1[i]]
    case Not => !v[g.arg0[i]]
    case Output => v[g.arg0[i]]
  }

  /** Node `i` holds the value its gate produces. */
  ghost predicate Holds(g: GraphBody, x: Assignment, v: seq<bool>, i: nat)
    requires g.Shaped() && g.Closed() && i < g.Size() <= |v|
  {
    v[i] == GateValue(g, x, v, i)
  }

  /** `v` assigns every node the value its gate produces: the graph's equations hold. */
  ghost predicate Consistent(g: GraphBody, x: Assignment, v: seq<bool>)
    requires g.Shaped() && g.Closed()
  {
    |v| == g.Size() && forall i: nat :: i < g.Size() ==> Holds(g, x, v, i)
  }

  /** Evaluation by recursion on a rank. */
  ghost function NodeValue(g: GraphBody, r: seq<nat>, x: Assignment, i: nat): bool
    requires g.Shaped() && g.Closed() && IsRank(g, r) && i < g.Size()
    decreases r[i]
  {
    assert RankedAt(g, r, i);
    match g.op[i]
    case Input => x(g.arg0[i])
    case Const => g.arg0[i] != 0
    case And => NodeValue(g, r, x, g.arg0[i]) && NodeValue(g, r, x, g.arg1[i])
    case Or => NodeValue(g, r, x, g.arg0[i]) || NodeValue(g, r, x, g.arg1[i])
    case Not => !NodeValue(g, r, x, g.arg0[i])
    case Output => NodeValue(g, r, x, g.arg0[i])
  }

  /** The output bit of an acyclic graph on input assignment `x`. */
  ghost function Evaluate(g: GraphBody, x: Assignment): bool
    requires WellFormed(g) && Acyclic(g)
  {
    var r :| IsRank(g, r);
    NodeValue(g, r, x, g.outputNode)
  }

  ghost function Valuation(g: GraphBody, r: seq<nat>, x: Assignment): (v: seq<bool>)
    requires g.Shaped() && g.Closed() && IsRank(g, r)
    ensures Consistent(g, x, v)
  {
    var v := seq(g.Size(), i requires 0 <= i < g.Size() => NodeValue(g, r, x, i));
    assert forall i: nat :: i < g.Size() ==> Holds(g, x, v, i);
    v
  }

  /** The equations of an acyclic graph have at most one solution, the evaluation. */
  lemma {:induction false} ConsistentIsEvaluation(g: GraphBody, r: seq<nat>, x: Assignment, v: seq<bool>, i: nat)
    requires g.Shaped() && g.Closed() && IsRank(g, r) && Consistent(g, x, v) && i < g.Size()
    ensures v[i] == NodeValue(g, r, x, i)
    decreases r[i]
  {
    assert RankedAt(g, r, i) && Holds(g, x, v, i);
    if g.op[i].UsesArg0() { ConsistentIsEvaluation(g, r, x, v, g.arg0[i]); }
    if g.op[i].UsesArg1() { ConsistentIsEvaluation(g, r, x, v, g.arg1[i]); }
  }

  /** Every solution of the equations agrees with `Evaluate` at the output. */
  lemma EvaluateFromConsistent(g: GraphBody, x: Assignment, v: seq<bool>)
    requires WellFormed(g) && Acyclic(g) && Consistent(g, x, v)
    ensures Evaluate(g, x) == v[g.outputNode]
  {
    var r :| IsRank(g, r) && Evaluate(g, x) == NodeValue(g, r, x, g.outputNode);
    ConsistentIsEvaluation(g, r, x, v, g.outputNode);
  }

  /** An acyclic graph always has a solution. */
  lemma ConsistentExists(g: GraphBody, x: Assignment) returns (v: seq<bool>)
    requires g.Shaped() && g.Closed() && Acyclic(g)
    ensures Consistent(g, x, v)
  {
    var r :| IsRank(g, r);
    v := Valuation(g, r, x);
  }
}

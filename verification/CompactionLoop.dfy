/** The worklist implementation of `compact_graph`, proved to compute `Compaction.Compact`. */
module CompactionLoop {
  import opened Basics
  import opened Graphs
  import opened Semantics
  import opened Compaction

  /** How many nodes are still unmarked: the traversal's outer termination measure. */
  ghost function Unmarked(marks: seq<bool>): nat
  {
    if marks == [] then 0 else (if marks[|marks| - 1] then 0 else 1) + Unmarked(marks[..|marks| - 1])
  }

  lemma {:induction false} MarkingLowers(marks: seq<bool>, i: nat)
    requires i < |marks| && !marks[i]
    ensures Unmarked(marks[i := true]) < Unmarked(marks)
    decreases |marks|
  {
    var last := |marks| - 1;
    if i == last {
      assert marks[i := true][..last] == marks[..last];
    } else {
      assert marks[i := true][..last] == marks[..last][i := true];
      MarkingLowers(marks[..last], i);
    }
  }

  /** A reference waiting on the stack: the output itself, or an operand of a live node. */
  ghost predicate Pending(g: GraphBody, s: nat)
    requires g.Shaped()
  {
    s == g.outputNode || exists i: nat :: Live(g, i) && g.Reads(i, s)
  }

  lemma PendingIsLive(g: GraphBody, s: nat)
    requires Validate(g).None? && Pending(g, s)
    ensures s < g.Size() ==> Live(g, s)
    ensures s >= g.Size() ==> !LiveClosed(g)
  {
    if s == g.outputNode {
      ReachesSelf(g, s);
    } else {
      var i: nat :| Live(g, i) && g.Reads(i, s);
      if s < g.Size() { ReachesExtend(g, g.outputNode, i, s); }
    }
  }

  /** A marking that holds the output and is closed under operands holds every live node. */
  lemma {:induction false} ClosedMarksCover(g: GraphBody, marks: seq<bool>, p: seq<nat>)
    requires g.Shaped() && |marks| == g.Size() && g.outputNode < g.Size() && marks[g.outputNode]
    requires forall i: nat, c: nat :: i < g.Size() && marks[i] && g.Reads(i, c) ==> c < g.Size() && marks[c]
    requires IsPath(g, p) && p[0] == g.outputNode
    ensures marks[p[|p| - 1]]
    decreases |p|
  {
    if |p| > 1 {
      assert IsPath(g, p[..|p| - 1]);
      ClosedMarksCover(g, marks, p[..|p| - 1]);
      assert g.Reads(p[|p| - 2], p[|p| - 1]);
    }
  }

  /** Depth-first marking from the output; fails on the first reference outside the graph. */
  method MarkReachable(g: GraphBody) returns (r: Result<seq<bool>, GraphError>)
    requires Validate(g).None?
    ensures r.Ok? <==> LiveClosed(g)
    ensures r.Ok? ==> |r.value| == g.Size() && forall i :: 0 <= i < g.Size() ==> (r.value[i] <==> Live(g, i))
    ensures r.Err? ==> r.error == InvalidInput("bad node reference")
  {
    var n := |g.op|;
    var reachable := new bool[n](_ => false);
    var stack: seq<u32> := [g.outputNode];
    while |stack| > 0
      invariant forall s :: s in stack ==> Pending(g, s)
      invariant forall i :: 0 <= i < n && reachable[i] ==> Live(g, i)
      invariant g.outputNode in stack || reachable[g.outputNode]
      invariant forall i: nat, c: nat :: i < n && reachable[i] && g.Reads(i, c) ==>
                  c in stack || (c < n && reachable[c])
      decreases Unmarked(reachable[..]), |stack|
    {
      var node := stack[|stack| - 1];
      ghost var before := stack;
      stack := stack[..|stack| - 1];
      assert forall s :: s in before <==> s in stack || s == node;
      PendingIsLive(g, node);
      if node >= n {
        return Err(InvalidInput("bad node reference"));
      }
      if !reachable[node] {
        ghost var marks := reachable[..];
        MarkingLowers(marks, node);
        reachable[node] := true;
        assert reachable[..] == marks[node := true];
        stack := stack + Children(g, node);
      }
    }
    var marks := reachable[..];
    forall i: nat | i < n && Live(g, i)
      ensures marks[i]
    {
      var p :| PathFromTo(g, p, g.outputNode, i);
      ClosedMarksCover(g, marks, p);
    }
    r := Ok(marks);
  }

  /** `remapped`: look a reference up, refusing dropped and out-of-range nodes. */
  function Remapped(remap: seq<u32>, node: u32): Result<u32, GraphError>
  {
    if node >= |remap| then Err(InvalidInput("bad node reference"))
    else if remap[node] == NO_NODE then Err(InvalidInput("unreachable child reference"))
    else Ok(remap[node])
  }

  /** The reference table sends survivors to their new numbers and everything else to `NO_NODE`. */
  ghost predicate RemapTable(g: GraphBody, remap: seq<u32>)
    requires g.Shaped()
  {
    && |remap| == g.Size()
    && forall i: nat :: i < g.Size() ==> remap[i] == if Kept(g, i) then NewIndex(g, i) else NO_NODE
  }

  method BuildRemap(g: GraphBody, keep: seq<u32>) returns (remap: seq<u32>)
    requires Validate(g).None? && keep == KeepUpTo(g, g.Size())
    ensures RemapTable(g, remap)
  {
    var table := new u32[|g.op|](_ => NO_NODE);
    for new_ := 0 to |keep|
      invariant forall j :: 0 <= j < new_ ==> table[keep[j]] == j
      invariant forall i :: 0 <= i < table.Length && i !in keep[..new_] ==> table[i] == NO_NODE
    {
      assert keep[..new_ + 1] == keep[..new_] + [keep[new_]];
      table[keep[new_]] := new_;
    }
    remap := table[..];
    forall i: nat | i < g.Size()
      ensures remap[i] == if Kept(g, i) then NewIndex(g, i) else NO_NODE
    {
      if Kept(g, i) {
        NewIndexOfKept(g, i, g.Size());
      } else {
        assert keep[..|keep|] == keep;
      }
    }
  }

  /** `compact_graph`. */
  method CompactGraph(g: GraphBody) returns (r: Result<GraphBody, GraphError>)
    ensures r == Compact(g)
  {
    var invalid := Validate(g);
    if invalid.Some? {
      return Err(invalid.value);
    }
    var marked := MarkReachable(g);
    if marked.Err? {
      return Err(marked.error);
    }
    var reachable := marked.value;
    var n := |g.op|;
    var keep: seq<u32> := [];
    var identity := true;
    for i := 0 to n
      invariant keep == KeepUpTo(g, i)
      invariant identity ==> keep == [] || keep[|keep| - 1] == |keep| - 1
      invariant identity <== |keep| == i
      invariant !identity ==> |keep| < i
    {
      if i < g.arity || reachable[i] {
        if i != |keep| {
          identity := false;
        }
        keep := keep + [i];
      }
    }
    if identity && |keep| == n {
      return Ok(g);
    }
    var remap := BuildRemap(g, keep);
    r := EmitKept(g, keep, remap);
  }

  lemma RemapOfOperand(g: GraphBody, remap: seq<u32>, i: nat, c: u32)
    requires Validate(g).None? && LiveClosed(g) && RemapTable(g, remap) && Kept(g, i) && g.Reads(i, c)
    ensures Kept(g, c) && Remapped(remap, c) == Ok(NewIndex(g, c))
  {
    KeptOperands(g, i, c);
  }

  /** One surviving gate with its operands looked up in the table. */
  function EmitGate(g: GraphBody, remap: seq<u32>, index: nat): Result<Gate, GraphError>
    requires g.Shaped() && index < g.Size()
  {
    var code := g.op[index];
    match code
    case Input => Ok(Gate(code, g.arg0[index], NO_NODE))
    case Const => Ok(Gate(code, if g.arg0[index] != 0 then 1 else 0, NO_NODE))
    case Not | Output =>
      var a := Remapped(remap, g.arg0[index]);
      if a.Err? then Err(a.error) else Ok(Gate(code, a.value, NO_NODE))
    case And | Or =>
      var a := Remapped(remap, g.arg0[index]);
      if a.Err? then Err(a.error) else
      var b := Remapped(remap, g.arg1[index]);
      if b.Err? then Err(b.error) else Ok(Gate(code, a.value, b.value))
  }

  lemma EmitGateSucceeds(g: GraphBody, remap: seq<u32>, j: nat)
    requires Validate(g).None? && LiveClosed(g) && RemapTable(g, remap) && j < Renumbered(g).Size()
    ensures var h := Renumbered(g);
            h.Shaped() && EmitGate(g, remap, KeepUpTo(g, g.Size())[j]) == Ok(Gate(h.op[j], h.arg0[j], h.arg1[j]))
  {
    var i := KeepUpTo(g, g.Size())[j];
    if g.op[i].UsesArg0() { RemapOfOperand(g, remap, i, g.arg0[i]); }
    if g.op[i].UsesArg1() { RemapOfOperand(g, remap, i, g.arg1[i]); }
  }

  /** Copy the survivors with renumbered operands. The lookups and the final validation cannot fail here. */
  method EmitKept(g: GraphBody, keep: seq<u32>, remap: seq<u32>) returns (r: Result<GraphBody, GraphError>)
    requires Validate(g).None? && LiveClosed(g)
    requires keep == KeepUpTo(g, g.Size()) && RemapTable(g, remap)
    ensures r == Ok(Renumbered(g))
  {
    ghost var h := Renumbered(g);
    var op: seq<OpCode> := [];
    var arg0: seq<u32> := [];
    var arg1: seq<u32> := [];
    for k := 0 to |keep|
      invariant op == h.op[..k] && arg0 == h.arg0[..k] && arg1 == h.arg1[..k]
    {
      EmitGateSucceeds(g, remap, k);
      var gate := EmitGate(g, remap, keep[k]);
      assert gate.Ok?;
      op, arg0, arg1 := op + [gate.value.op], arg0 + [gate.value.a], arg1 + [gate.value.b];
    }
    ReachesSelf(g, g.outputNode);
    var output := Remapped(remap, g.outputNode);
    assert output.Ok?;
    var body := GraphBody(g.arity, g.capacity, output.value, op, arg0, arg1);
    assert body == h;
    RenumberedWellFormed(g);
    assert Validate(body).None?;
    r := Ok(body);
  }
}

/** `apply_graph` as the source runs it: clone, append, redirect in place, compact. */
module RewriteLoop {
  import opened Basics
  import opened Graphs
  import opened Compaction
  import CompactionLoop
  import opened Rules

  /** Push a plan's gates on the three node columns. */
  method AppendGates(g: GraphBody, gates: seq<Gate>) returns (op: seq<OpCode>, arg0: seq<u32>, arg1: seq<u32>)
    requires g.Shaped()
    ensures op == g.op + seq(|gates|, k requires 0 <= k < |gates| => gates[k].op)
    ensures arg0 == g.arg0 + seq(|gates|, k requires 0 <= k < |gates| => gates[k].a)
    ensures arg1 == g.arg1 + seq(|gates|, k requires 0 <= k < |gates| => gates[k].b)
  {
    op, arg0, arg1 := g.op, g.arg0, g.arg1;
    for k := 0 to |gates|
      invariant op == g.op + seq(k, j requires 0 <= j < k => gates[j].op)
      invariant arg0 == g.arg0 + seq(k, j requires 0 <= j < k => gates[j].a)
      invariant arg1 == g.arg1 + seq(k, j requires 0 <= j < k => gates[j].b)
    {
      op, arg0, arg1 := op + [gates[k].op], arg0 + [gates[k].a], arg1 + [gates[k].b];
    }
  }

  /** Replace every use of `root` among the first `n` nodes, in place. */
  method Redirect(op: seq<OpCode>, arg0: array<u32>, arg1: array<u32>, n: nat, root: u32, replacement: u32)
    requires |op| == arg0.Length == arg1.Length && n <= |op| && arg0 != arg1
    modifies arg0, arg1
    ensures forall i :: 0 <= i < arg0.Length ==>
              arg0[i] == if i < n && op[i].UsesArg0() && old(arg0[i]) == root then replacement else old(arg0[i])
    ensures forall i :: 0 <= i < arg1.Length ==>
              arg1[i] == if i < n && op[i].UsesArg1() && old(arg1[i]) == root then replacement else old(arg1[i])
  {
    for node := 0 to n
      invariant forall i :: 0 <= i < arg0.Length ==>
                  arg0[i] == if i < node && op[i].UsesArg0() && old(arg0[i]) == root then replacement else old(arg0[i])
      invariant forall i :: 0 <= i < arg1.Length ==>
                  arg1[i] == if i < node && op[i].UsesArg1() && old(arg1[i]) == root then replacement else old(arg1[i])
    {
      var code := op[node];
      if (code == And || code == Or || code == Not || code == Output) && arg0[node] == root {
        arg0[node] := replacement;
      }
      if (code == And || code == Or) && arg1[node] == root {
        arg1[node] := replacement;
      }
    }
  }

  /** `apply_graph`. */
  method ApplyGraph(g: GraphBody, c: RawCandidate) returns (r: Result<GraphBody, RuleError>)
    requires g.Shaped()
    ensures r == Apply(g, c)
  {
    if c.root >= |g.op| {
      return Err(InvalidCandidate("candidate root out of range"));
    }
    for k := 0 to c.matchLen
      invariant forall j :: 0 <= j < k ==> c.matched[j] < g.Size()
    {
      if c.matched[k] >= |g.op| {
        return Err(InvalidCandidate("candidate matched node out of range"));
      }
    }
    var rule := FromU16(c.ruleId);
    if rule.None? {
      return Err(UnknownRule(c.ruleId));
    }
    var plan := ReplacementPlan(rule.value, c.root, c.matched, |g.op|);
    var op, args0, args1 := AppendGates(g, plan.gates);
    if |op| > g.capacity {
      return Err(CapacityExceeded);
    }
    var arg0 := new u32[|args0|](i requires 0 <= i < |args0| => args0[i]);
    var arg1 := new u32[|args1|](i requires 0 <= i < |args1| => args1[i]);
    Redirect(op, arg0, arg1, |g.op|, c.root, plan.result);
    var out := GraphBody(g.arity, g.capacity, g.outputNode, op, arg0[..], arg1[..]);
    assert out == Rewritten(g, c.root, plan);
    var compacted := CompactionLoop.CompactGraph(out);
    r := match compacted
      case Ok(body) => Ok(body)
      case Err(error) => Err(GraphFailure(error));
  }
}

/** `truth_table_seed`: a graph that computes a truth table given by its exceptional rows. */
module TruthTable {
  import opened Basics
  import opened Graphs
  import opened Semantics
  import opened Compaction
  import CompactionLoop

  // ---- gate lists in topological order -----------------------------------------------------

  /** Every gate reads only earlier gates. */
  ghost predicate Topological(gates: seq<Gate>)
  {
    forall i: nat :: i < |gates| ==> ReadsEarlier(gates, i)
  }

  ghost predicate ReadsEarlier(gates: seq<Gate>, i: nat)
    requires i < |gates|
  {
    (gates[i].op.UsesArg0() ==> gates[i].a < i) && (gates[i].op.UsesArg1() ==> gates[i].b < i)
  }

  /** The value of gate `i`, by recursion on its position. */
  ghost function Value(gates: seq<Gate>, x: Assignment, i: nat): bool
    requires Topological(gates) && i < |gates|
  {
    assert ReadsEarlier(gates, i);
    match gates[i].op
    case Input => x(gates[i].a)
    case Const => gates[i].a != 0
    case And => Value(gates, x, gates[i].a) && Value(gates, x, gates[i].b)
    case Or => Value(gates, x, gates[i].a) || Value(gates, x, gates[i].b)
    case Not => !Value(gates, x, gates[i].a)
    case Output => Value(gates, x, gates[i].a)
  }

  lemma {:induction false} ValueStable(gates: seq<Gate>, more: seq<Gate>, x: Assignment, i: nat)
    requires Topological(gates) && Topological(more) && gates <= more && i < |gates|
    ensures Value(more, x, i) == Value(gates, x, i)
    decreases i
  {
    assert ReadsEarlier(gates, i);
    if gates[i].op.UsesArg0() { ValueStable(gates, more, x, gates[i].a); }
    if gates[i].op.UsesArg1() { ValueStable(gates, more, x, gates[i].b); }
  }

  lemma TopologicalAppend(gates: seq<Gate>, gate: Gate)
    requires Topological(gates)
    requires (gate.op.UsesArg0() ==> gate.a < |gates|) && (gate.op.UsesArg1() ==> gate.b < |gates|)
    ensures Topological(gates + [gate])
  {
    var more := gates + [gate];
    forall i: nat | i < |more|
      ensures ReadsEarlier(more, i)
    {
      if i < |gates| { assert ReadsEarlier(gates, i); }
    }
  }

  /** The graph whose columns are the fields of a gate list. */
  function GraphOf(arity: u16, capacity: u16, output: u32, gates: seq<Gate>): GraphBody
  {
    GraphBody(arity, capacity, output,
              seq(|gates|, i requires 0 <= i < |gates| => gates[i].op),
              seq(|gates|, i requires 0 <= i < |gates| => gates[i].a),
              seq(|gates|, i requires 0 <= i < |gates| => gates[i].b))
  }

  /** A topological gate list makes an acyclic graph that computes the value of its output gate. */
  lemma GraphOfEvaluates(arity: u16, capacity: u16, output: u32, gates: seq<Gate>)
    requires Topological(gates)
    requires Validate(GraphOf(arity, capacity, output, gates)).None?
    ensures var g := GraphOf(arity, capacity, output, gates);
            && WellFormed(g) && Acyclic(g)
            && forall x :: Evaluate(g, x) == Value(gates, x, output)
  {
    var g := GraphOf(arity, capacity, output, gates);
    var r: seq<nat> := seq(|gates|, i requires 0 <= i < |gates| => i);
    forall i: nat | i < g.Size()
      ensures (g.op[i].UsesArg0() ==> g.arg0[i] < i) && (g.op[i].UsesArg1() ==> g.arg1[i] < i)
    {
      assert ReadsEarlier(gates, i);
    }
    assert forall i: nat :: i < g.Size() ==> RankedAt(g, r, i);
    assert IsRank(g, r);
    forall x: Assignment
      ensures Evaluate(g, x) == Value(gates, x, output)
    {
      var v := seq(|gates|, i requires 0 <= i < |gates| => Value(gates, x, i));
      forall i: nat | i < g.Size()
        ensures Holds(g, x, v, i)
      {
        assert ReadsEarlier(gates, i);
      }
      EvaluateFromConsistent(g, x, v);
    }
  }

  // ---- literals, terms and their disjunction -----------------------------------------------

  function Pow2(k: nat): nat
    ensures Pow2(k) > 0
  {
    if k == 0 then 1 else 2 * Pow2(k - 1)
  }

  /** Bit `v` of an assignment number. */
  predicate Bit(assignment: nat, v: nat)
  {
    (assignment / Pow2(v)) % 2 == 1
  }

  /** `x` agrees with the row numbered `assignment` on the first `k` variables. */
  ghost predicate Agrees(x: Assignment, assignment: nat, k: nat)
  {
    forall v: nat :: v < k ==> x(v) == Bit(assignment, v)
  }

  /** `x` is one of the first `j` selected rows. */
  ghost predicate Selected(x: Assignment, selected: seq<nat>, arity: nat, j: nat)
    requires j <= |selected|
  {
    exists i :: 0 <= i < j && Agrees(x, selected[i], arity)
  }

  ghost predicate ComputesVariable(gates: seq<Gate>, i: nat, v: nat, positive: bool)
    requires Topological(gates)
  {
    i < |gates| && forall x: Assignment :: Value(gates, x, i) == (x(v) == positive)
  }

  ghost predicate ComputesTerm(gates: seq<Gate>, i: nat, assignment: nat, k: nat)
    requires Topological(gates)
  {
    i < |gates| && forall x: Assignment :: Value(gates, x, i) == Agrees(x, assignment, k)
  }

  ghost predicate ComputesTable(gates: seq<Gate>, i: nat, selected: seq<nat>, arity: nat, j: nat)
    requires Topological(gates) && j <= |selected|
  {
    i < |gates| && forall x: Assignment :: Value(gates, x, i) == Selected(x, selected, arity, j)
  }

  /** The inputs come first and the cached negations negate their variables. */
  ghost predicate Scaffold(arity: u16, gates: seq<Gate>, negations: seq<Option<u32>>)
  {
    && Topological(gates) && arity <= |gates| && |negations| == arity
    && (forall v: nat :: v < arity ==> gates[v] == Gate(Input, v, NO_NODE))
    && (forall v: nat :: v < arity && negations[v].Some? ==> ComputesVariable(gates, negations[v].value, v, false))
  }

  lemma ScaffoldStable(arity: u16, gates: seq<Gate>, negations: seq<Option<u32>>, more: seq<Gate>)
    requires Scaffold(arity, gates, negations) && Topological(more) && gates <= more
    ensures Scaffold(arity, more, negations)
  {
    forall v: nat | v < arity && negations[v].Some?
      ensures ComputesVariable(more, negations[v].value, v, false)
    {
      assert ComputesVariable(gates, negations[v].value, v, false);
      forall x: Assignment { ValueStable(gates, more, x, negations[v].value); }
    }
  }

  lemma InputComputes(arity: u16, gates: seq<Gate>, negations: seq<Option<u32>>, v: nat)
    requires Scaffold(arity, gates, negations) && v < arity
    ensures ComputesVariable(gates, v, v, true)
  {
  }

  lemma TermStable(gates: seq<Gate>, more: seq<Gate>, i: nat, assignment: nat, k: nat)
    requires Topological(gates) && Topological(more) && gates <= more && ComputesTerm(gates, i, assignment, k)
    ensures ComputesTerm(more, i, assignment, k)
  {
    forall x: Assignment
      ensures Value(more, x, i) == Agrees(x, assignment, k)
    {
      ValueStable(gates, more, x, i);
    }
  }

  lemma TableStable(gates: seq<Gate>, more: seq<Gate>, i: nat, selected: seq<nat>, arity: nat, j: nat)
    requires Topological(gates) && Topological(more) && gates <= more && j <= |selected|
    requires ComputesTable(gates, i, selected, arity, j)
    ensures ComputesTable(more, i, selected, arity, j)
  {
    forall x: Assignment
      ensures Value(more, x, i) == Selected(x, selected, arity, j)
    {
      ValueStable(gates, more, x, i);
    }
  }

  // ---- counting the negations --------------------------------------------------------------

  /** How many of the first `k` variables have a cached negation. */
  ghost function CountCached(negations: seq<Option<u32>>, k: nat): nat
    requires k <= |negations|
  {
    if k == 0 then 0 else CountCached(negations, k - 1) + if negations[k - 1].Some? then 1 else 0
  }

  /** How many of the first `k` variables are false in some selected row. */
  ghost function CountNegated(selected: seq<nat>, k: nat): nat
  {
    if k == 0 then 0
    else CountNegated(selected, k - 1) + if NegatedSomewhere(selected, k - 1, |selected|) then 1 else 0
  }

  ghost predicate NegatedSomewhere(selected: seq<nat>, v: nat, j: nat)
    requires j <= |selected|
  {
    exists i :: 0 <= i < j && !Bit(selected[i], v)
  }

  lemma {:induction false} CountUpdate(negations: seq<Option<u32>>, v: nat, node: u32, k: nat)
    requires v < |negations| && negations[v].None? && k <= |negations|
    ensures CountCached(negations[v := Some(node)], k) == CountCached(negations, k) + if v < k then 1 else 0
  {
    if k > 0 { CountUpdate(negations, v, node, k - 1); }
  }

  lemma {:induction false} CountsAgree(negations: seq<Option<u32>>, selected: seq<nat>, k: nat)
    requires k <= |negations|
    requires forall v: nat :: v < k ==> (negations[v].Some? <==> NegatedSomewhere(selected, v, |selected|))
    ensures CountCached(negations, k) == CountNegated(selected, k)
  {
    if k > 0 { CountsAgree(negations, selected, k - 1); }
  }

  // ---- the construction --------------------------------------------------------------------

  /** A literal: the input itself, or its cached or freshly appended negation. */
  method AddLiteral(arity: u16, gates: seq<Gate>, negations: seq<Option<u32>>, v: u32, positive: bool)
    returns (out: seq<Gate>, cache: seq<Option<u32>>, literal: u32)
    requires Scaffold(arity, gates, negations) && v < arity && |gates| < 0x7FFF_FFFF
    ensures Scaffold(arity, out, cache) && gates <= out && ComputesVariable(out, literal, v, positive)
    ensures |out| + CountCached(negations, arity) == |gates| + CountCached(cache, arity)
    ensures forall u: nat :: u < arity ==> (cache[u].Some? <==> negations[u].Some? || (u == v && !positive))
    ensures |out| <= |gates| + 1
  {
    out, cache := gates, negations;
    if positive {
      InputComputes(arity, gates, negations, v);
      literal := v;
    } else if negations[v].Some? {
      literal := negations[v].value;
    } else {
      TopologicalAppend(gates, Gate(Not, v, NO_NODE));
      out := gates + [Gate(Not, v, NO_NODE)];
      literal := |gates|;
      ScaffoldStable(arity, gates, negations, out);
      InputComputes(arity, out, negations, v);
      assert ComputesVariable(out, literal, v, false);
      cache := negations[v := Some(literal)];
      CountUpdate(negations, v, literal, arity);
    }
  }

  /** Append the conjunction of two gates. */
  lemma ConjunctionComputes(gates: seq<Gate>, term: u32, literal: u32, assignment: nat, k: nat)
    requires Topological(gates) && ComputesTerm(gates, term, assignment, k)
    requires ComputesVariable(gates, literal, k, Bit(assignment, k))
    ensures Topological(gates + [Gate(And, term, literal)])
    ensures ComputesTerm(gates + [Gate(And, term, literal)], |gates|, assignment, k + 1)
  {
    var more := gates + [Gate(And, term, literal)];
    TopologicalAppend(gates, Gate(And, term, literal));
    forall x: Assignment
      ensures Value(more, x, |gates|) == Agrees(x, assignment, k + 1)
    {
      ValueStable(gates, more, x, term);
      ValueStable(gates, more, x, literal);
    }
  }

  /** The conjunction that is true on exactly one row. */
  method AddTerm(arity: u16, gates: seq<Gate>, negations: seq<Option<u32>>, assignment: nat)
    returns (out: seq<Gate>, cache: seq<Option<u32>>, term: u32)
    requires Scaffold(arity, gates, negations) && 0 < arity && |gates| + 2 * arity < 0x7FFF_FFFF
    ensures Scaffold(arity, out, cache) && gates <= out && ComputesTerm(out, term, assignment, arity)
    ensures |out| + CountCached(negations, arity) == |gates| + CountCached(cache, arity) + arity - 1
    ensures forall u: nat :: u < arity ==> (cache[u].Some? <==> negations[u].Some? || !Bit(assignment, u))
    ensures |out| <= |gates| + 2 * arity
  {
    out, cache := gates, negations;
    var termRoot: Option<u32> := None;
    for v := 0 to arity
      invariant Scaffold(arity, out, cache) && gates <= out
      invariant |out| <= |gates| + 2 * v
      invariant v == 0 <==> termRoot.None?
      invariant termRoot.Some? ==> ComputesTerm(out, termRoot.value, assignment, v)
      invariant |out| + CountCached(negations, arity)
                == |gates| + CountCached(cache, arity) + if v == 0 then 0 else v - 1
      invariant forall u: nat :: u < arity ==>
                  (cache[u].Some? <==> negations[u].Some? || (u < v && !Bit(assignment, u)))
    {
      ghost var before := out;
      var literal;
      out, cache, literal := AddLiteral(arity, out, cache, v, Bit(assignment, v));
      match termRoot {
        case Some(t) =>
          TermStable(before, out, t, assignment, v);
          ConjunctionComputes(out, t, literal, assignment, v);
          ghost var grown := out + [Gate(And, t, literal)];
          ScaffoldStable(arity, out, cache, grown);
          termRoot := Some(|out|);
          out := out + [Gate(And, t, literal)];
        case None =>
          assert ComputesTerm(out, literal, assignment, 1);
          termRoot := Some(literal);
      }
    }
    term := termRoot.value;
  }

  lemma DisjunctionComputes(gates: seq<Gate>, dnf: u32, term: u32, selected: seq<nat>, arity: nat, j: nat)
    requires Topological(gates) && j < |selected| && ComputesTable(gates, dnf, selected, arity, j)
    requires ComputesTerm(gates, term, selected[j], arity)
    ensures Topological(gates + [Gate(Or, dnf, term)])
    ensures ComputesTable(gates + [Gate(Or, dnf, term)], |gates|, selected, arity, j + 1)
  {
    var more := gates + [Gate(Or, dnf, term)];
    TopologicalAppend(gates, Gate(Or, dnf, term));
    forall x: Assignment
      ensures Value(more, x, |gates|) == Selected(x, selected, arity, j + 1)
    {
      ValueStable(gates, more, x, dnf);
      ValueStable(gates, more, x, term);
    }
  }

  /** The number of gates the seed has before compaction. */
  ghost function SeedSize(arity: nat, selected: seq<nat>, exceptionsAreTrue: bool): int
  {
    arity + CountNegated(selected, arity) + |selected| * arity + if exceptionsAreTrue then 0 else 1
  }

  /** The inputs alone. */
  method Inputs(arity: u16) returns (gates: seq<Gate>, negations: seq<Option<u32>>)
    ensures |gates| == arity && Scaffold(arity, gates, negations) && CountCached(negations, arity) == 0
    ensures forall v: nat :: v < arity ==> negations[v].None?
  {
    gates := seq(arity, i requires 0 <= i < arity => Gate(Input, i, NO_NODE));
    negations := seq(arity, _ => None);
    assert forall i: nat :: i < arity ==> ReadsEarlier(gates, i);
    NothingCached(negations, arity);
  }

  lemma {:induction false} NothingCached(negations: seq<Option<u32>>, k: nat)
    requires k <= |negations| && forall v: nat :: v < k ==> negations[v].None?
    ensures CountCached(negations, k) == 0
  {
    if k > 0 { NothingCached(negations, k - 1); }
  }

  lemma FirstTermIsTable(gates: seq<Gate>, term: u32, selected: seq<nat>, arity: nat)
    requires Topological(gates) && |selected| > 0 && ComputesTerm(gates, term, selected[0], arity)
    ensures ComputesTable(gates, term, selected, arity, 1)
  {
    forall x: Assignment
      ensures Value(gates, x, term) == Selected(x, selected, arity, 1)
    {
    }
  }

  lemma SizeBound(j: nat, arity: nat, n: nat)
    requires arity <= 16 && j <= 0xFFFF && n <= arity
    ensures arity + n + j * arity < 0x40_0000
    ensures (j + 1) * arity == j * arity + arity
  {
    assert j * arity <= 0xFFFF * 16;
  }

  lemma {:induction false} CachedAtMost(negations: seq<Option<u32>>, k: nat)
    requires k <= |negations|
    ensures CountCached(negations, k) <= k
  {
    if k > 0 { CachedAtMost(negations, k - 1); }
  }

  /** The disjunction of one term per selected row; without a row there is none. */
  method AddTable(arity: u16, selected: seq<nat>) returns (gates: seq<Gate>, root: Option<u32>)
    requires 0 < arity <= 16 && |selected| <= 0xFFFF
    ensures Topological(gates) && (root.None? <==> selected == [])
    ensures root.Some? ==>
              && ComputesTable(gates, root.value, selected, arity, |selected|)
              && |gates| == arity + CountNegated(selected, arity) + |selected| * arity - 1
    ensures |gates| < 0x40_0000 && arity <= |gates| && forall v: nat :: v < arity ==>
            gates[v] == Gate(Input, v, NO_NODE)
  {
    var cache;
    gates, cache := Inputs(arity);
    var dnf: Option<u32> := None;
    for j := 0 to |selected|
      invariant Scaffold(arity, gates, cache)
      invariant j == 0 <==> dnf.None?
      invariant dnf.Some? ==> ComputesTable(gates, dnf.value, selected, arity, j)
      invariant |gates| == arity + CountCached(cache, arity) + if j == 0 then 0 else j * arity - 1
      invariant forall v: nat :: v < arity ==> (cache[v].Some? <==> NegatedSomewhere(selected, v, j))
    {
      CachedAtMost(cache, arity);
      SizeBound(j, arity, CountCached(cache, arity));
      ghost var before := gates;
      var term;
      gates, cache, term := AddTerm(arity, gates, cache, selected[j]);
      match dnf {
        case Some(d) =>
          TableStable(before, gates, d, selected, arity, j);
          DisjunctionComputes(gates, d, term, selected, arity, j);
          ghost var grown := gates + [Gate(Or, d, term)];
          ScaffoldStable(arity, gates, cache, grown);
          dnf := Some(|gates|);
          gates := gates + [Gate(Or, d, term)];
        case None =>
          FirstTermIsTable(gates, term, selected, arity);
          dnf := Some(term);
      }
    }
    CachedAtMost(cache, arity);
    SizeBound(|selected|, arity, CountCached(cache, arity));
    CountsAgree(cache, selected, arity);
    root := dnf;
  }

  datatype GeneratorError =
    | ZeroArity | ArityTooLarge | CapacityTooSmall | InvalidExceptionTermRange | ZeroExceptionTerms
    | InvalidPrewalkRange | SeedGraphExceedsCapacity

  /** Why there is no seed: the configuration is refused, or the program stops with a panic. */
  datatype SeedFailure = Refused(error: GeneratorError) | Panicked

  /** The bit a truth table assigns to a row: `exceptionsAreTrue` on the selected rows, its negation elsewhere. */
  ghost predicate Table(x: Assignment, selected: seq<nat>, arity: nat, exceptionsAreTrue: bool)
  {
    Selected(x, selected, arity, |selected|) == exceptionsAreTrue
  }

  // ---- rows are numbers --------------------------------------------------------------------

  /** The row of a truth table an assignment belongs to: variable `v` counts two to the power `v`. */
  function RowOf(x: Assignment, arity: nat): nat
  {
    if arity == 0 then 0 else RowOf(x, arity - 1) + if x(arity - 1) then Pow2(arity - 1) else 0
  }

  lemma Halves(a: nat, p: nat)
    requires p > 0
    ensures a % (2 * p) == a % p + (if (a / p) % 2 == 1 then p else 0)
  {
    var q, r := a / p, a % p;
    var half, bit := q / 2, q % 2;
    assert a == p * q + r && q == 2 * half + bit;
    var low := bit * p + r;
    assert a == (2 * p) * half + low by {
      assert p * q == p * (2 * half) + p * bit;
    }
    assert 0 <= low < 2 * p;
    Remainder(a, 2 * p, half, low);
  }

  lemma Scaled(d: nat, x: nat, y: nat)
    requires x < y
    ensures d * x + d <= d * y
  {
    assert d * y == d * (x + 1) + d * (y - x - 1);
  }

  lemma Remainder(a: nat, d: nat, q: nat, r: nat)
    requires r < d && a == d * q + r
    ensures a % d == r
  {
    var k, m := a / d, a % d;
    assert a == d * k + m;
    if k < q {
      Scaled(d, k, q);
    } else if q < k {
      Scaled(d, q, k);
    }
  }

  lemma {:induction false} AgreesMeans(x: Assignment, assignment: nat, k: nat)
    ensures RowOf(x, k) < Pow2(k)
    ensures Agrees(x, assignment, k) <==> assignment % Pow2(k) == RowOf(x, k)
  {
    if k > 0 {
      AgreesMeans(x, assignment, k - 1);
      Halves(assignment, Pow2(k - 1));
      assert Agrees(x, assignment, k) <==> Agrees(x, assignment, k - 1) && x(k - 1) == Bit(assignment, k - 1);
    }
  }

  /** The table by row numbers: a row has the exceptional value exactly when its number was selected. */
  lemma TableByRow(x: Assignment, selected: seq<nat>, arity: nat, exceptionsAreTrue: bool)
    requires forall i :: 0 <= i < |selected| ==> selected[i] < Pow2(arity)
    ensures Table(x, selected, arity, exceptionsAreTrue) <==> (RowOf(x, arity) in selected <==> exceptionsAreTrue)
  {
    hide Agrees, RowOf, Pow2;
    forall i | 0 <= i < |selected|
      ensures Agrees(x, selected[i], arity) <==> selected[i] == RowOf(x, arity)
    {
      AgreesMeans(x, selected[i], arity);
      Remainder(selected[i], Pow2(arity), 0, selected[i]);
    }
  }

  lemma FinishedSeed(arity: u16, capacity: u16, selected: seq<nat>, exceptionsAreTrue: bool, gates: seq<Gate>,
                     root: u32)
    requires Topological(gates) && ComputesTable(gates, root, selected, arity, |selected|)
    ensures var closed := if exceptionsAreTrue then gates else gates + [Gate(Not, root, NO_NODE)];
            var top := if exceptionsAreTrue then root else |gates|;
            && Topological(closed) && top < |closed|
            && forall x :: Value(closed, x, top) == Table(x, selected, arity, exceptionsAreTrue)
  {
    if !exceptionsAreTrue {
      TopologicalAppend(gates, Gate(Not, root, NO_NODE));
      forall x: Assignment { ValueStable(gates, gates + [Gate(Not, root, NO_NODE)], x, root); }
    }
  }

  lemma OutputComputes(gates: seq<Gate>, top: u32)
    requires Topological(gates) && top < |gates|
    ensures var all := gates + [Gate(Output, top, NO_NODE)];
            Topological(all) && forall x :: Value(all, x, |gates|) == Value(gates, x, top)
  {
    TopologicalAppend(gates, Gate(Output, top, NO_NODE));
    forall x: Assignment
      ensures Value(gates + [Gate(Output, top, NO_NODE)], x, |gates|) == Value(gates, x, top)
    {
      ValueStable(gates, gates + [Gate(Output, top, NO_NODE)], x, top);
    }
  }

  /**
   * `truth_table_seed`, given the randomly selected rows. It panics exactly when there is none, and fails
   * exactly when the uncompacted graph exceeds the capacity; otherwise the compacted graph computes the table.
   */
  method TruthTableSeed(arity: u16, capacity: u16, selected: seq<nat>, exceptionsAreTrue: bool)
    returns (r: Result<GraphBody, SeedFailure>)
    requires 0 < arity <= 16 && |selected| <= 0xFFFF
    ensures r == Err(Panicked) <==> selected == []
    ensures r.Ok? <==> selected != [] && SeedSize(arity, selected, exceptionsAreTrue) <= capacity
    ensures r.Err? ==> r.error == Panicked || r.error == Refused(SeedGraphExceedsCapacity)
    ensures r.Ok? ==> WellFormed(r.value) && Acyclic(r.value) && Compact(r.value) == Ok(r.value)
    ensures r.Ok? ==> r.value.arity == arity && r.value.capacity == capacity
    ensures r.Ok? ==> forall x :: Evaluate(r.value, x) == Table(x, selected, arity, exceptionsAreTrue)
  {
    var gates, dnf := AddTable(arity, selected);
    if dnf.None? {
      return Err(Panicked);
    }
    var root := dnf.value;
    FinishedSeed(arity, capacity, selected, exceptionsAreTrue, gates, root);
    if !exceptionsAreTrue {
      gates, root := gates + [Gate(Not, root, NO_NODE)], |gates|;
    }
    OutputComputes(gates, root);
    var output := |gates|;
    gates := gates + [Gate(Output, root, NO_NODE)];
    if |gates| > capacity {
      return Err(Refused(SeedGraphExceedsCapacity));
    }
    var body := GraphOf(arity, capacity, output, gates);
    assert Validate(body).None?;
    GraphOfEvaluates(arity, capacity, output, gates);
    CompactPreservesFunction(body);
    CompactWellFormed(body);
    CompactIdempotent(body);
    var compacted := CompactionLoop.CompactGraph(body);
    r := Ok(compacted.value);
  }
}

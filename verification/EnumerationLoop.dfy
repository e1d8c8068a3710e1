/** The enumerator as the source runs it: tables, a candidate builder and two passes over the nodes. */
module EnumerationLoop {
  import opened Basics
  import opened Graphs
  import opened Rules
  import opened Attempts
  import opened Enumeration

  /** `candidate_key`: the record flattened into eleven words. */
  function CandidateKey(c: RawCandidate): seq<u32>
  {
    [c.ruleId, c.root, c.matchLen] + c.matched
  }

  lemma CandidateKeyInjective(c: RawCandidate, d: RawCandidate)
    requires CandidateKey(c) == CandidateKey(d)
    ensures c == d
  {
    assert CandidateKey(c)[0] == c.ruleId && CandidateKey(d)[0] == d.ruleId;
    assert CandidateKey(c)[1] == c.root && CandidateKey(d)[1] == d.root;
    assert CandidateKey(c)[2] == c.matchLen && CandidateKey(d)[2] == d.matchLen;
    assert c.matched == CandidateKey(c)[3..] && d.matched == CandidateKey(d)[3..];
  }

  /** The candidate list under construction. */
  class Builder {
    const cfg: Config
    var items: seq<RawCandidate>
    var seen: set<seq<u32>>
    ghost var tried: seq<Attempt>

    ghost predicate Valid()
      reads this
    {
      && AllShort(tried)
      && items == Collect(cfg, tried)
      && seen == set c | c in items :: CandidateKey(c)
    }

    constructor (g: GraphBody, includeReverse: bool, limit: Option<nat>)
      ensures Valid() && cfg == ConfigFor(g, includeReverse, limit) && tried == [] && items == []
    {
      cfg := Config(includeReverse, g.capacity - |g.op|, limit);
      items, seen, tried := [], {}, [];
    }

    predicate IsFull()
      reads this
    {
      cfg.Full(|items|)
    }

    /** `Builder::add`: skip when full, switched off or too large; refuse overlong matches; drop duplicates. */
    method Add(rule: RuleId, root: u32, rest: seq<u32>) returns (r: Result<(), RuleError>)
      requires Valid()
      modifies this
      ensures Valid()
      ensures |rest| < MAX_MATCHED ==>
                && r == Ok(())
                && tried == old(tried) + [Attempt(rule, root, rest)]
                && items == Offer(cfg, old(items), Attempt(rule, root, rest))
      ensures |rest| >= MAX_MATCHED ==>
                && items == old(items) && tried == old(tried)
                && r == if old(IsFull()) || !cfg.Admits(rule) then Ok(()) else Err(BadMatchLength)
    {
      ghost var a := Attempt(rule, root, rest);
      if |rest| < MAX_MATCHED {
        CollectSnoc(cfg, tried, a);
        tried := tried + [a];
      }
      if IsFull() {
        return Ok(());
      }
      if !cfg.includeReverse && rule.ReverseConstantFolding() {
        return Ok(());
      }
      if rule.ExtraNodes() > cfg.remaining {
        return Ok(());
      }
      if |rest| + 1 > MAX_MATCHED {
        return Err(BadMatchLength);
      }
      var candidate := Candidate(rule, root, rest);
      var key := CandidateKey(candidate);
      if key !in seen {
        seen := seen + {key};
        items := items + [candidate];
      } else {
        var c :| c in items && CandidateKey(c) == key;
        CandidateKeyInjective(c, candidate);
      }
      r := Ok(());
    }

    /** A full list ignores further attempts, so they may be skipped: up to any list `target` that extends `tried`. */
    ghost method SkipTo(target: seq<Attempt>)
      requires Valid() && AllShort(target) && tried <= target
      requires tried == target || IsFull()
      modifies this`tried
      ensures Valid() && tried == target
    {
      var more := target[|tried|..];
      assert tried + more == target;
      if tried != target {
        CollectFull(cfg, tried, more);
      }
      tried := target;
    }

    /** Offer a whole list of attempts in order. */
    method AddAll(attempts: seq<Attempt>)
      requires Valid() && AllShort(attempts)
      modifies this
      ensures Valid() && tried == old(tried) + attempts
    {
      for k := 0 to |attempts|
        invariant Valid() && tried == old(tried) + attempts[..k]
      {
        assert attempts[..k + 1] == attempts[..k] + [attempts[k]];
        var added := Add(attempts[k].rule, attempts[k].root, attempts[k].rest);
        assert added.Ok?;
      }
    }
  }

  /** The four node columns, right below `node` and still empty from there on. */
  ghost predicate TabledBelow(g: GraphBody, t: Tables, node: nat)
    requires g.Shaped() && node <= g.Size()
  {
    && |t.consts| == |t.nots| == |t.ands| == |t.ors| == g.Size()
    && (forall i: nat :: i < node ==> TableRow(g, t, i))
    && (forall i: nat :: node <= i < g.Size() ==> EmptyRow(t, i))
    && t.falseConst == LowestBelow(g, false, node)
    && t.trueConst == LowestBelow(g, true, node)
  }

  ghost predicate EmptyRow(t: Tables, i: nat)
    requires i < |t.consts| == |t.nots| == |t.ands| == |t.ors|
  {
    t.consts[i] == -1 && t.nots[i] == -1 && t.ands[i] == Pair(0, 0, false) && t.ors[i] == Pair(0, 0, false)
  }

  /** The values the four columns hold at one node. */
  datatype Row = Row(constant: int, inner: int, andPair: Pair, orPair: Pair)

  /** One round of the tabulation loop: the row of `node`. */
  method RowAt(g: GraphBody, signal: seq<bool>, node: nat) returns (row: Row)
    requires g.Shaped() && node < g.Size() && |signal| == g.Size()
    requires forall i :: 0 <= i < g.Size() ==> signal[i] == (g.op[i] != Output)
    ensures row == Row(ConstSignal(g, node), NotSignal(g, node), PairSignal(g, And, node), PairSignal(g, Or, node))
  {
    var n, left, right := |g.op|, g.arg0[node], g.arg1[node];
    row := Row(-1, -1, Pair(0, 0, false), Pair(0, 0, false));
    match g.op[node] {
      case Const =>
        row := row.(constant := if left != 0 then 1 else 0);
      case Not =>
        if left < n && signal[left] { row := row.(inner := left); }
      case And =>
        if left < n && right < n && signal[left] && signal[right] { row := row.(andPair := Pair(left, right, true)); }
      case Or =>
        if left < n && right < n && signal[left] && signal[right] { row := row.(orPair := Pair(left, right, true)); }
      case Input =>
      case Output =>
    }
  }

  /** Write a row into the tables, remembering the first constant of each value. */
  method WriteRow(g: GraphBody, t: Tables, node: nat, row: Row) returns (u: Tables)
    requires g.Shaped() && node < g.Size() && TabledBelow(g, t, node)
    requires row == Row(ConstSignal(g, node), NotSignal(g, node), PairSignal(g, And, node), PairSignal(g, Or, node))
    ensures TabledBelow(g, u, node + 1)
  {
    u := Tables(t.consts[node := row.constant], t.nots[node := row.inner],
                t.ands[node := row.andPair], t.ors[node := row.orPair], t.falseConst, t.trueConst);
    if row.constant == 0 && u.falseConst < 0 { u := u.(falseConst := node); }
    if row.constant == 1 && u.trueConst < 0 { u := u.(trueConst := node); }
    forall i: nat | i < node + 1 ensures TableRow(g, u, i) { assert i < node ==> TableRow(g, t, i); }
    forall i: nat | node < i < g.Size() ensures EmptyRow(u, i) { assert EmptyRow(t, i); }
  }

  /** The tabulation loop. */
  method BuildTables(g: GraphBody) returns (t: Tables)
    requires g.Shaped()
    ensures t == TablesOf(g)
  {
    var n := |g.op|;
    var signal := seq(n, i requires 0 <= i < n => g.op[i] != Output);
    var empty := Pair(0, 0, false);
    t := Tables(seq(n, _ => -1), seq(n, _ => -1), seq(n, _ => empty), seq(n, _ => empty), -1, -1);
    for node := 0 to n
      invariant TabledBelow(g, t, node)
    {
      var row := RowAt(g, signal, node);
      t := WriteRow(g, t, node, row);
    }
    TablesUnique(g, t);
  }

  /** The complement-inverse loop at a constant, which stops early when the list is full. */
  method AddWitnesses(out: Builder, t: Tables, n: nat, root: u32, value: bool)
    requires out.Valid() && TablesClosed(t, n) && AllShort(WitnessAttempts(t, n, root, value, n))
    modifies out
    ensures out.Valid() && out.tried == old(out.tried) + WitnessAttempts(t, n, root, value, n)
  {
    hide Collect, Offer;
    ghost var before := out.tried;
    var node := 0;
    while node < n && !out.IsFull()
      invariant node <= n && out.Valid() && out.tried == before + WitnessAttempts(t, n, root, value, node)
    {
      var inner := t.nots[node];
      if inner >= 0 {
        var added := out.Add(if value then OrComplementInverse else AndComplementInverse, root, [inner, node]);
        assert added.Ok?;
      }
      node := node + 1;
    }
    WitnessesGrow(t, n, root, value, node, n);
    out.SkipTo(before + WitnessAttempts(t, n, root, value, n));
  }

  lemma PartsShort(parts: seq<Attempt>, whole: seq<Attempt>)
    requires AllShort(whole) && forall a :: a in parts ==> a in whole
    ensures AllShort(parts)
  {
    forall k | 0 <= k < |parts| ensures |parts[k].rest| < MAX_MATCHED { assert parts[k] in whole; }
  }

  /** The second pass at one root. */
  method AddSecondPass(out: Builder, g: GraphBody, t: Tables, root: u32)
    requires g.Shaped() && TablesClosed(t, g.Size()) && root < g.Size()
    requires out.Valid() && AllShort(SecondPass(g, t, root))
    modifies out
    ensures out.Valid() && out.tried == old(out.tried) + SecondPass(g, t, root)
  {
    hide Collect, Offer, GrowAttempts, UnfoldAttempts, WitnessAttempts;
    var value := g.arg0[root] != 0;
    PartsShort(SecondPassHead(g, t, root), SecondPass(g, t, root));
    out.AddAll(SecondPassHead(g, t, root));
    if g.op[root] == Const {
      PartsShort(WitnessAttempts(t, g.Size(), root, value, g.Size()), SecondPass(g, t, root));
      AddWitnesses(out, t, |g.op|, root, value);
    }
  }

  /** The first loop over roots; it stops early when the list is full. */
  method AddFirstPasses(out: Builder, g: GraphBody, t: Tables)
    requires g.Shaped() && TablesFor(g, t) && TablesClosed(t, g.Size())
    requires out.Valid() && out.tried == [] && AllShort(FirstUpTo(g, t, g.Size()))
    modifies out
    ensures out.Valid() && out.tried == FirstUpTo(g, t, g.Size())
  {
    hide Collect, Offer, FirstPass, SecondPass;
    var n, root := |g.op|, 0;
    while root < n && !out.IsFull()
      invariant 0 <= root <= n && out.Valid() && out.tried == FirstUpTo(g, t, root)
    {
      PassesShort(g, t, root);
      out.AddAll(FirstPass(g, t, root));
      root := root + 1;
    }
    PassesGrow(g, t, root, n);
    out.SkipTo(FirstUpTo(g, t, n));
  }

  /** The second loop over roots. */
  method AddSecondPasses(out: Builder, g: GraphBody, t: Tables)
    requires g.Shaped() && TablesFor(g, t) && TablesClosed(t, g.Size())
    requires out.Valid() && out.tried == FirstUpTo(g, t, g.Size()) && AllShort(AllAttempts(g, t))
    modifies out
    ensures out.Valid() && out.tried == AllAttempts(g, t)
  {
    hide Collect, Offer, FirstPass, SecondPass;
    var n, root := |g.op|, 0;
    while root < n && !out.IsFull()
      invariant 0 <= root <= n && out.Valid() && out.tried == FirstUpTo(g, t, n) + SecondUpTo(g, t, root)
    {
      PassesShort(g, t, root);
      AddSecondPass(out, g, t, root);
      root := root + 1;
    }
    PassesGrow(g, t, root, n);
    out.SkipTo(AllAttempts(g, t));
  }

  /** `enumerate_graph_limited`. It never reports an error: no pattern binds more than eight nodes. */
  method EnumerateGraphLimited(g: GraphBody, includeReverse: bool, limit: Option<nat>)
    returns (r: Result<seq<RawCandidate>, RuleError>)
    requires g.Shaped()
    ensures r == Ok(Enumerated(g, includeReverse, limit))
  {
    hide Collect, Offer, FirstUpTo, SecondUpTo, TablesOf;
    var out := new Builder(g, includeReverse, limit);
    var t := BuildTables(g);
    TablesForAreClosed(g, t);
    AttemptsShort(g, t);
    PartsShort(FirstUpTo(g, t, g.Size()), AllAttempts(g, t));
    AddFirstPasses(out, g, t);
    AddSecondPasses(out, g, t);
    r := Ok(out.items);
  }
}

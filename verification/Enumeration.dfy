/** Collecting candidates: filters, duplicates and the caller's limit. */
module Enumeration {
  import opened Basics
  import opened Graphs
  import opened Rules
  import opened Attempts
  import opened AttemptsExact

  /** The settings of one enumeration. */
  datatype Config = Config(includeReverse: bool, remaining: int, limit: Option<nat>)
  {
    predicate Full(count: nat) { limit.Some? && count >= limit.value }

    /** The rule is switched on and its replacement fits the capacity. */
    predicate Admits(rule: RuleId) {
      (includeReverse || !rule.ReverseConstantFolding()) && rule.ExtraNodes() <= remaining
    }
  }

  function CandidateOf(a: Attempt): RawCandidate
    requires |a.rest| < MAX_MATCHED
  {
    Candidate(a.rule, a.root, a.rest)
  }

  predicate AllShort(attempts: seq<Attempt>)
  {
    forall k :: 0 <= k < |attempts| ==> |attempts[k].rest| < MAX_MATCHED
  }

  /** One `Builder::add`. */
  function Offer(cfg: Config, items: seq<RawCandidate>, a: Attempt): seq<RawCandidate>
    requires |a.rest| < MAX_MATCHED
  {
    if cfg.Full(|items|) || !cfg.Admits(a.rule) || CandidateOf(a) in items then items
    else items + [CandidateOf(a)]
  }

  /** The candidates after offering `attempts` in order. */
  function Collect(cfg: Config, attempts: seq<Attempt>): seq<RawCandidate>
    requires AllShort(attempts)
  {
    if attempts == [] then []
    else Offer(cfg, Collect(cfg, attempts[..|attempts| - 1]), attempts[|attempts| - 1])
  }

  // ---- facts about collecting --------------------------------------------------------------

  lemma CollectSnoc(cfg: Config, attempts: seq<Attempt>, a: Attempt)
    requires AllShort(attempts) && |a.rest| < MAX_MATCHED
    ensures AllShort(attempts + [a])
    ensures Collect(cfg, attempts + [a]) == Offer(cfg, Collect(cfg, attempts), a)
  {
    assert (attempts + [a])[..|attempts|] == attempts;
  }

  /** Once the limit is met nothing more is taken. */
  lemma {:induction false} CollectFull(cfg: Config, attempts: seq<Attempt>, more: seq<Attempt>)
    requires AllShort(attempts) && AllShort(more) && cfg.Full(|Collect(cfg, attempts)|)
    ensures Collect(cfg, attempts + more) == Collect(cfg, attempts)
  {
    if more == [] {
      assert attempts + more == attempts;
    } else {
      var init := more[..|more| - 1];
      CollectFull(cfg, attempts, init);
      assert attempts + more == (attempts + init) + [more[|more| - 1]];
      CollectSnoc(cfg, attempts + init, more[|more| - 1]);
    }
  }

  function Take<T>(s: seq<T>, limit: Option<nat>): seq<T>
  {
    if limit.Some? && limit.value < |s| then s[..limit.value] else s
  }

  /** A limited enumeration is exactly the duplicate-free prefix of the full one. */
  lemma {:induction false} CollectIsPrefix(cfg: Config, attempts: seq<Attempt>)
    requires AllShort(attempts)
    ensures Collect(cfg, attempts) == Take(Collect(cfg.(limit := None), attempts), cfg.limit)
    ensures NoRepeats(Collect(cfg, attempts))
    decreases |attempts|
  {
    hide CandidateOf;
    if attempts != [] {
      var init := attempts[..|attempts| - 1];
      CollectIsPrefix(cfg, init);
      CollectIsPrefix(cfg.(limit := None), init);
      var all := Collect(cfg.(limit := None), init);
      var c := CandidateOf(attempts[|attempts| - 1]);
      if cfg.limit.Some? && cfg.limit.value <= |all| {
        assert (all + [c])[..cfg.limit.value] == all[..cfg.limit.value];
      }
    }
  }

  /** Without a limit, a candidate is collected if and only if some admitted attempt produced it. */
  lemma {:induction false} CollectMembers(cfg: Config, attempts: seq<Attempt>, c: RawCandidate)
    requires AllShort(attempts) && cfg.limit.None?
    ensures c in Collect(cfg, attempts) <==>
            exists k :: 0 <= k < |attempts| && cfg.Admits(attempts[k].rule) && CandidateOf(attempts[k]) == c
  {
    hide CandidateOf;
    if attempts != [] {
      var last := |attempts| - 1;
      CollectMembers(cfg, attempts[..last], c);
      if exists k :: 0 <= k < last && cfg.Admits(attempts[k].rule) && CandidateOf(attempts[k]) == c {
        var k :| 0 <= k < last && cfg.Admits(attempts[k].rule) && CandidateOf(attempts[k]) == c;
        assert attempts[..last][k] == attempts[k];
      }
    }
  }

  lemma CandidateInjective(a: Attempt, b: Attempt)
    requires |a.rest| < MAX_MATCHED && |b.rest| < MAX_MATCHED && CandidateOf(a) == CandidateOf(b)
    ensures a == b
  {
    var c, d := CandidateOf(a), CandidateOf(b);
    assert a.rest == c.matched[..c.matchLen][1..];
    assert b.rest == d.matched[..d.matchLen][1..];
  }

  // ---- the whole graph ---------------------------------------------------------------------

  /** The first pass over nodes below `k`. */
  ghost function FirstUpTo(g: GraphBody, t: Tables, k: nat): seq<Attempt>
    requires g.Shaped() && TablesFor(g, t) && TablesClosed(t, g.Size()) && k <= g.Size()
  {
    if k == 0 then [] else
      assert TableRow(g, t, k - 1);
      FirstUpTo(g, t, k - 1) + FirstPass(g, t, k - 1)
  }

  /** The second pass over nodes below `k`. */
  ghost function SecondUpTo(g: GraphBody, t: Tables, k: nat): seq<Attempt>
    requires g.Shaped() && TablesFor(g, t) && TablesClosed(t, g.Size()) && k <= g.Size()
  {
    if k == 0 then [] else SecondUpTo(g, t, k - 1) + SecondPass(g, t, k - 1)
  }

  /** Everything the enumerator tries, in order. */
  ghost function AllAttempts(g: GraphBody, t: Tables): seq<Attempt>
    requires g.Shaped() && TablesFor(g, t) && TablesClosed(t, g.Size())
  {
    FirstUpTo(g, t, g.Size()) + SecondUpTo(g, t, g.Size())
  }

  lemma {:induction false} FirstUpToExact(g: GraphBody, t: Tables, k: nat, a: Attempt)
    requires g.Shaped() && TablesFor(g, t) && TablesClosed(t, g.Size()) && k <= g.Size()
    ensures a in FirstUpTo(g, t, k) <==> a.root < k && !a.rule.Expanding() && Matches(g, a)
  {
    hide FirstPass, Instance;
    if k > 0 {
      FirstUpToExact(g, t, k - 1, a);
      FirstPassExact(g, t, k - 1, a);
    }
  }

  lemma {:induction false} SecondUpToExact(g: GraphBody, t: Tables, k: nat, a: Attempt)
    requires g.Shaped() && TablesFor(g, t) && TablesClosed(t, g.Size()) && k <= g.Size()
    ensures a in SecondUpTo(g, t, k) <==> a.root < k && a.rule.Expanding() && Matches(g, a)
  {
    hide SecondPass, Instance;
    if k > 0 {
      SecondUpToExact(g, t, k - 1, a);
      SecondPassExact(g, t, k - 1, a);
    }
  }

  lemma MatchesInGraph(g: GraphBody, a: Attempt)
    requires g.Shaped() && Matches(g, a)
    ensures a.root < g.Size() && |a.rest| < MAX_MATCHED
  {
  }

  /** The enumerator tries every match of every rule, and nothing else. */
  lemma AllAttemptsExact(g: GraphBody, t: Tables, a: Attempt)
    requires g.Shaped() && TablesFor(g, t) && TablesClosed(t, g.Size())
    ensures a in AllAttempts(g, t) <==> Matches(g, a)
  {
    hide Instance, FirstUpTo, SecondUpTo;
    FirstUpToExact(g, t, g.Size(), a);
    SecondUpToExact(g, t, g.Size(), a);
    if Matches(g, a) { MatchesInGraph(g, a); }
  }

  lemma AttemptsShort(g: GraphBody, t: Tables)
    requires g.Shaped() && TablesFor(g, t) && TablesClosed(t, g.Size())
    ensures AllShort(AllAttempts(g, t))
  {
    hide Instance, AllAttempts;
    var tries := AllAttempts(g, t);
    forall k | 0 <= k < |tries|
      ensures |tries[k].rest| < MAX_MATCHED
    {
      AllAttemptsExact(g, t, tries[k]);
      MatchesInGraph(g, tries[k]);
    }
  }

  lemma PassesShort(g: GraphBody, t: Tables, root: nat)
    requires g.Shaped() && TablesFor(g, t) && TablesClosed(t, g.Size()) && root < g.Size()
    ensures TableRow(g, t, root) && AllShort(FirstPass(g, t, root)) && AllShort(SecondPass(g, t, root))
  {
    hide Instance, FirstPass, SecondPass;
    assert TableRow(g, t, root);
    forall k | 0 <= k < |FirstPass(g, t, root)|
      ensures |FirstPass(g, t, root)[k].rest| < MAX_MATCHED
    {
      FirstPassExact(g, t, root, FirstPass(g, t, root)[k]);
      MatchesInGraph(g, FirstPass(g, t, root)[k]);
    }
    forall k | 0 <= k < |SecondPass(g, t, root)|
      ensures |SecondPass(g, t, root)[k].rest| < MAX_MATCHED
    {
      SecondPassExact(g, t, root, SecondPass(g, t, root)[k]);
      MatchesInGraph(g, SecondPass(g, t, root)[k]);
    }
  }

  lemma {:induction false} PassesGrow(g: GraphBody, t: Tables, j: nat, k: nat)
    requires g.Shaped() && TablesFor(g, t) && TablesClosed(t, g.Size()) && j <= k <= g.Size()
    ensures FirstUpTo(g, t, j) <= FirstUpTo(g, t, k) && SecondUpTo(g, t, j) <= SecondUpTo(g, t, k)
    decreases k
  {
    hide FirstPass, SecondPass;
    if j < k { PassesGrow(g, t, j, k - 1); }
  }

  lemma {:induction false} WitnessesGrow(t: Tables, n: nat, root: u32, value: bool, j: nat, k: nat)
    requires TablesClosed(t, n) && j <= k <= n
    ensures WitnessAttempts(t, n, root, value, j) <= WitnessAttempts(t, n, root, value, k)
    decreases k
  {
    if j < k { WitnessesGrow(t, n, root, value, j, k - 1); }
  }

  /** The settings `Builder::new` derives from a graph. */
  function ConfigFor(g: GraphBody, includeReverse: bool, limit: Option<nat>): Config
  {
    Config(includeReverse, g.capacity - g.Size(), limit)
  }

  /** The result of `enumerate_graph_limited`. */
  ghost function Enumerated(g: GraphBody, includeReverse: bool, limit: Option<nat>): seq<RawCandidate>
    requires g.Shaped()
  {
    var t := TablesOf(g);
    TablesForAreClosed(g, t);
    AttemptsShort(g, t);
    Collect(ConfigFor(g, includeReverse, limit), AllAttempts(g, t))
  }

  /** A limited enumeration is exactly a duplicate-free prefix of the full one. */
  lemma LimitedEnumerationIsPrefix(g: GraphBody, includeReverse: bool, limit: Option<nat>)
    requires g.Shaped()
    ensures Enumerated(g, includeReverse, limit) == Take(Enumerated(g, includeReverse, None), limit)
    ensures NoRepeats(Enumerated(g, includeReverse, limit))
  {
    hide AllAttempts, TablesOf;
    var t := TablesOf(g);
    TablesForAreClosed(g, t);
    AttemptsShort(g, t);
    CollectIsPrefix(ConfigFor(g, includeReverse, limit), AllAttempts(g, t));
  }

  /** Every enumerated candidate comes from a match that the settings admit. */
  lemma EnumeratedIsMatch(g: GraphBody, includeReverse: bool, limit: Option<nat>, c: RawCandidate) returns (a: Attempt)
    requires g.Shaped() && c in Enumerated(g, includeReverse, limit)
    ensures |a.rest| < MAX_MATCHED && c == CandidateOf(a) && Matches(g, a)
    ensures ConfigFor(g, includeReverse, None).Admits(a.rule)
  {
    hide AllAttempts, TablesOf, Instance;
    LimitedEnumerationIsPrefix(g, includeReverse, limit);
    var t := TablesOf(g);
    TablesForAreClosed(g, t);
    AttemptsShort(g, t);
    var tries := AllAttempts(g, t);
    var cfg := ConfigFor(g, includeReverse, None);
    CollectMembers(cfg, tries, c);
    var k :| 0 <= k < |tries| && cfg.Admits(tries[k].rule) && CandidateOf(tries[k]) == c;
    a := tries[k];
    AllAttemptsExact(g, t, a);
  }

  /**
   * Full enumeration is sound and complete: a match is listed if and only if it is an instance of its rule,
   * the rule is switched on, and the replacement fits the capacity. The switch covers rules 31 to 36.
   */
  lemma EnumerationExact(g: GraphBody, includeReverse: bool, a: Attempt)
    requires g.Shaped() && |a.rest| < MAX_MATCHED
    ensures CandidateOf(a) in Enumerated(g, includeReverse, None) <==>
            && Instance(g, a.rule, a.root, a.rest)
            && (includeReverse || !(31 <= AsU16(a.rule) <= 36))
            && g.Size() + a.rule.ExtraNodes() <= g.capacity
  {
    hide AllAttempts, TablesOf, Instance, Enumerated;
    var c := CandidateOf(a);
    var cfg := ConfigFor(g, includeReverse, None);
    if c in Enumerated(g, includeReverse, None) {
      var b := EnumeratedIsMatch(g, includeReverse, None, c);
      CandidateInjective(a, b);
    }
    if Matches(g, a) && cfg.Admits(a.rule) {
      MatchIsEnumerated(g, includeReverse, a);
    }
  }

  lemma MatchIsEnumerated(g: GraphBody, includeReverse: bool, a: Attempt)
    requires g.Shaped() && |a.rest| < MAX_MATCHED && Matches(g, a)
    requires ConfigFor(g, includeReverse, None).Admits(a.rule)
    ensures CandidateOf(a) in Enumerated(g, includeReverse, None)
  {
    hide AllAttempts, TablesOf, Instance;
    var t := TablesOf(g);
    TablesForAreClosed(g, t);
    AttemptsShort(g, t);
    var tries := AllAttempts(g, t);
    AllAttemptsExact(g, t, a);
    var k :| 0 <= k < |tries| && tries[k] == a;
    CollectMembers(ConfigFor(g, includeReverse, None), tries, CandidateOf(a));
  }

  /**
   * What the switch hides: with it off, a match that fits is missing if and only if its rule undoes the folding of a
   * constant; with it on, nothing that fits is missing.
   */
  lemma SwitchHidesUnfolding(g: GraphBody, a: Attempt)
    requires g.Shaped() && |a.rest| < MAX_MATCHED && Instance(g, a.rule, a.root, a.rest)
    requires g.Size() + a.rule.ExtraNodes() <= g.capacity
    ensures CandidateOf(a) in Enumerated(g, true, None)
    ensures CandidateOf(a) !in Enumerated(g, false, None) <==>
            InverseRule(a.rule) in {AndFalse, AndTrue, OrFalse, OrTrue, NotFalse, NotTrue}
  {
    hide Instance, Enumerated;
    EnumerationExact(g, true, a);
    EnumerationExact(g, false, a);
  }
}

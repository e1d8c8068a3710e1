/** What the engine's caches must agree with: the pure functions they speed up. */
module EngineState {
  import opened Basics
  import opened Graphs
  import opened Compaction
  import opened Rules
  import opened Attempts
  import opened Enumeration
  import opened EnumeratedRewrites
  import opened GraphArenas
  import opened CandidateArenas

  /** The candidate hash is taken to be injective in what it covers: the graph, the action set and the match. */
  datatype CandidateHash = CandidateHash(graph: GraphHash, includeReverse: bool, ruleId: u16, root: u32,
                                         matched: seq<u32>)

  function HashCandidate(graph: GraphHash, includeReverse: bool, raw: RawCandidate): CandidateHash
  {
    CandidateHash(graph, includeReverse, raw.ruleId, raw.root, raw.matched[..raw.matchLen])
  }

  /** Among candidates the enumerator produced, the hashed part determines the whole record. */
  lemma EnumeratedHashInjective(g: GraphBody, includeReverse: bool, h: GraphHash, c: RawCandidate, d: RawCandidate)
    requires g.Shaped()
    requires c in Enumerated(g, includeReverse, None) && d in Enumerated(g, includeReverse, None)
    requires HashCandidate(h, includeReverse, c) == HashCandidate(h, includeReverse, d)
    ensures c == d
  {
    hide Enumerated, Instance;
    var a := EnumeratedIsMatch(g, includeReverse, None, c);
    var b := EnumeratedIsMatch(g, includeReverse, None, d);
    assert a.rest == c.matched[..c.matchLen][1..] && b.rest == d.matched[..d.matchLen][1..];
  }

  /** The full candidate list of the graph a hash stands for. */
  ghost function CandidatesOf(h: GraphHash, includeReverse: bool): seq<RawCandidate>
  {
    if BodyOf(h).Some? && WellFormed(BodyOf(h).value) then Enumerated(BodyOf(h).value, includeReverse, None) else []
  }

  /** Every live handle denotes an enumerated candidate of its graph. */
  ghost predicate EntriesGenuine(handles: Handles, batches: Batches, includeReverse: bool)
    requires Located(handles, batches)
  {
    forall i: nat :: EntryOf(handles, batches, i).Some? ==>
      var e := EntryOf(handles, batches, i).value;
      e.raw in CandidatesOf(e.graphHash, includeReverse)
  }

  datatype CachedIds = CachedIds(ids: seq<u32>, truncated: bool)

  type CandidateCache = map<GraphHash, CachedIds>

  /** `ids` are distinct live handles denoting the first candidates of the graph, in order. */
  ghost predicate DenotesPrefix(handles: Handles, batches: Batches, includeReverse: bool, h: GraphHash, ids: seq<u32>)
    requires Located(handles, batches)
  {
    && NoRepeats(ids)
    && |ids| <= |CandidatesOf(h, includeReverse)|
    && forall k :: 0 <= k < |ids| ==>
         EntryOf(handles, batches, ids[k]) == Some(Entry(h, CandidatesOf(h, includeReverse)[k]))
  }

  /** A cached list is a live prefix, and the whole list unless it is marked truncated. */
  ghost predicate CachedOk(handles: Handles, batches: Batches, includeReverse: bool, h: GraphHash, cached: CachedIds)
    requires Located(handles, batches)
  {
    && DenotesPrefix(handles, batches, includeReverse, h, cached.ids)
    && (!cached.truncated ==> |cached.ids| == |CandidatesOf(h, includeReverse)|)
  }

  ghost predicate CacheOk(handles: Handles, batches: Batches, includeReverse: bool, cache: CandidateCache)
    requires Located(handles, batches)
  {
    forall h :: h in cache ==> CachedOk(handles, batches, includeReverse, h, cache[h])
  }

  type TransitionCache = map<GraphHash, map<CandidateHash, GraphHash>>

  /** A remembered transition is the hash of what the pure rewrite produces. */
  ghost predicate TransitionOk(includeReverse: bool, h: GraphHash, c: CandidateHash, after: GraphHash)
  {
    forall raw :: raw in CandidatesOf(h, includeReverse) && HashCandidate(h, includeReverse, raw) == c ==>
      && BodyOf(h).Some? && WellFormed(BodyOf(h).value)
      && Apply(BodyOf(h).value, raw).Ok? && Apply(BodyOf(h).value, raw).value.Shaped()
      && after == HashOf(Apply(BodyOf(h).value, raw).value)
  }

  ghost predicate TransitionsOk(includeReverse: bool, transitions: TransitionCache)
  {
    forall h, c :: h in transitions && c in transitions[h] ==> TransitionOk(includeReverse, h, c, transitions[h][c])
  }

  // ---- how the caches survive changes ------------------------------------------------------

  /** No live handle changed what it denotes. */
  ghost predicate EntriesKept(handles: Handles, batches: Batches, handles': Handles, batches': Batches)
    requires Located(handles, batches) && Located(handles', batches')
  {
    forall i: nat :: EntryOf(handles, batches, i).Some? ==>
      EntryOf(handles', batches', i) == EntryOf(handles, batches, i)
  }

  lemma CacheKept(
    handles: Handles, batches: Batches, handles': Handles, batches': Batches, includeReverse: bool,
      cache: CandidateCache)
    requires Located(handles, batches) && Located(handles', batches')
    requires EntriesKept(handles, batches, handles', batches') && CacheOk(handles, batches, includeReverse, cache)
    ensures CacheOk(handles', batches', includeReverse, cache)
  {
    hide EntryOf, CandidatesOf;
    forall h | h in cache
      ensures CachedOk(handles', batches', includeReverse, h, cache[h])
    {
      assert CachedOk(handles, batches, includeReverse, h, cache[h]);
    }
  }

  /** Losing one handle is harmless once the list of its graph is forgotten. */
  lemma CacheWithout(
    handles: Handles, batches: Batches, handles': Handles, batches': Batches, includeReverse: bool,
    cache: CandidateCache, id: nat, entry: Entry)
    requires Located(handles, batches) && Located(handles', batches')
    requires EntryOf(handles, batches, id) == Some(entry)
    requires forall i: nat :: i != id ==> EntryOf(handles', batches', i) == EntryOf(handles, batches, i)
    requires CacheOk(handles, batches, includeReverse, cache)
    ensures CacheOk(handles', batches', includeReverse, cache - {entry.graphHash})
  {
    hide EntryOf, CandidatesOf;
    forall h | h in cache - {entry.graphHash}
      ensures CachedOk(handles', batches', includeReverse, h, cache[h])
    {
      assert CachedOk(handles, batches, includeReverse, h, cache[h]);
      forall k | 0 <= k < |cache[h].ids|
        ensures cache[h].ids[k] != id
      {
      }
    }
  }

  /** A fresh batch holding the first candidates of a graph. */
  lemma PrefixOfFresh(
    handles: Handles, batches: Batches, includeReverse: bool, g: GraphBody, limit: Option<nat>, ids: seq<u32>)
    requires Located(handles, batches) && WellFormed(g) && NoRepeats(ids)
    requires var raw := Enumerated(g, includeReverse, limit);
             |ids| == |raw| && forall k :: 0 <= k < |ids| ==>
               EntryOf(handles, batches, ids[k]) == Some(Entry(HashOf(g), raw[k]))
    ensures CandidatesOf(HashOf(g), includeReverse) == Enumerated(g, includeReverse, None)
    ensures |ids| == |Take(CandidatesOf(HashOf(g), includeReverse), limit)|
    ensures DenotesPrefix(handles, batches, includeReverse, HashOf(g), ids)
  {
    hide Enumerated, EntryOf, HashOf;
    BodyOfHash(g);
    LimitedEnumerationIsPrefix(g, includeReverse, limit);
  }

  /** Remembering a live prefix; one that stopped at the limit is marked truncated. */
  lemma CacheExtended(
    handles: Handles, batches: Batches, includeReverse: bool, cache: CandidateCache, h: GraphHash, ids: seq<u32>,
      limit: Option<nat>)
    requires Located(handles, batches) && CacheOk(handles, batches, includeReverse, cache)
    requires DenotesPrefix(handles, batches, includeReverse, h, ids)
    requires |ids| == |Take(CandidatesOf(h, includeReverse), limit)|
    ensures CacheOk(handles, batches, includeReverse, cache[h := CachedIds(ids, limit.Some? && |ids| == limit.value)])
  {
    hide EntryOf, CandidatesOf, DenotesPrefix;
  }

  /** A shorter prefix of a good list is good. */
  lemma PrefixShorter(handles: Handles, batches: Batches, includeReverse: bool, h: GraphHash, ids: seq<u32>, take: nat)
    requires Located(handles, batches) && DenotesPrefix(handles, batches, includeReverse, h, ids) && take <= |ids|
    ensures DenotesPrefix(handles, batches, includeReverse, h, ids[..take])
  {
    hide EntryOf, CandidatesOf;
  }

  /** A list that is long enough is cut to the requested prefix; all its handles are live. */
  lemma CachedServes(
    handles: Handles, batches: Batches, includeReverse: bool, cache: CandidateCache, h: GraphHash, limit: Option<nat>)
    requires Located(handles, batches) && CacheOk(handles, batches, includeReverse, cache) && h in cache
    requires !(cache[h].truncated && (limit.None? || limit.value > |cache[h].ids|))
    ensures var ids := Take(cache[h].ids, limit);
            && NoRepeats(ids) && DenotesPrefix(handles, batches, includeReverse, h, ids)
            && |ids| == |Take(CandidatesOf(h, includeReverse), limit)|
            && forall k :: 0 <= k < |ids| ==> HandleRefs(handles, ids[k]) >= 1
  {
    hide EntryOf, CandidatesOf;
    var ids := Take(cache[h].ids, limit);
    assert CachedOk(handles, batches, includeReverse, h, cache[h]);
    PrefixShorter(handles, batches, includeReverse, h, cache[h].ids, |ids|);
    forall k | 0 <= k < |ids|
      ensures HandleRefs(handles, ids[k]) >= 1
    {
      EntryIffRefs(handles, batches, ids[k]);
    }
  }

  /** A list of live handles keeps its meaning. */
  lemma PrefixKept(
    handles: Handles, batches: Batches, handles': Handles, batches': Batches, includeReverse: bool, h: GraphHash,
      ids: seq<u32>)
    requires Located(handles, batches) && Located(handles', batches')
    requires EntriesKept(handles, batches, handles', batches')
             && DenotesPrefix(handles, batches, includeReverse, h, ids)
    ensures DenotesPrefix(handles', batches', includeReverse, h, ids)
  {
    hide EntryOf, CandidatesOf;
  }

  /** A new transition, computed by the pure rewrite, may be remembered. */
  lemma TransitionLearned(includeReverse: bool, transitions: TransitionCache, g: GraphBody, raw: RawCandidate)
    requires WellFormed(g) && TransitionsOk(includeReverse, transitions)
    requires raw in Enumerated(g, includeReverse, None) && Apply(g, raw).Ok? && Apply(g, raw).value.Shaped()
    ensures var h := HashOf(g);
            var inner := if h in transitions then transitions[h] else map[];
            var c := HashCandidate(h, includeReverse, raw);
            TransitionsOk(includeReverse, transitions[h := inner[c := HashOf(Apply(g, raw).value)]])
  {
    hide Enumerated, Apply, HashOf;
    var h := HashOf(g);
    var c := HashCandidate(h, includeReverse, raw);
    BodyOfHash(g);
    forall other | other in CandidatesOf(h, includeReverse) && HashCandidate(h, includeReverse, other) == c
      ensures other == raw
    {
      EnumeratedHashInjective(g, includeReverse, h, other, raw);
    }
    assert TransitionOk(includeReverse, h, c, HashOf(Apply(g, raw).value));
  }

  /** Handles that were free before and now denote the first candidates of `g` are genuine additions. */
  lemma GenuineWithFresh(
    handles: Handles, batches: Batches, handles': Handles, batches': Batches, includeReverse: bool,
    g: GraphBody, limit: Option<nat>, ids: seq<u32>)
    requires Located(handles, batches) && Located(handles', batches') && WellFormed(g)
    requires EntriesGenuine(handles, batches, includeReverse)
    requires var raw := Enumerated(g, includeReverse, limit);
             |ids| == |raw| && forall k :: 0 <= k < |ids| ==>
               EntryOf(handles', batches', ids[k]) == Some(Entry(HashOf(g), raw[k]))
    requires forall k :: 0 <= k < |ids| ==> HandleRefs(handles, ids[k]) == 0
    requires forall i: nat :: i !in ids ==> EntryOf(handles', batches', i) == EntryOf(handles, batches, i)
    ensures EntriesGenuine(handles', batches', includeReverse)
    ensures EntriesKept(handles, batches, handles', batches')
  {
    hide Enumerated, HashOf, CandidatesOf;
    FreshInFull(g, includeReverse, limit);
    forall i: nat | EntryOf(handles', batches', i).Some?
      ensures var entry := EntryOf(handles', batches', i).value;
              entry.raw in CandidatesOf(entry.graphHash, includeReverse)
    {
      if i in ids {
        var k :| 0 <= k < |ids| && ids[k] == i;
      }
    }
    forall i: nat | EntryOf(handles, batches, i).Some?
      ensures i !in ids
    {
      assert LocatedAt(handles, batches, i);
    }
  }

  /** Enumerating with a limit gives the limited part of the listing of the graph's hash. */
  lemma FreshIsTake(g: GraphBody, includeReverse: bool, limit: Option<nat>)
    requires WellFormed(g)
    ensures Enumerated(g, includeReverse, limit) == Take(CandidatesOf(HashOf(g), includeReverse), limit)
  {
    hide Enumerated, HashOf;
    BodyOfHash(g);
    LimitedEnumerationIsPrefix(g, includeReverse, limit);
  }

  lemma FreshInFull(g: GraphBody, includeReverse: bool, limit: Option<nat>)
    requires WellFormed(g)
    ensures forall c :: c in Enumerated(g, includeReverse, limit) ==> c in CandidatesOf(HashOf(g), includeReverse)
  {
    hide Enumerated, HashOf;
    BodyOfHash(g);
    LimitedEnumerationIsPrefix(g, includeReverse, limit);
  }

  lemma GenuineKept(handles: Handles, batches: Batches, handles': Handles, batches': Batches, includeReverse: bool)
    requires Located(handles, batches) && Located(handles', batches')
    requires EntriesGenuine(handles, batches, includeReverse)
    requires forall i: nat :: EntryOf(handles', batches', i).Some? ==>
               EntryOf(handles', batches', i) == EntryOf(handles, batches, i)
    ensures EntriesGenuine(handles', batches', includeReverse)
  {
    hide CandidatesOf;
  }

  /** Live handles are the ones with references. */
  lemma EntryIffRefs(handles: Handles, batches: Batches, i: nat)
    requires Located(handles, batches)
    ensures EntryOf(handles, batches, i).Some? <==> HandleRefs(handles, i) >= 1
  {
    if i < |handles| && handles[i].Some? { assert LocatedAt(handles, batches, i); }
  }

  /** The result of a rewrite is compacted. */
  lemma ApplyIsCompact(g: GraphBody, c: RawCandidate)
    requires g.Shaped() && Apply(g, c).Ok?
    ensures Compact(Apply(g, c).value) == Ok(Apply(g, c).value)
  {
    hide Compact;
    var plan := ReplacementPlan(FromU16(c.ruleId).value, c.root, c.matched, g.Size());
    CompactIdempotent(Rewritten(g, c.root, plan));
  }

  // ---- releasing a list of graph references ------------------------------------------------

  ghost predicate Occupied(items: seq<Option<Stored>>, id: u32)
  {
    id < |items| && items[id].Some?
  }

  /** How often each hash is named by a list of graph handles. */
  ghost function HashesOf(items: seq<Option<Stored>>, ids: seq<u32>): multiset<GraphHash>
  {
    if ids == [] then multiset{}
    else
      var last := ids[|ids| - 1];
      HashesOf(items, ids[..|ids| - 1]) + if Occupied(items, last) then multiset{items[last].value.hash} else multiset{}
  }

  /** Every listed reference is outstanding, and the root keeps at least one. */
  ghost predicate Covered(items: seq<Option<Stored>>, granted: multiset<GraphHash>, root: u32, ids: seq<u32>)
    requires Occupied(items, root)
  {
    && (forall id :: id in ids ==>
        Occupied(items, id) && HashesOf(items, ids)[items[id].value.hash] <= granted[items[id].value.hash])
    && HashesOf(items, ids)[items[root].value.hash] < granted[items[root].value.hash]
  }

  /** Of the graphs once stored, exactly those with an outstanding reference are stored still. */
  ghost predicate Remaining(before: seq<Option<Stored>>, granted: multiset<GraphHash>, after: seq<Option<Stored>>)
  {
    && |after| == |before|
    && forall i :: 0 <= i < |before| ==>
         after[i] == if before[i].Some? && before[i].value.hash in granted then before[i] else None
  }

  lemma AllRemain(
    items: seq<Option<Stored>>, byHash: map<GraphHash, u32>, hashRefs: map<GraphHash, u32>,
      granted: multiset<GraphHash>)
    requires SlotsIndexed(items, byHash) && RefsExact(byHash, hashRefs, granted)
    ensures Remaining(items, granted, items)
  {
  }

  lemma RemainingAt(before: seq<Option<Stored>>, granted: multiset<GraphHash>, after: seq<Option<Stored>>, id: u32)
    requires Remaining(before, granted, after)
    ensures Occupied(after, id) <==> Occupied(before, id) && before[id].value.hash in granted
    ensures Occupied(after, id) ==> after[id] == before[id]
  {
  }

  /** Giving back one reference; the slot goes with the last. */
  lemma RemainingStep(
    before: seq<Option<Stored>>, byHash: map<GraphHash, u32>, items: seq<Option<Stored>>, granted: multiset<GraphHash>,
      id: u32)
    requires SlotsIndexed(before, byHash) && Remaining(before, granted, items) && Occupied(items, id)
    ensures var h := items[id].value.hash;
            var left := granted - multiset{h};
            Remaining(before, left, if h in left then items else items[id := None])
  {
  }

  lemma HashesNone(items: seq<Option<Stored>>)
    ensures HashesOf(items, []) == multiset{}
  {
  }

  lemma HashesStep(items: seq<Option<Stored>>, ids: seq<u32>, k: nat)
    requires k < |ids| && Occupied(items, ids[k])
    ensures HashesOf(items, ids[..k + 1]) == HashesOf(items, ids[..k]) + multiset{items[ids[k]].value.hash}
  {
    assert ids[..k + 1][..k] == ids[..k];
  }

  lemma {:induction false} HashesMonotone(items: seq<Option<Stored>>, ids: seq<u32>, k: nat)
    requires k <= |ids|
    ensures HashesOf(items, ids[..k]) <= HashesOf(items, ids)
    decreases |ids|
  {
    if k == |ids| {
      assert ids[..k] == ids;
    } else {
      var init := ids[..|ids| - 1];
      HashesMonotone(items, init, k);
      assert init[..k] == ids[..k];
    }
  }

  /** The release of a listed graph fails only if the list asks for more than is outstanding. */
  lemma RefusedNotCovered(
    items0: seq<Option<Stored>>, granted0: multiset<GraphHash>, items: seq<Option<Stored>>,
      granted: multiset<GraphHash>,
    root: u32, ids: seq<u32>, k: nat)
    requires k < |ids| && Occupied(items0, root) && Remaining(items0, granted, items)
    requires granted + HashesOf(items0, ids[..k]) == granted0
    requires !Occupied(items, ids[k]) || (ids[k] == root && granted[items0[root].value.hash] == 1)
    ensures !Covered(items0, granted0, root, ids)
  {
    hide HashesOf;
    var id := ids[k];
    RemainingAt(items0, granted, items, id);
    if Occupied(items0, id) {
      HashesStep(items0, ids, k);
      HashesMonotone(items0, ids, k + 1);
      var h := items0[id].value.hash;
      assert HashesOf(items0, ids)[h] >= HashesOf(items0, ids[..k + 1])[h];
      assert granted0[h] == granted[h] + HashesOf(items0, ids[..k])[h];
    } else {
      assert id in ids;
    }
  }

  lemma AllReleased(
    items0: seq<Option<Stored>>, granted0: multiset<GraphHash>, granted: multiset<GraphHash>, root: u32, ids: seq<u32>)
    requires Occupied(items0, root) && items0[root].value.hash in granted
    requires granted + HashesOf(items0, ids) == granted0
    requires forall j :: 0 <= j < |ids| ==> Occupied(items0, ids[j])
    ensures Covered(items0, granted0, root, ids)
  {
    hide HashesOf;
    forall h: GraphHash
      ensures granted0[h] == granted[h] + HashesOf(items0, ids)[h]
    {
    }
  }
}

/** The engine: graphs, candidates and the two caches, behind `candidates`, `apply` and `release`. */
module Engines {
  import opened Basics
  import opened Graphs
  import opened Compaction
  import opened Rules
  import RewriteLoop
  import opened Enumeration
  import EnumerationLoop
  import opened EnumeratedRewrites
  import opened GraphArenas
  import opened CandidateArenas
  import opened EngineState

  datatype ApplyResult = ApplyResult(after: u32, beforeHash: GraphHash, afterHash: GraphHash, changed: bool)

  class WhittleEngine {
    const includeReverse: bool
    const cacheCandidates: bool
    const cacheTransitions: bool
    const graphs: GraphArena
    const candidates: CandidateArena
    var root: u32
    var candidateCache: CandidateCache
    var transitions: TransitionCache

    ghost predicate Valid()
      reads this, graphs, candidates
    {
      && graphs.Valid() && candidates.Valid()
      && Live(root)
      && EntriesGenuine(candidates.handles, candidates.batches, includeReverse)
      && CacheOk(candidates.handles, candidates.batches, includeReverse, candidateCache)
      && TransitionsOk(includeReverse, transitions)
    }

    /** A graph handle that refers to a stored graph. */
    predicate Live(graph: u32)
      reads this, graphs
    {
      graph < |graphs.items| && graphs.items[graph].Some?
    }

    ghost function Body(graph: u32): GraphBody
      requires Live(graph)
      reads this, graphs
    {
      graphs.items[graph].value.body
    }

    function Hash(graph: u32): GraphHash
      requires Live(graph)
      reads this, graphs
    {
      graphs.items[graph].value.hash
    }

    lemma LiveIsCanonical(graph: u32)
      requires graphs.Valid() && Live(graph)
      ensures WellFormed(Body(graph)) && Compact(Body(graph)) == Ok(Body(graph))
      ensures Hash(graph) == HashOf(Body(graph)) && BodyOf(Hash(graph)) == Some(Body(graph))
      ensures Hash(graph) in graphs.byHash && graphs.byHash[Hash(graph)] == graph
    {
      hide Compact;
      assert Canonical(graphs.items[graph].value);
      BodyOfHash(Body(graph));
    }

    /** An empty engine around a root graph. */
    constructor (body: GraphBody, includeReverse: bool, cacheCandidates: bool, cacheTransitions: bool)
      requires WellFormed(body)
      ensures Valid() && fresh(graphs) && fresh(candidates)
      ensures Compact(body) == Ok(Body(root))
      ensures this.includeReverse == includeReverse && candidateCache == map[] && transitions == map[]
    {
      hide Compact, HashOf, SlotsCanonical, SlotsIndexed, FreeExact, RefsExact, Located, BatchesCounted, CandidatesOf;
      this.includeReverse, this.cacheCandidates := includeReverse, cacheCandidates;
      this.cacheTransitions := cacheTransitions;
      var arena := new GraphArena();
      CompactSucceeds(body);
      var inserted := arena.Insert(body);
      graphs := arena;
      candidates := new CandidateArena();
      root := inserted.value;
      candidateCache, transitions := map[], map[];
    }

    /** The handles returned for a request: the first candidates of the graph, up to the limit. */
    ghost predicate Answers(graph: u32, limit: Option<nat>, ids: seq<u32>)
      requires candidates.Valid() && Live(graph)
      reads this, graphs, candidates
    {
      && DenotesPrefix(candidates.handles, candidates.batches, includeReverse, Hash(graph), ids)
      && |ids| == |Take(CandidatesOf(Hash(graph), includeReverse), limit)|
    }

    /** How many candidates a request asks for. */
    ghost function Requested(graph: u32, limit: Option<nat>): nat
      requires Live(graph)
      reads this, graphs
    {
      |Take(CandidatesOf(Hash(graph), includeReverse), limit)|
    }

    /**
     * One more reference for each listed handle. The first count that cannot grow stops the loop; the
     * references taken before it stay taken.
     */
    method RetainAll(ids: seq<u32>) returns (r: Result<(), EngineError>, ghost taken: nat)
      requires candidates.Valid() && NoRepeats(ids)
      requires forall k :: 0 <= k < |ids| ==> candidates.Refs(ids[k]) >= 1
      modifies candidates
      ensures candidates.Valid()
      ensures forall i: nat :: candidates.Denotes(i) == old(candidates.Denotes(i))
      ensures taken <= |ids| && (r.Ok? <==> taken == |ids|)
      ensures forall i: nat :: candidates.Refs(i) == old(candidates.Refs(i)) + if i in ids[..taken] then 1 else 0
      ensures forall k :: 0 <= k < taken ==> old(candidates.Refs(ids[k])) < MAX_REFS
      ensures r.Err? ==> r.error == Internal(6) && old(candidates.Refs(ids[taken])) == MAX_REFS
    {
      for k := 0 to |ids|
        invariant candidates.Valid()
        invariant forall i: nat :: candidates.Denotes(i) == old(candidates.Denotes(i))
        invariant forall i: nat :: candidates.Refs(i) == old(candidates.Refs(i)) + if i in ids[..k] then 1 else 0
        invariant forall j :: 0 <= j < k ==> old(candidates.Refs(ids[j])) < MAX_REFS
      {
        assert ids[..k + 1] == ids[..k] + [ids[k]];
        assert ids[k] !in ids[..k];
        var retained := candidates.Retain(ids[k]);
        if retained.Err? {
          return Err(retained.error), k;
        }
        assert candidates.Refs(ids[k]) <= MAX_REFS;
      }
      assert ids[..|ids|] == ids;
      r, taken := Ok(()), |ids|;
    }

    /** The taken handles denote the first candidates of the graph, and `id` the next one. */
    ghost predicate Stopped(graph: u32, taken: seq<u32>, id: u32)
      requires candidates.Valid() && Live(graph)
      reads this, graphs, candidates
    {
      DenotesPrefix(candidates.handles, candidates.batches, includeReverse, Hash(graph), taken + [id])
    }

    /** A cached list serves a request unless it was cut short and the request is longer. */
    predicate Serves(cached: CachedIds, limit: Option<nat>)
    {
      !(cached.truncated && (limit.None? || limit.value > |cached.ids|))
    }

    /** Answer from a cached list that is long enough. */
    method FromCache(graph: u32, limit: Option<nat>, cached: CachedIds)
      returns (r: Result<seq<u32>, EngineError>, ghost taken: seq<u32>)
      requires Valid() && Live(graph) && Serves(cached, limit)
      requires Hash(graph) in candidateCache && candidateCache[Hash(graph)] == cached
      modifies candidates
      ensures Valid()
      ensures forall i: nat :: candidates.Refs(i) == old(candidates.Refs(i)) + if i in taken then 1 else 0
      ensures r.Ok? ==> r.value == taken == Take(cached.ids, limit) && Answers(graph, limit, r.value)
      ensures r.Err? ==> r.error == Internal(6) && exists id: u32 ::
                old(candidates.Refs(id)) == MAX_REFS && Stopped(graph, taken, id)
    {
      hide Enumerated, EntryOf, CandidatesOf, TransitionsOk, HashOf, CacheOk, DenotesPrefix, EntriesGenuine, NoRepeats,
        Located, BatchesCounted, FreeExact, SlotsCanonical, SlotsIndexed, RefsExact;
      ghost var h := Hash(graph);
      ghost var handles0, batches0 := candidates.handles, candidates.batches;
      var ids := Take(cached.ids, limit);
      CachedServes(handles0, batches0, includeReverse, candidateCache, h, limit);
      var retained, n := RetainAll(ids);
      taken := ids[..n];
      forall i: nat
        ensures EntryOf(candidates.handles, candidates.batches, i) == EntryOf(handles0, batches0, i)
      {
        assert candidates.Denotes(i) == old(candidates.Denotes(i));
      }
      CacheKept(handles0, batches0, candidates.handles, candidates.batches, includeReverse, candidateCache);
      GenuineKept(handles0, batches0, candidates.handles, candidates.batches, includeReverse);
      PrefixKept(handles0, batches0, candidates.handles, candidates.batches, includeReverse, h, ids);
      if retained.Err? {
        PrefixShorter(candidates.handles, candidates.batches, includeReverse, h, ids, n + 1);
        assert ids[..n + 1] == taken + [ids[n]];
        assert Stopped(graph, taken, ids[n]);
        return Err(retained.error), taken;
      }
      assert taken == ids;
      r := Ok(ids);
    }

    /** Enumerate afresh, store the batch and remember it; this fails exactly when indices run out. */
    method FromGraph(graph: u32, limit: Option<nat>) returns (r: Result<seq<u32>, EngineError>)
      requires Valid() && Live(graph)
      modifies this`candidateCache, candidates
      ensures r.Ok? <==> old(candidates.HasRoom(Requested(graph, limit)))
      ensures r.Ok? ==> Valid() && Answers(graph, limit, r.value)
      ensures r.Ok? ==>
                forall i: nat :: candidates.Refs(i) == old(candidates.Refs(i)) + if i in r.value then 1 else 0
      ensures r.Ok? && cacheCandidates ==>
                candidateCache == old(candidateCache)[Hash(graph) := CachedIds(r.value, limit == Some(|r.value|))]
      ensures r.Err? ==> r.error == Internal(7)
      ensures r.Err? ==>
                (Valid() <==> old(Requested(graph, limit)) >= SLOT_LIMIT || !old(candidates.HasBatchSlot()))
      ensures r.Err? && Valid() ==> forall i: nat :: candidates.Refs(i) == old(candidates.Refs(i))
    {
      hide Enumerated, EntryOf, CandidatesOf, TransitionsOk, HashOf, CacheOk, DenotesPrefix, EntriesGenuine,
        EntriesKept,
        Located, BatchesCounted, FreeExact, SlotsCanonical, SlotsIndexed, RefsExact, NoRepeats, Take, Compact,
        CandidateArena.HasRoom, CandidateArena.HasBatchSlot;
      LiveIsCanonical(graph);
      var body, hash := graphs.items[graph].value.body, Hash(graph);
      FreshIsTake(body, includeReverse, limit);
      var enumerated := EnumerationLoop.EnumerateGraphLimited(body, includeReverse, limit);
      var raw := enumerated.value;
      var truncated := limit.Some? && |raw| == limit.value;
      ghost var handles0, batches0 := candidates.handles, candidates.batches;
      r := candidates.InsertBatch(hash, raw);
      if r.Err? {
        return;
      }
      var ids := r.value;
      ghost var handles1, batches1 := candidates.handles, candidates.batches;
      GenuineWithFresh(handles0, batches0, handles1, batches1, includeReverse, body, limit, ids);
      CacheKept(handles0, batches0, handles1, batches1, includeReverse, candidateCache);
      PrefixOfFresh(handles1, batches1, includeReverse, body, limit, ids);
      CacheExtended(handles1, batches1, includeReverse, candidateCache, hash, ids, limit);
      if cacheCandidates {
        candidateCache := candidateCache[hash := CachedIds(ids, truncated)];
      }
    }

    /** A cached list answers this request. */
    predicate Cached(graph: u32, limit: Option<nat>)
      requires Live(graph)
      reads this, graphs
    {
      cacheCandidates && Hash(graph) in candidateCache && Serves(candidateCache[Hash(graph)], limit)
    }

    /** The request can be met without running out of 32-bit indices. */
    ghost predicate HasRoom(graph: u32, limit: Option<nat>)
      requires Live(graph)
      reads this, graphs, candidates
    {
      Cached(graph, limit) || candidates.HasRoom(Requested(graph, limit))
    }

    /**
     * `enumerate_candidate_ids`: whatever was cached or released before, the answer is live handles for
     * exactly the requested prefix of the full enumeration, each carrying one new reference. A saturated count
     * stops it with the references of a shorter prefix taken; indices that run out stop it as well.
     */
    method EnumerateCandidateIds(graph: u32, limit: Option<nat>)
      returns (r: Result<seq<u32>, EngineError>, ghost taken: seq<u32>)
      requires Valid()
      modifies this`candidateCache, candidates
      ensures Valid() <==>
                || !Live(graph) || old(HasRoom(graph, limit))
                || old(Requested(graph, limit)) >= SLOT_LIMIT || !old(candidates.HasBatchSlot())
      ensures r == Err(UnknownGraph) <==> !Live(graph)
      ensures r == Err(Internal(7)) <==> Live(graph) && !old(HasRoom(graph, limit))
      ensures Valid() ==>
                forall i: nat :: candidates.Refs(i) == old(candidates.Refs(i)) + if i in taken then 1 else 0
      ensures r.Ok? ==> Valid() && Live(graph) && Answers(graph, limit, r.value) && r.value == taken
      ensures r.Err? && r.error != UnknownGraph && r.error != Internal(7) ==>
                && r.error == Internal(6) && Valid() && Live(graph)
                && exists id: u32 :: old(candidates.Refs(id)) == MAX_REFS && Stopped(graph, taken, id)
      ensures r.Err? && r.error != Internal(6) ==> taken == []
      ensures Live(graph) && cacheCandidates && Hash(graph) in old(candidateCache) ==>
                var cached := old(candidateCache)[Hash(graph)];
                !cached.truncated || (limit.Some? && limit.value <= |cached.ids|) ==>
                  candidateCache == old(candidateCache) && (r.Ok? ==> r.value == Take(cached.ids, limit))
      ensures r.Ok? && cacheCandidates ==>
                && Hash(graph) in candidateCache && r.value == Take(candidateCache[Hash(graph)].ids, limit)
    {
      hide Enumerated, EntryOf, CandidatesOf, TransitionsOk, HashOf, CacheOk, EntriesGenuine, DenotesPrefix,
        Located, BatchesCounted, FreeExact, SlotsCanonical, SlotsIndexed, RefsExact,
        CandidateArena.HasRoom, CandidateArena.HasBatchSlot;
      taken := [];
      if !Live(graph) {
        return Err(UnknownGraph), taken;
      }
      if Cached(graph, limit) {
        r, taken := FromCache(graph, limit, candidateCache[Hash(graph)]);
      } else {
        r := FromGraph(graph, limit);
        taken := if r.Ok? then r.value else [];
      }
    }

    // ---- apply -----------------------------------------------------------------------------

    /** What `apply` must produce for a handle and a graph: the pure rewrite of the stored body. */
    ghost function Pure(graph: u32, raw: RawCandidate): Result<GraphBody, RuleError>
      requires graphs.Valid() && Live(graph)
      reads this, graphs
    {
      LiveIsCanonical(graph);
      Apply(Body(graph), raw)
    }

    /** A candidate of the graph rewrites it without error, into a compacted graph. */
    lemma PureSucceeds(graph: u32, raw: RawCandidate)
      requires graphs.Valid() && Live(graph) && raw in CandidatesOf(Hash(graph), includeReverse)
      ensures Pure(graph, raw).Ok? && WellFormed(Pure(graph, raw).value)
      ensures Compact(Pure(graph, raw).value) == Ok(Pure(graph, raw).value)
      ensures raw in Enumerated(Body(graph), includeReverse, None)
    {
      hide Enumerated, Apply, Compact, HashOf;
      LiveIsCanonical(graph);
      EnumeratedApplies(Body(graph), includeReverse, None, raw);
      ApplyIsCompact(Body(graph), raw);
    }

    /** The slot a stored hash names holds the graph with that hash. */
    lemma StoredUnder(body: GraphBody)
      requires graphs.Valid() && WellFormed(body) && HashOf(body) in graphs.byHash
      ensures graphs.Holds(graphs.byHash[HashOf(body)], body)
    {
      hide Compact, HashOf;
      SlotOf(graphs.items, graphs.byHash, HashOf(body));
      SameHashSameBody(graphs.items[graphs.byHash[HashOf(body)]].value, body);
    }

    /** A remembered hash is the hash of the pure rewrite. */
    lemma RememberedIsPure(graph: u32, raw: RawCandidate)
      requires graphs.Valid() && Live(graph) && raw in CandidatesOf(Hash(graph), includeReverse)
      requires TransitionsOk(includeReverse, transitions)
      requires Hash(graph) in transitions
      requires HashCandidate(Hash(graph), includeReverse, raw) in transitions[Hash(graph)]
      ensures Pure(graph, raw).Ok? && WellFormed(Pure(graph, raw).value)
      ensures transitions[Hash(graph)][HashCandidate(Hash(graph), includeReverse, raw)]
              == HashOf(Pure(graph, raw).value)
    {
      hide Apply, CandidatesOf, HashOf, Compact, Located, SlotsCanonical, SlotsIndexed, RefsExact, FreeExact;
      PureSucceeds(graph, raw);
      LiveIsCanonical(graph);
      var key := HashCandidate(Hash(graph), includeReverse, raw);
      assert TransitionOk(includeReverse, Hash(graph), key, transitions[Hash(graph)][key]);
    }

    /** Try the transition cache: a hit must still be stored, and takes one reference. */
    method FromTransition(graph: u32, raw: RawCandidate) returns (r: Result<Option<u32>, EngineError>)
      requires Valid() && Live(graph) && raw in CandidatesOf(Hash(graph), includeReverse)
      modifies graphs`hashRefs, graphs`granted
      ensures Valid() && Pure(graph, raw).Ok? && WellFormed(Pure(graph, raw).value)
      ensures r.Ok? && r.value.None? ==> graphs.granted == old(graphs.granted)
      ensures r.Ok? && r.value.Some? ==>
                && graphs.Holds(r.value.value, Pure(graph, raw).value)
                && graphs.granted == old(graphs.granted) + multiset{HashOf(Pure(graph, raw).value)}
      ensures r.Err? ==>
                && r.error == Internal(5) && graphs.granted == old(graphs.granted)
                && graphs.granted[HashOf(Pure(graph, raw).value)] == MAX_REFS
      ensures r.Err? || r.value.Some? ==> graphs.Fits(Pure(graph, raw).value)
      ensures r.Ok? && r.value.Some? ==> cacheTransitions && Remembers(graph, raw)
      ensures r.Ok? && r.value.None? && cacheTransitions && Remembers(graph, raw) ==>
                HashOf(Pure(graph, raw).value) !in graphs.byHash
    {
      hide Enumerated, Apply, EntryOf, CandidatesOf, HashOf, CacheOk, EntriesGenuine, TransitionsOk, Compact,
        Located, BatchesCounted, FreeExact, SlotsCanonical, SlotsIndexed, RefsExact;
      PureSucceeds(graph, raw);
      var hash := Hash(graph);
      var key := HashCandidate(hash, includeReverse, raw);
      if !cacheTransitions || hash !in transitions || key !in transitions[hash] {
        return Ok(None);
      }
      RememberedIsPure(graph, raw);
      var afterHash := transitions[hash][key];
      ghost var pure := Pure(graph, raw).value;
      if afterHash in graphs.byHash {
        StoredUnder(pure);
      }
      r := graphs.RetainHash(afterHash);
    }

    /** All 32-bit indices are taken, and the handle names a graph that was stored before. */
    ghost predicate Misplaced(id: u32, before: seq<Option<Stored>>)
      reads this, graphs
    {
      SLOT_LIMIT <= |before| && before[id].Some? && id < |graphs.items| && graphs.items[id] == before[id]
    }

    /** The transition cache knows what this candidate makes of the graph. */
    ghost predicate Remembers(graph: u32, raw: RawCandidate)
      requires Live(graph)
      reads this, graphs
    {
      Hash(graph) in transitions && HashCandidate(Hash(graph), includeReverse, raw) in transitions[Hash(graph)]
    }

    /** Rewrite, store and remember. */
    method FromRewrite(graph: u32, raw: RawCandidate) returns (r: Result<u32, EngineError>)
      requires Valid() && Live(graph) && raw in CandidatesOf(Hash(graph), includeReverse)
      modifies this`transitions, graphs
      ensures old(Pure(graph, raw)).Ok? && WellFormed(old(Pure(graph, raw)).value)
      ensures Valid() <==> old(graphs.Fits(Pure(graph, raw).value))
      ensures Stable(old(graphs.items), graphs.items)
      ensures r.Ok? ==> graphs.granted == old(graphs.granted) + multiset{HashOf(old(Pure(graph, raw)).value)}
      ensures r.Ok? && Valid() ==> graphs.Holds(r.value, old(Pure(graph, raw)).value)
      ensures r.Ok? && !Valid() ==> Misplaced(r.value, old(graphs.items))
      ensures r.Ok? && cacheTransitions && Valid() ==> Live(graph) && Remembers(graph, raw)
      ensures r.Err? ==>
                && r.error == Internal(1) && Valid() && graphs.granted == old(graphs.granted)
                && graphs.granted[HashOf(old(Pure(graph, raw)).value)] == MAX_REFS
    {
      hide Enumerated, Apply, EntryOf, CandidatesOf, HashOf, CacheOk, EntriesGenuine, Compact,
        Located, BatchesCounted, FreeExact, SlotsCanonical, SlotsIndexed, RefsExact, TransitionsOk;
      PureSucceeds(graph, raw);
      LiveIsCanonical(graph);
      var body, hash := graphs.items[graph].value.body, Hash(graph);
      var rewritten := RewriteLoop.ApplyGraph(body, raw);
      var inserted := graphs.Insert(rewritten.value);
      if inserted.Err? {
        return Err(Internal(1));
      }
      if cacheTransitions {
        TransitionLearned(includeReverse, transitions, body, raw);
        var inner := if hash in transitions then transitions[hash] else map[];
        var key := HashCandidate(hash, includeReverse, raw);
        transitions := transitions[hash := inner[key := Hash(inserted.value)]];
      }
      r := Ok(inserted.value);
    }

    /** A live handle of the graph: its record is one of the graph's candidates. */
    ghost predicate Current(graph: u32, candidate: u32)
      requires candidates.Valid()
      reads this, graphs, candidates
    {
      && Live(graph) && candidates.Denotes(candidate).Some?
      && candidates.Denotes(candidate).value.graphHash == Hash(graph)
    }

    lemma CurrentIsCandidate(graph: u32, candidate: u32)
      requires Valid() && Current(graph, candidate)
      ensures candidates.Denotes(candidate).value.raw in CandidatesOf(Hash(graph), includeReverse)
      ensures Pure(graph, candidates.Denotes(candidate).value.raw).Ok?
      ensures WellFormed(Pure(graph, candidates.Denotes(candidate).value.raw).value)
    {
      hide CandidatesOf, EntryOf, Apply, HashOf, Compact, Located, BatchesCounted, CacheOk, TransitionsOk,
        SlotsCanonical, SlotsIndexed, RefsExact, FreeExact;
      PureSucceeds(graph, candidates.Denotes(candidate).value.raw);
    }

    /** The graph a current candidate rewrites its graph into. */
    ghost function After(graph: u32, candidate: u32): (after: GraphBody)
      requires Valid() && Current(graph, candidate)
      reads this, graphs, candidates
      ensures WellFormed(after)
    {
      CurrentIsCandidate(graph, candidate);
      Pure(graph, candidates.Denotes(candidate).value.raw).value
    }

    /** Transition cache first, then the rewrite itself: both give the pure result, with one new reference. */
    method Rewrite(graph: u32, raw: RawCandidate) returns (r: Result<u32, EngineError>)
      requires Valid() && Live(graph) && raw in CandidatesOf(Hash(graph), includeReverse)
      modifies this`transitions, graphs
      ensures old(Pure(graph, raw)).Ok? && WellFormed(old(Pure(graph, raw)).value)
      ensures Valid() <==> old(graphs.Fits(Pure(graph, raw).value))
      ensures Stable(old(graphs.items), graphs.items)
      ensures r.Ok? ==> graphs.granted == old(graphs.granted) + multiset{HashOf(old(Pure(graph, raw)).value)}
      ensures r.Ok? && Valid() ==> graphs.Holds(r.value, old(Pure(graph, raw)).value)
      ensures r.Ok? && !Valid() ==> Misplaced(r.value, old(graphs.items))
      ensures r.Ok? && cacheTransitions && Valid() ==> Live(graph) && Remembers(graph, raw)
      ensures r.Err? ==>
                && r.error.Internal? && Valid() && graphs.granted == old(graphs.granted)
                && graphs.granted[HashOf(old(Pure(graph, raw)).value)] == MAX_REFS
    {
      hide Enumerated, Apply, EntryOf, CandidatesOf, HashOf, CacheOk, EntriesGenuine, Compact,
        Located, BatchesCounted, FreeExact, SlotsCanonical, SlotsIndexed, RefsExact, TransitionsOk;
      var cached := FromTransition(graph, raw);
      if cached.Err? {
        return Err(cached.error);
      }
      if cached.value.Some? {
        return Ok(cached.value.value);
      }
      r := FromRewrite(graph, raw);
    }

    /**
     * `apply`: a handle of another graph is refused as stale; a current one yields the graph the pure rewrite
     * produces, whatever the caches hold, with one new reference, and no stored graph changes. The engine
     * stays consistent if and only if the new graph fits the store.
     */
    method ApplyCandidate(graph: u32, candidate: u32) returns (r: Result<ApplyResult, EngineError>)
      requires Valid()
      modifies this`transitions, graphs
      ensures Stable(old(graphs.items), graphs.items)
      ensures Valid() <==> (old(Current(graph, candidate)) ==> old(graphs.Fits(After(graph, candidate))))
      ensures r == Err(UnknownGraph) <==> !old(Live(graph))
      ensures r == Err(UnknownCandidate) <==> old(Live(graph)) && candidates.Denotes(candidate).None?
      ensures r == Err(StaleCandidate) <==>
                old(Live(graph)) && candidates.Denotes(candidate).Some? && !old(Current(graph, candidate))
      ensures r.Ok? ==>
                && old(Current(graph, candidate)) && r.value.beforeHash == old(Hash(graph))
                && graphs.granted == old(graphs.granted) + multiset{HashOf(old(After(graph, candidate)))}
      ensures r.Ok? && Valid() ==>
                && graphs.Holds(r.value.after, old(After(graph, candidate)))
                && r.value.afterHash == HashOf(old(After(graph, candidate)))
                && (r.value.changed <==> old(After(graph, candidate)) != old(Body(graph)))
      ensures r.Ok? && !Valid() ==> Misplaced(r.value.after, old(graphs.items))
      ensures r.Ok? && cacheTransitions && Valid() ==>
                Live(graph) && Remembers(graph, candidates.Denotes(candidate).value.raw)
      ensures r.Err? ==> graphs.granted == old(graphs.granted)
      ensures r.Err? && r.error.Internal? ==>
                && old(Current(graph, candidate))
                && graphs.granted[HashOf(old(After(graph, candidate)))] == MAX_REFS
    {
      hide Enumerated, Apply, EntryOf, CandidatesOf, HashOf, CacheOk, EntriesGenuine, Compact,
        Located, BatchesCounted, FreeExact, SlotsCanonical, SlotsIndexed, RefsExact, TransitionsOk;
      if !Live(graph) {
        return Err(UnknownGraph);
      }
      var beforeHash := Hash(graph);
      var entry := candidates.Get(candidate);
      if entry.None? {
        return Err(UnknownCandidate);
      }
      if entry.value.graphHash != beforeHash {
        return Err(StaleCandidate);
      }
      CurrentIsCandidate(graph, candidate);
      LiveIsCanonical(graph);
      BodyOfHash(After(graph, candidate));
      var rewritten := Rewrite(graph, entry.value.raw);
      if rewritten.Err? {
        return Err(rewritten.error);
      }
      var afterHash := Hash(rewritten.value);
      r := Ok(ApplyResult(rewritten.value, beforeHash, afterHash, beforeHash != afterHash));
    }

    // ---- release ---------------------------------------------------------------------------

    /** Forgetting cached facts about a graph never invalidates the engine. */
    method Forget(hash: GraphHash)
      modifies this`candidateCache, this`transitions
      ensures candidateCache == old(candidateCache) - {hash} && transitions == old(transitions) - {hash}
    {
      candidateCache := candidateCache - {hash};
      transitions := transitions - {hash};
    }

    method ReleaseCandidate(candidate: u32) returns (r: Result<(), EngineError>)
      requires Valid()
      modifies this`candidateCache, this`transitions, candidates
      ensures Valid()
      ensures r.Err? <==> old(candidates.Refs(candidate)) == 0
      ensures r.Err? ==> r.error == UnknownCandidate
      ensures r.Ok? ==> candidates.Refs(candidate) == old(candidates.Refs(candidate)) - 1
      ensures forall i: nat :: i != candidate || r.Err? ==> candidates.Refs(i) == old(candidates.Refs(i))
      ensures forall i: nat :: candidates.Refs(i) >= 1 ==> candidates.Denotes(i) == old(candidates.Denotes(i))
    {
      hide Enumerated, EntryOf, CandidatesOf, HashOf, CachedOk, Compact,
        Located, BatchesCounted, FreeExact, SlotsCanonical, SlotsIndexed, RefsExact, TransitionOk;
      ghost var handles0, batches0 := candidates.handles, candidates.batches;
      var released := candidates.Release(candidate);
      ghost var handles1, batches1 := candidates.handles, candidates.batches;
      forall i: nat
        ensures i != candidate ==> EntryOf(handles1, batches1, i) == EntryOf(handles0, batches0, i)
        ensures i == candidate ==>
                  EntryOf(handles1, batches1, i) ==
                  if released.Ok? && released.value.Some? then None else EntryOf(handles0, batches0, i)
      {
        assert old(candidates.Denotes(i)) == EntryOf(handles0, batches0, i);
        assert candidates.Denotes(i) == EntryOf(handles1, batches1, i);
        EntryIffRefs(handles0, batches0, i);
        EntryIffRefs(handles1, batches1, i);
      }
      if released.Err? {
        CacheKept(handles0, batches0, handles1, batches1, includeReverse, candidateCache);
        GenuineKept(handles0, batches0, handles1, batches1, includeReverse);
        return Err(released.error);
      }
      GenuineKept(handles0, batches0, handles1, batches1, includeReverse);
      if released.value.Some? {
        CacheWithout(handles0, batches0, handles1, batches1, includeReverse, candidateCache, candidate,
                     released.value.value);
        Forget(released.value.value.graphHash);
      } else {
        CacheKept(handles0, batches0, handles1, batches1, includeReverse, candidateCache);
      }
      r := Ok(());
    }

    /** No handle is listed more often than it is referenced. */
    ghost predicate CandidatesCovered(ids: seq<u32>)
      reads this, candidates
    {
      forall id :: id in ids ==> multiset(ids)[id] <= candidates.Refs(id)
    }

    /** The candidate half of `release`: one reference each, up to the first handle that has none left. */
    method ReleaseCandidates(ids: seq<u32>) returns (r: Result<(), EngineError>, ghost given: nat)
      requires Valid()
      modifies this`candidateCache, this`transitions, candidates
      ensures Valid()
      ensures r.Ok? <==> old(CandidatesCovered(ids))
      ensures given <= |ids| && (r.Ok? <==> given == |ids|)
      ensures forall i: nat :: candidates.Refs(i) + multiset(ids[..given])[i] == old(candidates.Refs(i))
      ensures r.Err? ==> r.error == UnknownCandidate && candidates.Refs(ids[given]) == 0
      ensures forall i: nat :: candidates.Refs(i) >= 1 ==> candidates.Denotes(i) == old(candidates.Denotes(i))
    {
      hide Enumerated, EntryOf, CandidatesOf, HashOf, CacheOk, EntriesGenuine, TransitionsOk,
        Located, BatchesCounted, FreeExact, SlotsCanonical, SlotsIndexed, RefsExact;
      for k := 0 to |ids|
        invariant Valid()
        invariant forall i: nat :: candidates.Refs(i) + multiset(ids[..k])[i] == old(candidates.Refs(i))
        invariant forall i: nat :: candidates.Refs(i) >= 1 ==> candidates.Denotes(i) == old(candidates.Denotes(i))
      {
        TallyStep(ids, k);
        var released := ReleaseCandidate(ids[k]);
        if released.Err? {
          return Err(released.error), k;
        }
      }
      assert ids[..|ids|] == ids;
      r, given := Ok(()), |ids|;
    }

    /** No reference of this handle can be given back: it is dead, or the root with its last one. */
    ghost predicate Refused(graph: u32)
      reads this, graphs
    {
      Live(graph) ==> graph == root && graphs.granted[Hash(graph)] == 1
    }

    method ReleaseGraph(graph: u32) returns (r: Result<(), EngineError>)
      requires Valid()
      modifies this`candidateCache, this`transitions, graphs
      ensures Valid()
      ensures r.Err? <==> !old(Live(graph)) || (graph == root && old(graphs.granted[Hash(graph)]) == 1)
      ensures r.Err? ==> graphs.items == old(graphs.items) && graphs.granted == old(graphs.granted)
      ensures r.Err? ==> r.error == if old(Live(graph)) then Internal(4) else UnknownGraph
      ensures r.Ok? ==>
                && old(Hash(graph) in graphs.granted)
                && graphs.granted == old(graphs.granted) - multiset{old(Hash(graph))}
                && graphs.items ==
                   if old(Hash(graph)) in graphs.granted then old(graphs.items) else old(graphs.items)[graph := None]
    {
      hide Enumerated, EntryOf, CandidatesOf, HashOf, CachedOk, EntriesGenuine, TransitionOk,
        Located, BatchesCounted, FreeExact, SlotsCanonical, SlotsIndexed, RefsExact;
      var released := graphs.ReleaseProtected(graph, root);
      if released.Err? {
        return Err(released.error);
      }
      if released.value.1 {
        Forget(released.value.0);
      }
      r := Ok(());
    }

    /**
     * The graph half of `release`: it succeeds exactly when the listed references are outstanding and one is
     * left for the root; what is stored afterwards is exactly what still has a reference. A refusal comes after
     * the references before it were given back.
     */
    method ReleaseGraphs(ids: seq<u32>) returns (r: Result<(), EngineError>, ghost given: nat)
      requires Valid()
      modifies this`candidateCache, this`transitions, graphs
      ensures Valid() && graphs.items[root] == old(graphs.items[root])
      ensures r.Ok? <==> Covered(old(graphs.items), old(graphs.granted), root, ids)
      ensures given <= |ids| && (r.Ok? <==> given == |ids|)
      ensures forall j :: 0 <= j < given ==> Occupied(old(graphs.items), ids[j])
      ensures graphs.granted + HashesOf(old(graphs.items), ids[..given]) == old(graphs.granted)
      ensures r.Err? ==> Refused(ids[given])
      ensures Remaining(old(graphs.items), graphs.granted, graphs.items)
    {
      hide Enumerated, EntryOf, CandidatesOf, HashOf, CacheOk, EntriesGenuine, TransitionsOk, HashesOf, Covered,
        Remaining,
        Located, BatchesCounted, FreeExact, SlotsCanonical, SlotsIndexed, RefsExact;
      ghost var items0, granted0, byHash0 := graphs.items, graphs.granted, graphs.byHash;
      AllRemain(items0, byHash0, graphs.hashRefs, granted0);
      HashesNone(items0);
      assert ids[..0] == [];
      for k := 0 to |ids|
        invariant Valid()
        invariant Remaining(items0, graphs.granted, graphs.items)
        invariant graphs.granted + HashesOf(items0, ids[..k]) == granted0
        invariant forall j :: 0 <= j < k ==> Occupied(items0, ids[j])
      {
        ghost var items1, granted1 := graphs.items, graphs.granted;
        RemainingAt(items0, granted1, items1, root);
        RemainingAt(items0, granted1, items1, ids[k]);
        var released := ReleaseGraph(ids[k]);
        if released.Err? {
          RefusedNotCovered(items0, granted0, items1, granted1, root, ids, k);
          return Err(released.error), k;
        }
        HashesStep(items0, ids, k);
        RemainingStep(items0, byHash0, items1, granted1, ids[k]);
      }
      assert ids[..|ids|] == ids;
      RemainingAt(items0, graphs.granted, graphs.items, root);
      LiveIsGranted(root);
      AllReleased(items0, granted0, graphs.granted, root, ids);
      r, given := Ok(()), |ids|;
    }

    /** A stored graph has an outstanding reference. */
    lemma LiveIsGranted(graph: u32)
      requires graphs.Valid() && Live(graph)
      ensures Hash(graph) in graphs.granted
    {
      hide Canonical;
    }

    /**
     * `release`: candidates first, then graphs. The first refused reference stops it; exactly the references
     * listed before it are given back.
     */
    method Release(graphIds: seq<u32>, candidateIds: seq<u32>)
      returns (r: Result<(), EngineError>, ghost graphsGiven: nat, ghost candidatesGiven: nat)
      requires Valid()
      modifies this`candidateCache, this`transitions, graphs, candidates
      ensures Valid() && graphs.items[root] == old(graphs.items[root])
      ensures r.Ok? <==>
                old(CandidatesCovered(candidateIds)) && Covered(old(graphs.items), old(graphs.granted), root, graphIds)
      ensures candidatesGiven <= |candidateIds| && graphsGiven <= |graphIds|
      ensures r.Ok? <==> candidatesGiven == |candidateIds| && graphsGiven == |graphIds|
      ensures candidatesGiven < |candidateIds| ==>
              graphsGiven == 0 && candidates.Refs(candidateIds[candidatesGiven]) == 0
      ensures candidatesGiven == |candidateIds| && r.Err? ==>
                graphsGiven < |graphIds| && Refused(graphIds[graphsGiven])
      ensures forall i: nat ::
                candidates.Refs(i) + multiset(candidateIds[..candidatesGiven])[i] == old(candidates.Refs(i))
      ensures forall j :: 0 <= j < graphsGiven ==> Occupied(old(graphs.items), graphIds[j])
      ensures graphs.granted + HashesOf(old(graphs.items), graphIds[..graphsGiven]) == old(graphs.granted)
      ensures forall i: nat :: candidates.Refs(i) >= 1 ==> candidates.Denotes(i) == old(candidates.Denotes(i))
      ensures Remaining(old(graphs.items), graphs.granted, graphs.items)
    {
      hide Enumerated, EntryOf, CandidatesOf, HashOf, CacheOk, EntriesGenuine, TransitionsOk, HashesOf, Covered,
        Remaining,
        Located, BatchesCounted, FreeExact, SlotsCanonical, SlotsIndexed, RefsExact;
      AllRemain(graphs.items, graphs.byHash, graphs.hashRefs, graphs.granted);
      HashesNone(graphs.items);
      assert graphIds[..0] == [];
      graphsGiven := 0;
      r, candidatesGiven := ReleaseCandidates(candidateIds);
      if r.Ok? {
        r, graphsGiven := ReleaseGraphs(graphIds);
      }
    }
  }

  lemma TallyStep(ids: seq<u32>, k: nat)
    requires k < |ids|
    ensures multiset(ids[..k + 1]) == multiset(ids[..k]) + multiset{ids[k]}
    ensures multiset(ids[..k + 1]) <= multiset(ids)
  {
    assert ids[..k + 1] == ids[..k] + [ids[k]];
    assert ids == ids[..k + 1] + ids[k + 1..];
  }
}

/** The hash-consed, reference-counted graph store. */
module GraphArenas {
  import opened Basics
  import opened Graphs
  import opened Compaction
  import CompactionLoop
  import opened Wav1

  /** The hash function is taken to be injective, so a hash is represented by the bytes it was taken of. */
  datatype GraphHash = GraphHash(canonical: Bytes)

  function HashOf(g: GraphBody): GraphHash
    requires g.Shaped()
  {
    GraphHash(Serialize(g))
  }

  /** The graph a hash stands for. */
  function BodyOf(h: GraphHash): Option<GraphBody>
  {
    match Deserialize(h.canonical)
    case Ok(g) => Some(g)
    case Err(_) => None
  }

  lemma BodyOfHash(g: GraphBody)
    requires Validate(g).None?
    ensures BodyOf(HashOf(g)) == Some(g)
  {
    SerializeRoundTrip(g);
  }

  const MAX_REFS: u32 := 0xFFFF_FFFF

  /** Handles are 32-bit slot indices. */
  const SLOT_LIMIT: nat := 0x1_0000_0000

  datatype EngineError =
    | UnknownGraph
    | UnknownCandidate
    | StaleCandidate
    | Internal(code: nat)

  datatype Stored = Stored(body: GraphBody, hash: GraphHash)

  /** Stored graphs are compacted and filed under their own hash. */
  ghost predicate Canonical(s: Stored)
  {
    WellFormed(s.body) && Compact(s.body) == Ok(s.body) && s.hash == HashOf(s.body)
  }

  ghost predicate SlotsCanonical(items: seq<Option<Stored>>)
  {
    forall i :: 0 <= i < |items| && items[i].Some? ==> Canonical(items[i].value)
  }

  /** The hash index names exactly the occupied slots, one per hash. */
  ghost predicate SlotsIndexed(items: seq<Option<Stored>>, byHash: map<GraphHash, u32>)
  {
    && (forall i :: 0 <= i < |items| && items[i].Some? ==>
          items[i].value.hash in byHash && byHash[items[i].value.hash] == i)
    && (forall h :: h in byHash ==>
          byHash[h] < |items| && items[byHash[h]].Some? && items[byHash[h]].value.hash == h)
  }

  /** The free list is exactly the empty slots, each once. */
  ghost predicate FreeExact<T>(items: seq<Option<T>>, free: seq<u32>)
  {
    && NoRepeats(free)
    && (forall i: nat :: i in free <==> i < |items| && items[i].None?)
  }

  /** Each hash's count is the number of references granted and not yet released. */
  ghost predicate RefsExact(byHash: map<GraphHash, u32>, hashRefs: map<GraphHash, u32>, granted: multiset<GraphHash>)
  {
    && hashRefs.Keys == byHash.Keys
    && (forall h :: h in hashRefs ==> hashRefs[h] >= 1 && granted[h] == hashRefs[h])
    && (forall h :: h in granted ==> h in hashRefs)
  }

  /** No occupied slot changed. */
  ghost predicate Stable<T>(before: seq<Option<T>>, after: seq<Option<T>>)
  {
    && |before| <= |after|
    && forall i :: 0 <= i < |before| && before[i].Some? ==> after[i] == before[i]
  }

  // ---- the invariant, one change at a time -------------------------------------------------

  lemma RefsGrant(byHash: map<GraphHash, u32>, hashRefs: map<GraphHash, u32>, granted: multiset<GraphHash>,
                  hash: GraphHash)
    requires RefsExact(byHash, hashRefs, granted) && hash in byHash && hashRefs[hash] < MAX_REFS
    ensures RefsExact(byHash, hashRefs[hash := hashRefs[hash] + 1], granted + multiset{hash})
  {
  }

  lemma RefsFirst(
    byHash: map<GraphHash, u32>, hashRefs: map<GraphHash, u32>, granted: multiset<GraphHash>, hash: GraphHash, id: u32)
    requires RefsExact(byHash, hashRefs, granted) && hash !in byHash
    ensures RefsExact(byHash[hash := id], hashRefs[hash := 1], granted + multiset{hash})
  {
  }

  lemma RefsDrop(byHash: map<GraphHash, u32>, hashRefs: map<GraphHash, u32>, granted: multiset<GraphHash>,
                 hash: GraphHash)
    requires RefsExact(byHash, hashRefs, granted) && hash in byHash && hashRefs[hash] > 1
    ensures RefsExact(byHash, hashRefs[hash := hashRefs[hash] - 1], granted - multiset{hash})
  {
  }

  lemma RefsLast(byHash: map<GraphHash, u32>, hashRefs: map<GraphHash, u32>, granted: multiset<GraphHash>,
                 hash: GraphHash)
    requires RefsExact(byHash, hashRefs, granted) && hash in byHash && hashRefs[hash] == 1
    ensures RefsExact(byHash - {hash}, hashRefs - {hash}, granted - multiset{hash})
    ensures hash !in granted - multiset{hash}
  {
  }

  lemma RefsOf(byHash: map<GraphHash, u32>, hashRefs: map<GraphHash, u32>, granted: multiset<GraphHash>,
               hash: GraphHash)
    requires RefsExact(byHash, hashRefs, granted) && hash in byHash
    ensures hash in hashRefs && granted[hash] == hashRefs[hash] >= 1
  {
  }

  /** Filling an empty or fresh slot with a graph whose hash is new. */
  lemma SlotFilled(
    before: seq<Option<Stored>>, after: seq<Option<Stored>>, byHash: map<GraphHash, u32>, id: u32, graph: Stored)
    requires SlotsCanonical(before) && SlotsIndexed(before, byHash)
    requires Canonical(graph) && graph.hash !in byHash
    requires Stable(before, after) && |after| <= |before| + 1
    requires id < |after| && after[id] == Some(graph) && (id < |before| ==> before[id].None?)
    requires |after| > |before| ==> id == |before|
    requires forall i :: 0 <= i < |before| && i != id ==> after[i] == before[i]
    ensures SlotsCanonical(after) && SlotsIndexed(after, byHash[graph.hash := id])
  {
    hide Canonical;
  }

  lemma SlotEmptied(items: seq<Option<Stored>>, byHash: map<GraphHash, u32>, id: u32)
    requires SlotsCanonical(items) && SlotsIndexed(items, byHash) && id < |items| && items[id].Some?
    ensures items[id].value.hash in byHash && byHash[items[id].value.hash] == id
    ensures SlotsCanonical(items[id := None]) && SlotsIndexed(items[id := None], byHash - {items[id].value.hash})
  {
    hide Canonical;
  }

  lemma SlotOf(items: seq<Option<Stored>>, byHash: map<GraphHash, u32>, hash: GraphHash)
    requires SlotsCanonical(items) && SlotsIndexed(items, byHash) && hash in byHash
    ensures byHash[hash] < |items| && items[byHash[hash]].Some?
    ensures items[byHash[hash]].value.hash == hash && Canonical(items[byHash[hash]].value)
  {
  }

  /** An occupied slot past the limit cannot be on the index. */
  lemma IndexLost(items: seq<Option<Stored>>, byHash: map<GraphHash, u32>, id: nat)
    requires SLOT_LIMIT <= id < |items| && items[id].Some?
    ensures !SlotsIndexed(items, byHash)
  {
    assert forall h :: h in byHash ==> byHash[h] != id;
  }

  class GraphArena {
    var items: seq<Option<Stored>>
    var free: seq<u32>
    var byHash: map<GraphHash, u32>
    var hashRefs: map<GraphHash, u32>
    /** References handed out and not yet released. */
    ghost var granted: multiset<GraphHash>

    ghost predicate Valid()
      reads this
    {
      && SlotsCanonical(items)
      && SlotsIndexed(items, byHash)
      && FreeExact(items, free)
      && RefsExact(byHash, hashRefs, granted)
    }

    constructor ()
      ensures Valid() && items == [] && granted == multiset{}
    {
      items, free, byHash, hashRefs, granted := [], [], map[], map[], multiset{};
    }

    /** The graph behind a handle. */
    ghost predicate Holds(id: u32, body: GraphBody)
      requires body.Shaped()
      reads this
    {
      id < |items| && items[id] == Some(Stored(body, HashOf(body)))
    }

    /** A new graph would get a slot with an index of its own. */
    predicate HasSlot()
      reads this`items, this`free
    {
      |free| > 0 || |items| < SLOT_LIMIT
    }

    /** The graph is not storable, is stored already, or has a slot to go to. */
    ghost predicate Fits(body: GraphBody)
      reads this`items, this`free, this`byHash
    {
      Compact(body).Ok? && WellFormed(Compact(body).value) && HashOf(Compact(body).value) !in byHash ==> HasSlot()
    }

    /**
     * `insert`: compact, then share the slot of an equal graph or take a free or fresh one. Either way one
     * more reference to the graph's hash is outstanding. The index of a fresh slot is cut to 32 bits, so the
     * arena stays consistent if and only if the graph fits; otherwise the handle names the graph of an older
     * slot.
     */
    method Insert(body: GraphBody) returns (r: Result<u32, GraphError>)
      requires Valid()
      modifies this
      ensures Valid() <==> old(Fits(body))
      ensures Compact(body).Err? ==>
                && r == Err(Compact(body).error)
                && items == old(items) && granted == old(granted)
      ensures Compact(body).Ok? && r.Err? ==>
                && r.error == InvalidInput("graph refcount overflow")
                && old(granted[HashOf(Compact(body).value)]) == MAX_REFS
                && items == old(items) && granted == old(granted)
      ensures r.Ok? ==>
                && Compact(body).Ok? && WellFormed(Compact(body).value)
                && granted == old(granted) + multiset{HashOf(Compact(body).value)}
                && Stable(old(items), items) && |items| <= |old(items)| + 1
      ensures r.Ok? && old(Fits(body)) ==> Holds(r.value, Compact(body).value)
      ensures !old(Fits(body)) ==>
                && r == Ok(|old(items)| % SLOT_LIMIT) && |old(items)| >= SLOT_LIMIT
                && old(items)[r.value].Some? && items[r.value] == old(items)[r.value]
    {
      hide SlotsCanonical, SlotsIndexed, FreeExact, RefsExact, Canonical, Serialize, Compact;
      var compacted := CompactionLoop.CompactGraph(body);
      if compacted.Err? {
        return Err(compacted.error);
      }
      var compact := compacted.value;
      CompactWellFormed(body);
      CompactIdempotent(body);
      var hash := HashOf(compact);
      if hash in byHash {
        var id := byHash[hash];
        SlotOf(items, byHash, hash);
        SameHashSameBody(items[id].value, compact);
        RefsOf(byHash, hashRefs, granted, hash);
        if hashRefs[hash] == MAX_REFS {
          return Err(InvalidInput("graph refcount overflow"));
        }
        RefsGrant(byHash, hashRefs, granted, hash);
        hashRefs := hashRefs[hash := hashRefs[hash] + 1];
        granted := granted + multiset{hash};
        return Ok(id);
      }
      ghost var before := items;
      CanonicalOf(compact);
      ghost var fits := HasSlot();
      var id := Place(Stored(compact, hash));
      if fits {
        SlotFilled(before, items, byHash, id, Stored(compact, hash));
      } else {
        IndexLost(items, byHash[hash := id], |before|);
      }
      RefsFirst(byHash, hashRefs, granted, hash, id);
      byHash := byHash[hash := id];
      hashRefs := hashRefs[hash := 1];
      granted := granted + multiset{hash};
      r := Ok(id);
    }

    /** Put a graph in the most recently freed slot, or in a fresh one. */
    method Place(graph: Stored) returns (id: u32)
      requires FreeExact(items, free)
      modifies this`items, this`free
      ensures FreeExact(items, free) && Stable(old(items), items)
      ensures old(HasSlot()) ==>
              id < |items| && items[id] == Some(graph) && (id < |old(items)| ==> old(items)[id].None?)
      ensures |items| == if |old(free)| > 0 then |old(items)| else |old(items)| + 1
      ensures |items| > |old(items)| ==> id == |old(items)| % SLOT_LIMIT && items[|old(items)|] == Some(graph)
      ensures forall i :: 0 <= i < |old(items)| && i != id ==> items[i] == old(items)[i]
      ensures !old(HasSlot()) ==> items == old(items) + [Some(graph)] && old(items)[id].Some?
    {
      if |free| > 0 {
        id := free[|free| - 1];
        assert id in free;
        TakeFree(items, free, graph);
        free := free[..|free| - 1];
        items := items[id := Some(graph)];
      } else {
        id := |items| % SLOT_LIMIT;
        assert id < |items| ==> id !in free;
        items := items + [Some(graph)];
      }
    }

    /** `retain_hash`: one more reference to a stored graph, if it is stored. */
    method RetainHash(hash: GraphHash) returns (r: Result<Option<u32>, EngineError>)
      requires Valid()
      modifies this`hashRefs, this`granted
      ensures Valid()
      ensures hash !in byHash ==> r == Ok(None) && granted == old(granted)
      ensures hash in byHash && old(granted[hash]) == MAX_REFS ==> r == Err(Internal(5)) && granted == old(granted)
      ensures hash in byHash && old(granted[hash]) != MAX_REFS ==>
                r == Ok(Some(byHash[hash])) && granted == old(granted) + multiset{hash}
    {
      hide SlotsCanonical, SlotsIndexed, FreeExact, RefsExact;
      if hash !in byHash {
        return Ok(None);
      }
      RefsOf(byHash, hashRefs, granted, hash);
      if hashRefs[hash] == MAX_REFS {
        return Err(Internal(5));
      }
      RefsGrant(byHash, hashRefs, granted, hash);
      hashRefs := hashRefs[hash := hashRefs[hash] + 1];
      granted := granted + multiset{hash};
      r := Ok(Some(byHash[hash]));
    }

    /**
     * `release_protected`: give one reference back; the last one empties the slot, except that the last
     * reference of the protected graph is refused.
     */
    method ReleaseProtected(id: u32, protected: u32) returns (r: Result<(GraphHash, bool), EngineError>)
      requires Valid()
      modifies this
      ensures Valid()
      ensures r.Err? ==> items == old(items) && granted == old(granted)
      ensures r == Err(UnknownGraph) <==> !(id < |old(items)| && old(items)[id].Some?)
      ensures r == Err(Internal(4)) <==>
                id < |old(items)| && old(items)[id].Some? && id == protected
                && old(granted)[old(items)[id].value.hash] == 1
      ensures r.Err? ==> r.error == UnknownGraph || r.error == Internal(4)
      ensures r.Ok? ==>
                && id < |old(items)| && old(items)[id].Some?
                && r.value.0 == old(items)[id].value.hash && r.value.0 in old(granted)
                && granted == old(granted) - multiset{r.value.0}
                && (r.value.1 <==> r.value.0 !in granted)
                && items == if r.value.1 then old(items)[id := None] else old(items)
    {
      hide SlotsCanonical, SlotsIndexed, FreeExact, RefsExact, Canonical;
      if id >= |items| || items[id].None? {
        return Err(UnknownGraph);
      }
      var hash := items[id].value.hash;
      SlotEmptied(items, byHash, id);
      RefsOf(byHash, hashRefs, granted, hash);
      if hashRefs[hash] > 1 {
        RefsDrop(byHash, hashRefs, granted, hash);
        hashRefs := hashRefs[hash := hashRefs[hash] - 1];
        granted := granted - multiset{hash};
        return Ok((hash, false));
      }
      if id == protected {
        return Err(Internal(4));
      }
      GiveFree(items, free, id);
      RefsLast(byHash, hashRefs, granted, hash);
      items := items[id := None];
      free := free + [id];
      hashRefs := hashRefs - {hash};
      byHash := byHash - {hash};
      granted := granted - multiset{hash};
      r := Ok((hash, true));
    }
  }

  lemma CanonicalOf(body: GraphBody)
    requires WellFormed(body) && Compact(body) == Ok(body)
    ensures Canonical(Stored(body, HashOf(body)))
  {
  }

  /** Two canonical graphs with one hash are one graph. */
  lemma SameHashSameBody(s: Stored, body: GraphBody)
    requires Canonical(s) && WellFormed(body) && s.hash == HashOf(body)
    ensures s.body == body
  {
    BodyOfHash(s.body);
    BodyOfHash(body);
  }

  lemma TakeFree<T>(items: seq<Option<T>>, free: seq<u32>, value: T)
    requires FreeExact(items, free) && |free| > 0
    ensures free[|free| - 1] < |items| && items[free[|free| - 1]].None?
    ensures FreeExact(items[free[|free| - 1] := Some(value)], free[..|free| - 1])
  {
    var id, rest := free[|free| - 1], free[..|free| - 1];
    assert id in free;
    forall i: nat
      ensures i in rest <==> i in free && i != id
    {
      if i in rest {
        var k :| 0 <= k < |rest| && rest[k] == i;
        assert free[k] == i;
      }
      if i in free && i != id {
        var k :| 0 <= k < |free| && free[k] == i;
        assert rest[k] == i;
      }
    }
  }

  lemma GiveFree<T>(items: seq<Option<T>>, free: seq<u32>, id: u32)
    requires FreeExact(items, free) && id < |items| && items[id].Some?
    ensures FreeExact(items[id := None], free + [id])
  {
  }
}

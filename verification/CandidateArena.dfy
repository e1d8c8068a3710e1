/** The reference-counted store of candidate handles and the record batches behind them. */
module CandidateArenas {
  import opened Basics
  import opened Graphs
  import opened Rules
  import opened GraphArenas

  datatype Location = Location(batch: u32, record: u32)

  /** A handle slot; an empty one has no location and no references. */
  datatype Handle = Handle(location: Location, refs: u32)

  datatype Batch = Batch(graphHash: GraphHash, records: seq<RawCandidate>, liveHandles: nat)

  /** What a live handle denotes. */
  datatype Entry = Entry(graphHash: GraphHash, raw: RawCandidate)

  type Handles = seq<Option<Handle>>
  type Batches = seq<Option<Batch>>

  /** Every live handle points at a record of a live batch. */
  ghost predicate Located(handles: Handles, batches: Batches)
  {
    forall i: nat :: i < |handles| && handles[i].Some? ==> LocatedAt(handles, batches, i)
  }

  ghost predicate LocatedAt(handles: Handles, batches: Batches, i: nat)
    requires i < |handles| && handles[i].Some?
  {
    var at := handles[i].value.location;
    && handles[i].value.refs >= 1
    && at.batch < |batches| && batches[at.batch].Some?
    && at.record < |batches[at.batch].value.records|
  }

  /** The live handles of a batch. */
  ghost function HandlesOf(handles: Handles, b: nat): set<nat>
  {
    set i: nat | i < |handles| && handles[i].Some? && handles[i].value.location.batch == b
  }

  /** A batch lives exactly while it has live handles, and knows how many. */
  ghost predicate BatchesCounted(handles: Handles, batches: Batches)
  {
    forall b: nat :: b < |batches| && batches[b].Some? ==> CountedAt(handles, batches, b)
  }

  ghost predicate CountedAt(handles: Handles, batches: Batches, b: nat)
    requires b < |batches| && batches[b].Some?
  {
    batches[b].value.liveHandles == |HandlesOf(handles, b)| >= 1
  }

  ghost predicate ArenaValid(handles: Handles, freeHandles: seq<u32>, batches: Batches, freeBatches: seq<u32>)
  {
    && Located(handles, batches)
    && BatchesCounted(handles, batches)
    && FreeExact(handles, freeHandles)
    && FreeExact(batches, freeBatches)
  }

  /** The entry behind a handle. */
  ghost function EntryOf(handles: Handles, batches: Batches, id: nat): Option<Entry>
    requires Located(handles, batches)
  {
    if id >= |handles| || handles[id].None? then None
    else
      assert LocatedAt(handles, batches, id);
      var at := handles[id].value.location;
      var batch := batches[at.batch].value;
      Some(Entry(batch.graphHash, batch.records[at.record]))
  }

  ghost function HandleRefs(handles: Handles, id: nat): nat
  {
    if id >= |handles| || handles[id].None? then 0 else handles[id].value.refs
  }

  // ---- releasing a handle ------------------------------------------------------------------

  lemma HandlesWithout(handles: Handles, id: nat, b: nat)
    requires id < |handles| && handles[id].Some?
    ensures HandlesOf(handles[id := None], b) == HandlesOf(handles, b) - {id}
    ensures id in HandlesOf(handles, b) <==> handles[id].value.location.batch == b
  {
  }

  /** The batch table after one of its handles is gone: the count falls, and at zero the batch goes too. */
  ghost function BatchesWithout(handles: Handles, batches: Batches, id: nat): Batches
    requires Located(handles, batches) && id < |handles| && handles[id].Some?
  {
    assert LocatedAt(handles, batches, id);
    var b := handles[id].value.location.batch;
    var batch := batches[b].value;
    batches[b := if batch.liveHandles <= 1 then None else Some(batch.(liveHandles := batch.liveHandles - 1))]
  }

  lemma CountedWithout(handles: Handles, batches: Batches, id: nat, b: nat)
    requires Located(handles, batches) && BatchesCounted(handles, batches) && id < |handles| && handles[id].Some?
    requires b < |batches| && BatchesWithout(handles, batches, id)[b].Some?
    ensures CountedAt(handles[id := None], BatchesWithout(handles, batches, id), b)
  {
    assert LocatedAt(handles, batches, id);
    assert CountedAt(handles, batches, b);
    HandlesWithout(handles, id, b);
  }

  /** A batch loses its last handle only when no other handle points at it. */
  lemma OthersStayLocated(handles: Handles, batches: Batches, id: nat, i: nat)
    requires Located(handles, batches) && BatchesCounted(handles, batches)
    requires id < |handles| && handles[id].Some? && i < |handles| && i != id && handles[i].Some?
    ensures LocatedAt(handles[id := None], BatchesWithout(handles, batches, id), i)
  {
    assert LocatedAt(handles, batches, id) && LocatedAt(handles, batches, i);
    var b := handles[id].value.location.batch;
    if handles[i].value.location.batch == b {
      assert CountedAt(handles, batches, b);
      assert i in HandlesOf(handles, b) - {id};
      assert |HandlesOf(handles, b) - {id}| == |HandlesOf(handles, b)| - 1;
    }
  }

  lemma ReleaseKeepsArena(handles: Handles, batches: Batches, id: nat)
    requires Located(handles, batches) && BatchesCounted(handles, batches) && id < |handles| && handles[id].Some?
    ensures Located(handles[id := None], BatchesWithout(handles, batches, id))
    ensures BatchesCounted(handles[id := None], BatchesWithout(handles, batches, id))
    ensures forall i: nat :: i != id ==>
              EntryOf(handles[id := None], BatchesWithout(handles, batches, id), i) == EntryOf(handles, batches, i)
  {
    var h, c := handles[id := None], BatchesWithout(handles, batches, id);
    forall i: nat | i < |h| && h[i].Some? ensures LocatedAt(h, c, i) { OthersStayLocated(handles, batches, id, i); }
    forall b: nat | b < |c| && c[b].Some? ensures CountedAt(h, c, b) { CountedWithout(handles, batches, id, b); }
    forall i: nat | i != id
      ensures EntryOf(h, c, i) == EntryOf(handles, batches, i)
    {
      if i < |h| && h[i].Some? { assert LocatedAt(h, c, i) && LocatedAt(handles, batches, i); }
    }
  }

  // ---- adding a handle ---------------------------------------------------------------------

  /** `id` was free and now refers to `at` once; every other handle slot is as before. */
  ghost predicate HandleAdded(before: Handles, after: Handles, id: nat, at: Location)
  {
    && |before| <= |after| <= |before| + 1 && id < |after|
    && (id < |before| ==> before[id].None?) && (|after| > |before| ==> id == |before|)
    && after[id] == Some(Handle(at, 1))
    && forall i: nat :: i < |before| && i != id ==> after[i] == before[i]
  }

  lemma HandlesWith(before: Handles, after: Handles, id: nat, at: Location, b: nat)
    requires HandleAdded(before, after, id, at)
    ensures HandlesOf(after, b) == HandlesOf(before, b) + (if at.batch == b then {id} else {})
    ensures id !in HandlesOf(before, b)
  {
  }

  lemma AddKeepsLocated(before: Handles, after: Handles, batches: Batches, id: nat, at: Location)
    requires HandleAdded(before, after, id, at) && Located(before, batches)
    requires at.batch < |batches| && batches[at.batch].Some? && at.record < |batches[at.batch].value.records|
    ensures Located(after, batches)
    ensures EntryOf(after, batches, id) ==
            Some(Entry(batches[at.batch].value.graphHash, batches[at.batch].value.records[at.record]))
    ensures forall i: nat :: i != id ==> EntryOf(after, batches, i) == EntryOf(before, batches, i)
  {
    forall i: nat | i < |after| && after[i].Some?
      ensures LocatedAt(after, batches, i)
    {
      if i != id { assert LocatedAt(before, batches, i); }
    }
  }

  /** A fresh batch in an empty or new slot: no handle points there yet. */
  ghost predicate BatchAdded(before: Batches, after: Batches, b: nat, batch: Batch)
  {
    && |before| <= |after| <= |before| + 1 && b < |after|
    && (b < |before| ==> before[b].None?) && (|after| > |before| ==> b == |before|)
    && after[b] == Some(batch)
    && forall i: nat :: i < |before| && i != b ==> after[i] == before[i]
  }

  lemma BatchKeepsLocated(handles: Handles, before: Batches, after: Batches, b: nat, batch: Batch)
    requires BatchAdded(before, after, b, batch) && Located(handles, before)
    ensures Located(handles, after) && HandlesOf(handles, b) == {}
    ensures forall i: nat :: EntryOf(handles, after, i) == EntryOf(handles, before, i)
  {
    forall i: nat | i < |handles| && handles[i].Some?
      ensures LocatedAt(handles, after, i) && handles[i].value.location.batch != b
    {
      assert LocatedAt(handles, before, i);
    }
  }

  /** Counts are right for every batch but `b`, which has `k` handles so far. */
  ghost predicate CountedExcept(handles: Handles, batches: Batches, b: nat, k: nat)
  {
    && |HandlesOf(handles, b)| == k
    && forall c: nat :: c < |batches| && c != b && batches[c].Some? ==> CountedAt(handles, batches, c)
  }

  lemma AddKeepsCounted(before: Handles, after: Handles, batches: Batches, id: nat, at: Location, k: nat)
    requires HandleAdded(before, after, id, at) && CountedExcept(before, batches, at.batch, k)
    ensures CountedExcept(after, batches, at.batch, k + 1)
  {
    HandlesWith(before, after, id, at, at.batch);
    forall c: nat | c < |batches| && c != at.batch && batches[c].Some?
      ensures CountedAt(after, batches, c)
    {
      assert CountedAt(before, batches, c);
      HandlesWith(before, after, id, at, c);
    }
  }

  lemma BatchKeepsCounted(handles: Handles, before: Batches, after: Batches, b: nat, batch: Batch)
    requires BatchAdded(before, after, b, batch) && BatchesCounted(handles, before) && HandlesOf(handles, b) == {}
    ensures CountedExcept(handles, after, b, 0)
  {
    forall c: nat | c < |after| && c != b && after[c].Some?
      ensures CountedAt(handles, after, c)
    {
      assert CountedAt(handles, before, c);
    }
  }

  /** Changing only the reference count of a live handle. */
  lemma RecountKeepsArena(handles: Handles, batches: Batches, id: nat, refs: u32)
    requires Located(handles, batches) && BatchesCounted(handles, batches)
    requires id < |handles| && handles[id].Some? && refs >= 1
    ensures var h := handles[id := Some(handles[id].value.(refs := refs))];
            && Located(h, batches) && BatchesCounted(h, batches)
            && forall i: nat :: EntryOf(h, batches, i) == EntryOf(handles, batches, i)
  {
    var h := handles[id := Some(handles[id].value.(refs := refs))];
    forall i: nat | i < |h| && h[i].Some?
      ensures LocatedAt(h, batches, i)
    {
      assert LocatedAt(handles, batches, i);
    }
    forall b: nat | b < |batches| && batches[b].Some?
      ensures CountedAt(h, batches, b)
    {
      assert CountedAt(handles, batches, b);
      assert HandlesOf(h, b) == HandlesOf(handles, b);
    }
  }

  // ---- the arena ---------------------------------------------------------------------------

  /** How many 32-bit indices are left after the first `n`. */
  function IndicesLeft(n: nat): nat
  {
    if n < SLOT_LIMIT then SLOT_LIMIT - n else 0
  }

  class CandidateArena {
    var handles: Handles
    var freeHandles: seq<u32>
    var batches: Batches
    var freeBatches: seq<u32>

    ghost predicate Valid()
      reads this
    {
      ArenaValid(handles, freeHandles, batches, freeBatches)
    }

    /** What the arena looks like from outside: the entry and the reference count of a handle. */
    ghost function Denotes(id: nat): Option<Entry>
      requires Valid()
      reads this
    {
      EntryOf(handles, batches, id)
    }

    ghost function Refs(id: nat): nat
      reads this
    {
      HandleRefs(handles, id)
    }

    constructor ()
      ensures Valid() && handles == [] && batches == []
    {
      handles, freeHandles, batches, freeBatches := [], [], [], [];
    }

    /** How many more handles there are indices for. */
    ghost function HandleRoom(): nat
      reads this`handles, this`freeHandles
    {
      |freeHandles| + IndicesLeft(|handles|)
    }

    /** `insert_handle`: reuse the most recently freed slot, or append one while there are indices. */
    method InsertHandle(at: Location) returns (r: Result<u32, EngineError>)
      requires FreeExact(handles, freeHandles)
      modifies this`handles, this`freeHandles
      ensures FreeExact(handles, freeHandles)
      ensures r.Err? <==> old(HandleRoom()) == 0
      ensures r.Err? ==> r.error == Internal(7) && handles == old(handles) && freeHandles == old(freeHandles)
      ensures r.Ok? ==> HandleAdded(old(handles), handles, r.value, at) && HandleRoom() == old(HandleRoom()) - 1
    {
      if |freeHandles| > 0 {
        var id := freeHandles[|freeHandles| - 1];
        TakeFree(handles, freeHandles, Handle(at, 1));
        freeHandles := freeHandles[..|freeHandles| - 1];
        handles := handles[id := Some(Handle(at, 1))];
        r := Ok(id);
      } else {
        if |handles| >= SLOT_LIMIT {
          return Err(Internal(7));
        }
        r := Ok(|handles|);
        handles := handles + [Some(Handle(at, 1))];
      }
    }

    /** There is an index for one more batch. */
    predicate HasBatchSlot()
      reads this`batches, this`freeBatches
    {
      |freeBatches| > 0 || |batches| < SLOT_LIMIT
    }

    method InsertRecords(batch: Batch) returns (b: u32)
      requires FreeExact(batches, freeBatches) && HasBatchSlot()
      modifies this`batches, this`freeBatches
      ensures FreeExact(batches, freeBatches) && BatchAdded(old(batches), batches, b, batch)
    {
      if |freeBatches| > 0 {
        b := freeBatches[|freeBatches| - 1];
        TakeFree(batches, freeBatches, batch);
        freeBatches := freeBatches[..|freeBatches| - 1];
        batches := batches[b := Some(batch)];
      } else {
        b := |batches|;
        batches := batches + [Some(batch)];
      }
    }

    /** There are indices for a batch of this many records and all its handles. */
    ghost predicate HasRoom(records: nat)
      reads this
    {
      records > 0 ==> records < SLOT_LIMIT && HasBatchSlot() && records <= HandleRoom()
    }

    /**
     * `insert_batch`: one fresh handle per record, each with one reference; no other handle changes. It fails
     * exactly when an index runs out. If that is a handle's, the handles made so far stay behind under a
     * batch that counts too many, so the arena is no longer consistent.
     */
    method InsertBatch(graphHash: GraphHash, raw: seq<RawCandidate>) returns (r: Result<seq<u32>, EngineError>)
      requires Valid()
      modifies this
      ensures r.Ok? <==> old(HasRoom(|raw|))
      ensures r.Err? ==> r.error == Internal(7) && Stable(old(handles), handles)
      ensures Valid() <==> r.Ok? || |raw| >= SLOT_LIMIT || !old(HasBatchSlot())
      ensures r.Err? && Valid() ==> handles == old(handles) && batches == old(batches)
      ensures r.Ok? ==>
                && |r.value| == |raw| && NoRepeats(r.value)
                && (forall k :: 0 <= k < |raw| ==>
                      && Denotes(r.value[k]) == Some(Entry(graphHash, raw[k]))
                      && Refs(r.value[k]) == 1 && old(Refs(r.value[k])) == 0)
                && forall i: nat :: i !in r.value ==> Denotes(i) == old(Denotes(i)) && Refs(i) == old(Refs(i))
    {
      if raw == [] {
        return Ok([]);
      }
      if |raw| >= SLOT_LIMIT || (|freeBatches| == 0 && |batches| >= SLOT_LIMIT) {
        return Err(Internal(7));
      }
      ghost var handles0, batches0, room := handles, batches, HandleRoom();
      var batch := Batch(graphHash, raw, |raw|);
      var b := InsertRecords(batch);
      BatchKeepsLocated(handles, batches0, batches, b, batch);
      BatchKeepsCounted(handles, batches0, batches, b, batch);
      var ids: seq<u32> := [];
      for k := 0 to |raw|
        invariant |ids| == k && NoRepeats(ids) && k <= room && HandleRoom() == room - k
        invariant FreeExact(handles, freeHandles) && FreeExact(batches, freeBatches)
        invariant BatchAdded(batches0, batches, b, batch) && Stable(handles0, handles)
        invariant Located(handles, batches) && CountedExcept(handles, batches, b, k)
        invariant forall j :: 0 <= j < k ==>
                    && EntryOf(handles, batches, ids[j]) == Some(Entry(graphHash, raw[j]))
                    && HandleRefs(handles, ids[j]) == 1 && HandleRefs(handles0, ids[j]) == 0
        invariant forall i: nat :: i !in ids ==>
                    && EntryOf(handles, batches, i) == EntryOf(handles0, batches0, i)
                    && HandleRefs(handles, i) == HandleRefs(handles0, i)
      {
        ghost var before := handles;
        var at := Location(b, k);
        var inserted := InsertHandle(at);
        if inserted.Err? {
          assert !CountedAt(handles, batches, b);
          return Err(inserted.error);
        }
        var id := inserted.value;
        AddKeepsLocated(before, handles, batches, id, at);
        AddKeepsCounted(before, handles, batches, id, at, k);
        assert HandleRefs(before, id) == 0;
        ids := ids + [id];
      }
      assert CountedAt(handles, batches, b);
      r := Ok(ids);
    }

    /** `retain`: one more reference to a live handle. */
    method Retain(id: u32) returns (r: Result<(), EngineError>)
      requires Valid()
      modifies this`handles
      ensures Valid()
      ensures r == Err(UnknownCandidate) <==> old(Refs(id)) == 0
      ensures r.Err? ==> handles == old(handles)
      ensures r.Err? && r.error != UnknownCandidate ==> r.error == Internal(6) && old(Refs(id)) == MAX_REFS
      ensures r.Ok? ==> Refs(id) == old(Refs(id)) + 1
      ensures forall i: nat :: Denotes(i) == old(Denotes(i)) && (i != id ==> Refs(i) == old(Refs(i)))
      ensures |handles| == |old(handles)|
    {
      if id >= |handles| || handles[id].None? {
        return Err(UnknownCandidate);
      }
      assert LocatedAt(handles, batches, id);
      var handle := handles[id].value;
      if handle.refs == MAX_REFS {
        return Err(Internal(6));
      }
      RecountKeepsArena(handles, batches, id, handle.refs + 1);
      handles := handles[id := Some(handle.(refs := handle.refs + 1))];
      r := Ok(());
    }

    /** `get`. */
    method Get(id: u32) returns (entry: Option<Entry>)
      requires Valid()
      ensures entry == Denotes(id)
      ensures entry.Some? <==> Refs(id) >= 1
    {
      if id >= |handles| || handles[id].None? {
        return None;
      }
      assert LocatedAt(handles, batches, id);
      var at := handles[id].value.location;
      var batch := batches[at.batch].value;
      entry := Some(Entry(batch.graphHash, batch.records[at.record]));
    }

    /**
     * `release`: give one reference back. The last one frees the handle and reports what it denoted; a batch
     * goes with its last handle.
     */
    method Release(id: u32) returns (r: Result<Option<Entry>, EngineError>)
      requires Valid()
      modifies this
      ensures Valid()
      ensures r == Err(UnknownCandidate) <==> old(Refs(id)) == 0
      ensures r.Err? ==> r.error == UnknownCandidate && Refs(id) == 0
      ensures r.Ok? ==> Refs(id) == old(Refs(id)) - 1
      ensures r.Ok? ==> r.value == if old(Refs(id)) == 1 then old(Denotes(id)) else None
      ensures r.Ok? ==> Denotes(id) == if old(Refs(id)) == 1 then None else old(Denotes(id))
      ensures forall i: nat :: i != id ==> Denotes(i) == old(Denotes(i)) && Refs(i) == old(Refs(i))
      ensures |handles| == |old(handles)| && |batches| == |old(batches)|
    {
      var candidate := Get(id);
      if candidate.None? {
        return Err(UnknownCandidate);
      }
      var handle := handles[id].value;
      if handle.refs > 1 {
        RecountKeepsArena(handles, batches, id, handle.refs - 1);
        handles := handles[id := Some(handle.(refs := handle.refs - 1))];
        return Ok(None);
      }
      r := Ok(candidate);
      Drop(id);
    }

    /** Free a handle and count its batch down. */
    method Drop(id: u32)
      requires Valid() && id < |handles| && handles[id].Some?
      modifies this
      ensures Valid() && handles == old(handles)[id := None]
      ensures batches == BatchesWithout(old(handles), old(batches), id)
      ensures forall i: nat :: i != id ==> Denotes(i) == old(Denotes(i))
    {
      assert LocatedAt(handles, batches, id);
      ReleaseKeepsArena(handles, batches, id);
      GiveFree(handles, freeHandles, id);
      var b := handles[id].value.location.batch;
      var batch := batches[b].value;
      assert CountedAt(handles, batches, b);
      handles := handles[id := None];
      freeHandles := freeHandles + [id];
      if batch.liveHandles - 1 == 0 {
        GiveFree(batches, freeBatches, b);
        batches := batches[b := None];
        freeBatches := freeBatches + [b];
      } else {
        batches := batches[b := Some(batch.(liveHandles := batch.liveHandles - 1))];
      }
    }
  }
}

/** The coordinator's artifact records, changed in place on admission and when a job leaves. */
module ArtifactStores {
  import opened Basics
  import opened Fleet
  import opened FleetProtocol
  import opened FleetArtifacts

  /** Records are filed under the digest of their bytes and are in use. */
  ghost predicate WellKept(artifacts: map<Digest, ArtifactRecord>)
  {
    forall d :: d in artifacts ==> artifacts[d].bytes == d.bytes && artifacts[d].references >= 1
  }

  lemma CountedIsWellKept(artifacts: map<Digest, ArtifactRecord>, used: multiset<Digest>)
    requires Counted(artifacts, used)
    ensures WellKept(artifacts)
  {
  }

  lemma DigestsStep(descriptors: seq<Descriptor>, i: nat)
    requires i < |descriptors|
    ensures DigestsOf(descriptors[..i + 1]) == DigestsOf(descriptors[..i]) + multiset{descriptors[i].digest}
  {
    assert descriptors[..i + 1][..i] == descriptors[..i];
  }

  /** How often each digest is requested: the first loop of `retain_artifacts`. */
  method CountRequested(descriptors: seq<Descriptor>) returns (requested: map<Digest, nat>)
    ensures requested.Keys == KeySet(DigestsOf(descriptors))
    ensures forall d :: d in requested ==> requested[d] == DigestsOf(descriptors)[d]
  {
    hide DigestsOf;
    requested := map[];
    assert DigestsOf([]) == multiset{} by { NoDigests(); }
    assert descriptors[..0] == [];
    for i := 0 to |descriptors|
      invariant requested.Keys == KeySet(DigestsOf(descriptors[..i]))
      invariant forall d :: d in requested ==> requested[d] == DigestsOf(descriptors[..i])[d]
    {
      DigestsStep(descriptors, i);
      var digest := descriptors[i].digest;
      var before := if digest in requested then requested[digest] else 0;
      requested := requested[digest := before + 1];
    }
    assert descriptors[..|descriptors|] == descriptors;
  }

  lemma NoDigests()
    ensures DigestsOf([]) == multiset{}
  {
  }

  lemma SizesOfNone()
    ensures Sizes({}) == 0
  {
  }

  class ArtifactStore {
    var artifacts: map<Digest, ArtifactRecord>
    var artifactBytes: nat

    constructor ()
      ensures artifacts == map[] && artifactBytes == 0
    {
      artifacts, artifactBytes := map[], 0;
    }

    /** What is not stored yet: the second loop of `retain_artifacts`. */
    method NewItems(requested: map<Digest, nat>) returns (items: nat, bytes: nat)
      ensures items == |requested.Keys - artifacts.Keys| && bytes == Sizes(requested.Keys - artifacts.Keys)
    {
      hide Sizes;
      items, bytes := 0, 0;
      var rest := requested.Keys;
      ghost var total := requested.Keys - artifacts.Keys;
      ghost var left := total;
      while rest != {}
        invariant forall d :: d in left <==> d in rest && d !in artifacts
        invariant items + |left| == |total| && bytes + Sizes(left) == Sizes(total)
        decreases rest
      {
        var d :| d in rest;
        rest := rest - {d};
        if d !in artifacts {
          SizesWithout(left, d);
          left := left - {d};
          items := items + 1;
          bytes := bytes + |d.bytes|;
        }
      }
      SizesOfNone();
      assert left == {};
    }

    /** The last loop of `retain_artifacts`. */
    method AddReferences(requested: map<Digest, nat>)
      requires WellKept(artifacts)
      modifies this`artifacts
      ensures artifacts.Keys == old(artifacts).Keys + requested.Keys
      ensures forall d :: d in artifacts ==>
                artifacts[d] ==
                ArtifactRecord(d.bytes, RefsIn(old(artifacts), d) + if d in requested then requested[d] else 0)
    {
      var rest := requested.Keys;
      while rest != {}
        invariant rest <= requested.Keys
        invariant artifacts.Keys == old(artifacts).Keys + (requested.Keys - rest)
        invariant forall d :: d in artifacts ==>
                    artifacts[d] ==
                    ArtifactRecord(
                      d.bytes, RefsIn(old(artifacts), d) + if d in requested && d !in rest then requested[d] else 0)
        decreases rest
      {
        var d :| d in rest;
        rest := rest - {d};
        var before := if d in artifacts then artifacts[d].references else 0;
        artifacts := artifacts[d := ArtifactRecord(d.bytes, before + requested[d])];
      }
    }

    /**
     * `retain_artifacts`: all references are taken, or, when a capacity would be exceeded, none.
     */
    method Retain(config: Config, descriptors: seq<Descriptor>) returns (error: Option<ServiceError>)
      requires WellKept(artifacts)
      modifies this
      ensures error.None? <==>
                && |old(artifacts).Keys + KeySet(DigestsOf(descriptors))| <= config.itemCapacity
                && old(artifactBytes) + Sizes(KeySet(DigestsOf(descriptors)) - old(artifacts).Keys)
                   <= config.byteCapacity
      ensures error.None? ==>
                && artifacts == Retained(old(artifacts), DigestsOf(descriptors))
                && artifactBytes == old(artifactBytes) + Sizes(KeySet(DigestsOf(descriptors)) - old(artifacts).Keys)
      ensures error.Some? ==> artifacts == old(artifacts) && artifactBytes == old(artifactBytes)
    {
      hide Sizes, KeySet, DigestsOf;
      var requested := CountRequested(descriptors);
      var items, bytes := NewItems(requested);
      UnionCard(artifacts.Keys, requested.Keys);
      if |artifacts| + items > config.itemCapacity {
        return Some(Capacity("artifact item capacity is full"));
      }
      if artifactBytes + bytes > config.byteCapacity {
        return Some(Capacity("artifact byte capacity is full"));
      }
      artifactBytes := artifactBytes + bytes;
      AddReferences(requested);
      RetainedIs(old(artifacts), DigestsOf(descriptors), requested, artifacts);
      error := None;
    }

    /** `release_artifact`: one reference back; the record goes with the last. */
    method ReleaseOne(digest: Digest)
      requires WellKept(artifacts)
      modifies this
      ensures WellKept(artifacts) && artifacts == Released(old(artifacts), multiset{digest})
      ensures artifactBytes == Less(old(artifactBytes), Sizes(old(artifacts).Keys - artifacts.Keys))
    {
      hide Sizes;
      SizesOfNone();
      if digest in artifacts {
        var record := artifacts[digest];
        if record.references > 1 {
          artifacts := artifacts[digest := record.(references := record.references - 1)];
          assert old(artifacts).Keys - artifacts.Keys == {};
        } else {
          SizesWithout({digest}, digest);
          assert {digest} - {digest} == {};
          artifacts := artifacts - {digest};
          assert old(artifacts).Keys - artifacts.Keys == {digest};
          artifactBytes := Less(artifactBytes, |record.bytes|);
        }
      } else {
        assert old(artifacts).Keys - artifacts.Keys == {};
      }
      assert artifacts == Released(old(artifacts), multiset{digest});
    }

    /** One reference back for every descriptor of a job. */
    method ReleaseAll(descriptors: seq<Descriptor>)
      requires WellKept(artifacts)
      modifies this
      ensures WellKept(artifacts) && artifacts == Released(old(artifacts), DigestsOf(descriptors))
      ensures artifactBytes == Less(old(artifactBytes), Sizes(old(artifacts).Keys - artifacts.Keys))
    {
      hide Sizes, DigestsOf, Released, WellKept;
      SizesOfNone();
      NoDigests();
      ReleasedNone(artifacts);
      assert descriptors[..0] == [];
      for i := 0 to |descriptors|
        invariant WellKept(artifacts) && artifacts == Released(old(artifacts), DigestsOf(descriptors[..i]))
        invariant artifactBytes == Less(old(artifactBytes), Sizes(old(artifacts).Keys - artifacts.Keys))
      {
        DigestsStep(descriptors, i);
        ghost var before := artifacts;
        ReleaseOne(descriptors[i].digest);
        ReleasedTwice(old(artifacts), DigestsOf(descriptors[..i]), descriptors[i].digest);
      }
      assert descriptors[..|descriptors|] == descriptors;
    }
  }

  lemma UnionCard<T>(a: set<T>, b: set<T>)
    ensures |a + b| == |a| + |b - a|
  {
    assert a + b == a + (b - a);
  }

  lemma RetainedIs(
    before: map<Digest, ArtifactRecord>, more: multiset<Digest>, requested: map<Digest, nat>,
    after: map<Digest, ArtifactRecord>)
    requires requested.Keys == KeySet(more) && forall d :: d in requested ==> requested[d] == more[d]
    requires after.Keys == before.Keys + requested.Keys
    requires forall d :: d in after ==>
               after[d] == ArtifactRecord(d.bytes, RefsIn(before, d) + if d in requested then requested[d] else 0)
    ensures after == Retained(before, more)
  {
  }

  lemma ReleasedNone(artifacts: map<Digest, ArtifactRecord>)
    requires WellKept(artifacts)
    ensures Released(artifacts, multiset{}) == artifacts && artifacts.Keys - artifacts.Keys == {}
  {
  }

  /** Releasing in two goes is releasing at once, in records and in bytes. */
  lemma ReleasedTwice(artifacts: map<Digest, ArtifactRecord>, less: multiset<Digest>, d: Digest)
    ensures Released(Released(artifacts, less), multiset{d}) == Released(artifacts, less + multiset{d})
    ensures forall bytes: nat ::
              Less(Less(bytes, Sizes(artifacts.Keys - Released(artifacts, less).Keys)),
                   Sizes(Released(artifacts, less).Keys - Released(artifacts, less + multiset{d}).Keys))
              == Less(bytes, Sizes(artifacts.Keys - Released(artifacts, less + multiset{d}).Keys))
  {
    hide Sizes;
    var once, twice := Released(artifacts, less), Released(artifacts, less + multiset{d});
    assert Released(once, multiset{d}) == twice;
    assert once.Keys <= artifacts.Keys && twice.Keys <= once.Keys;
    SizesUnion(artifacts.Keys - once.Keys, once.Keys - twice.Keys);
    assert (artifacts.Keys - once.Keys) + (once.Keys - twice.Keys) == artifacts.Keys - twice.Keys;
  }
}

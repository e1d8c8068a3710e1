/** Artifact accounting: reference counts against the open jobs, bytes against the stored digests. */
module FleetArtifacts {
  import opened Basics
  import opened Fleet
  import opened FleetProtocol

  /** Every digest, as often as the open jobs name it. */
  ghost function Occurrences(jobs: map<JobId, Job>): multiset<Digest>
  {
    if jobs == map[] then multiset{}
    else
      var j :| j in jobs;
      DigestsOf(jobs[j].descriptors) + Occurrences(jobs - {j})
  }

  /** The count does not depend on the order in which the jobs are visited. */
  lemma {:induction false} OccurrencesWithout(jobs: map<JobId, Job>, id: JobId)
    requires id in jobs
    ensures Occurrences(jobs) == DigestsOf(jobs[id].descriptors) + Occurrences(jobs - {id})
  {
    hide DigestsOf;
    var j :| j in jobs && Occurrences(jobs) == DigestsOf(jobs[j].descriptors) + Occurrences(jobs - {j});
    if j != id {
      OccurrencesWithout(jobs - {j}, id);
      OccurrencesWithout(jobs - {id}, j);
      assert jobs - {j} - {id} == jobs - {id} - {j};
      var rest := Occurrences(jobs - {j} - {id});
      Reorder(DigestsOf(jobs[j].descriptors), DigestsOf(jobs[id].descriptors), rest);
    }
  }

  lemma OccurrencesWith(jobs: map<JobId, Job>, id: JobId, job: Job)
    requires id !in jobs
    ensures Occurrences(jobs[id := job]) == Occurrences(jobs) + DigestsOf(job.descriptors)
  {
    OccurrencesWithout(jobs[id := job], id);
    assert jobs[id := job] - {id} == jobs;
  }

  /** A job that keeps its descriptors keeps every count. */
  lemma OccurrencesSame(jobs: map<JobId, Job>, id: JobId, job: Job)
    requires id in jobs && jobs[id].descriptors == job.descriptors
    ensures Occurrences(jobs[id := job]) == Occurrences(jobs)
  {
    OccurrencesWithout(jobs, id);
    OccurrencesWithout(jobs[id := job], id);
    assert jobs[id := job] - {id} == jobs - {id};
  }

  lemma {:induction false} SizesWithout(digests: set<Digest>, d: Digest)
    requires d in digests
    ensures Sizes(digests) == |d.bytes| + Sizes(digests - {d})
  {
    var e :| e in digests && Sizes(digests) == |e.bytes| + Sizes(digests - {e});
    if e != d {
      SizesWithout(digests - {e}, d);
      SizesWithout(digests - {d}, e);
      assert digests - {e} - {d} == digests - {d} - {e};
    }
  }

  lemma {:induction false} SizesUnion(a: set<Digest>, b: set<Digest>)
    requires a !! b
    ensures Sizes(a + b) == Sizes(a) + Sizes(b)
    decreases b
  {
    if b == {} {
      assert a + b == a;
    } else {
      var d :| d in b;
      SizesWithout(b, d);
      SizesWithout(a + b, d);
      assert a + b - {d} == a + (b - {d});
      SizesUnion(a, b - {d});
    }
  }

  /** One record per digest in use, counting its uses. */
  ghost predicate Counted(artifacts: map<Digest, ArtifactRecord>, used: multiset<Digest>)
  {
    && (forall d :: d in artifacts <==> d in used)
    && (forall d :: d in artifacts ==> artifacts[d] == ArtifactRecord(d.bytes, used[d]))
  }

  /** Reference counts are exact, and the byte total is the sum of the stored sizes. */
  ghost predicate ArtifactsExact(artifacts: map<Digest, ArtifactRecord>, bytes: nat, used: multiset<Digest>)
  {
    Counted(artifacts, used) && bytes == Sizes(artifacts.Keys)
  }

  ghost predicate ArtifactsWithin(c: Config, artifacts: map<Digest, ArtifactRecord>, bytes: nat)
  {
    |artifacts| <= c.itemCapacity && bytes <= c.byteCapacity
  }

  lemma RetainedCounted(artifacts: map<Digest, ArtifactRecord>, used: multiset<Digest>, more: multiset<Digest>)
    requires Counted(artifacts, used)
    ensures Counted(Retained(artifacts, more), used + more)
  {
    forall d: Digest
      ensures RefsIn(artifacts, d) == used[d]
    {
      assert d in artifacts <==> d in used;
    }
  }

  lemma ReleasedCounted(artifacts: map<Digest, ArtifactRecord>, used: multiset<Digest>, less: multiset<Digest>)
    requires Counted(artifacts, used + less)
    ensures Counted(Released(artifacts, less), used)
  {
    forall d: Digest
      ensures RefsIn(artifacts, d) == used[d] + less[d]
    {
      assert d in artifacts <==> d in used + less;
    }
  }

  lemma RetainedKeys(artifacts: map<Digest, ArtifactRecord>, more: multiset<Digest>)
    ensures Retained(artifacts, more).Keys == artifacts.Keys + KeySet(more)
            == artifacts.Keys + (KeySet(more) - artifacts.Keys)
    ensures |Retained(artifacts, more)| == |artifacts.Keys + KeySet(more)|
  {
    hide KeySet, RefsIn;
    assert |Retained(artifacts, more)| == |Retained(artifacts, more).Keys|;
  }

  lemma RetainedWithin(c: Config, s: State, more: multiset<Digest>)
    requires Fits(c, s, more)
    ensures ArtifactsWithin(c, Retained(s.artifacts, more), s.artifactBytes + Sizes(KeySet(more) - s.artifacts.Keys))
  {
    hide Sizes, KeySet, Retained;
    RetainedKeys(s.artifacts, more);
  }

  lemma RetainedExact(artifacts: map<Digest, ArtifactRecord>, bytes: nat, used: multiset<Digest>,
                      more: multiset<Digest>)
    requires ArtifactsExact(artifacts, bytes, used)
    ensures ArtifactsExact(Retained(artifacts, more), bytes + Sizes(KeySet(more) - artifacts.Keys), used + more)
  {
    hide Sizes, Counted, KeySet, Retained;
    RetainedCounted(artifacts, used, more);
    RetainedKeys(artifacts, more);
    SizesUnion(artifacts.Keys, KeySet(more) - artifacts.Keys);
  }

  lemma ReleasedExact(c: Config, artifacts: map<Digest, ArtifactRecord>, bytes: nat, used: multiset<Digest>,
                      less: multiset<Digest>)
    requires ArtifactsExact(artifacts, bytes, used + less) && ArtifactsWithin(c, artifacts, bytes)
    ensures var left := Released(artifacts, less);
            var bytes' := Less(bytes, Sizes(artifacts.Keys - left.Keys));
            ArtifactsExact(left, bytes', used) && ArtifactsWithin(c, left, bytes')
  {
    hide Sizes, Counted;
    ReleasedCounted(artifacts, used, less);
    var left := Released(artifacts, less);
    assert left.Keys <= artifacts.Keys;
    hide Released;
    SizesUnion(left.Keys, artifacts.Keys - left.Keys);
    assert left.Keys + (artifacts.Keys - left.Keys) == artifacts.Keys;
    assert |artifacts.Keys| == |left.Keys| + |artifacts.Keys - left.Keys|;
    assert |left| == |left.Keys| && |artifacts| == |artifacts.Keys|;
  }
}

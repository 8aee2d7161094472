/** The replicas and nodes that a JobSet asks for, in 32-bit arithmetic. */
module Replicas {
  import opened MachineInts
  import opened Wrappers
  import opened Events

  datatype ReplicatedJob = ReplicatedJob(replicas: int32, parallelism: Option<int32>)

  function Total(counts: seq<int>): int {
    if counts == [] then 0 else Total(DropLast(counts)) + Last(counts)
  }

  /** Each replica of a job runs on as many nodes as its parallelism says, by default on one. */
  function NodesOf(job: ReplicatedJob): int {
    job.replicas * if job.parallelism.Some? then job.parallelism.value else 1
  }

  function SpecReplicas(jobs: seq<ReplicatedJob>): int32 {
    Wrap32(Total(seq(|jobs|, i requires 0 <= i < |jobs| => jobs[i].replicas as int)))
  }

  function ReadyReplicas(readyCounts: seq<int32>): int32 {
    Wrap32(Total(seq(|readyCounts|, i requires 0 <= i < |readyCounts| => readyCounts[i] as int)))
  }

  function ExpectedNodes(jobs: seq<ReplicatedJob>): int32 {
    Wrap32(Total(seq(|jobs|, i requires 0 <= i < |jobs| => NodesOf(jobs[i]))))
  }

  /** One more job adds its replicas, and on each of them as many nodes as its parallelism says, or one. */
  lemma OneMoreJob(jobs: seq<ReplicatedJob>, r: int32, p: int32)
    ensures SpecReplicas([]) == 0 && ExpectedNodes([]) == 0
    ensures forall job: ReplicatedJob :: job.replicas == r ==>
              SpecReplicas(jobs + [job]) == Wrap32(SpecReplicas(jobs) + r)
    ensures ExpectedNodes(jobs + [ReplicatedJob(r, None)]) == Wrap32(ExpectedNodes(jobs) + r)
    ensures ExpectedNodes(jobs + [ReplicatedJob(r, Some(p))]) == Wrap32(ExpectedNodes(jobs) + r * p)
  {
    forall job: ReplicatedJob | job.replicas == r
      ensures SpecReplicas(jobs + [job]) == Wrap32(SpecReplicas(jobs) + r)
    {
      TotalSnoc(seq(|jobs|, i requires 0 <= i < |jobs| => jobs[i].replicas as int), r,
                seq(|jobs + [job]|, i requires 0 <= i < |jobs + [job]| => (jobs + [job])[i].replicas as int));
    }
    forall job: ReplicatedJob
      ensures ExpectedNodes(jobs + [job]) == Wrap32(ExpectedNodes(jobs) + NodesOf(job))
    {
      TotalSnoc(seq(|jobs|, i requires 0 <= i < |jobs| => NodesOf(jobs[i])), NodesOf(job),
                seq(|jobs + [job]|, i requires 0 <= i < |jobs + [job]| => NodesOf((jobs + [job])[i])));
    }
  }

  lemma OneMoreReady(readyCounts: seq<int32>, r: int32)
    ensures ReadyReplicas([]) == 0
    ensures ReadyReplicas(readyCounts + [r]) == Wrap32(ReadyReplicas(readyCounts) + r)
  {
    var more := readyCounts + [r];
    TotalSnoc(seq(|readyCounts|, i requires 0 <= i < |readyCounts| => readyCounts[i] as int), r,
              seq(|more|, i requires 0 <= i < |more| => more[i] as int));
  }

  lemma TotalSnoc(counts: seq<int>, n: int, more: seq<int>)
    requires more == counts + [n]
    ensures Wrap32(Total(more)) == Wrap32(Wrap32(Total(counts)) + n)
  {
    assert DropLast(more) == counts;
    Wrap32Add(Total(counts), n);
  }

  /** Wrapping every product and every sum is as good as wrapping the total once. */
  lemma WrappedTotal(counts: seq<int>, i: nat)
    requires i < |counts|
    ensures Wrap32(Wrap32(Total(counts[..i])) + Wrap32(counts[i])) == Wrap32(Total(counts[..i + 1]))
    ensures MIN_INT32 <= counts[i] <= MAX_INT32 ==> Wrap32(counts[i]) == counts[i]
  {
    assert DropLast(counts[..i + 1]) == counts[..i];
    Wrap32Add(Total(counts[..i]), Wrap32(counts[i]));
    Wrap32Add(counts[i], Total(counts[..i]));
    WrapOfSmall(counts[i]);
  }

  method GetJobSetReplicas(jobs: seq<ReplicatedJob>, readyCounts: seq<int32>)
    returns (specReplicas: int32, readyReplicas: int32)
    ensures specReplicas == SpecReplicas(jobs) && readyReplicas == ReadyReplicas(readyCounts)
  {
    specReplicas, readyReplicas := 0, 0;
    ghost var replicas := seq(|jobs|, i requires 0 <= i < |jobs| => jobs[i].replicas as int);
    for i := 0 to |jobs|
      invariant specReplicas == Wrap32(Total(replicas[..i]))
    {
      WrappedTotal(replicas, i);
      specReplicas := Wrap32(specReplicas + jobs[i].replicas);
    }
    assert replicas[..|jobs|] == replicas;
    ghost var ready := seq(|readyCounts|, i requires 0 <= i < |readyCounts| => readyCounts[i] as int);
    for i := 0 to |readyCounts|
      invariant readyReplicas == Wrap32(Total(ready[..i]))
    {
      WrappedTotal(ready, i);
      readyReplicas := Wrap32(readyReplicas + readyCounts[i]);
    }
    assert ready[..|readyCounts|] == ready;
  }

  method GetExpectedNodeCount(jobs: seq<ReplicatedJob>) returns (count: int32)
    ensures count == ExpectedNodes(jobs)
  {
    count := 0;
    ghost var nodes := seq(|jobs|, i requires 0 <= i < |jobs| => NodesOf(jobs[i]));
    for i := 0 to |jobs|
      invariant count == Wrap32(Total(nodes[..i]))
    {
      var parallelism: int32 := 1;
      if jobs[i].parallelism.Some? {
        parallelism := jobs[i].parallelism.value;
      }
      WrappedTotal(nodes, i);
      count := Wrap32(count + Wrap32(jobs[i].replicas * parallelism));
    }
    assert nodes[..|jobs|] == nodes;
  }
}

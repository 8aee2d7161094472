/** Concrete inputs on which the program does not do what its documentation or its name suggests. */
module Witnesses {
  import opened MachineInts
  import opened Wrappers
  import opened Kubernetes
  import opened Events
  import opened SummaryLaws
  import opened Streams
  import opened UpnessThreshold
  import opened StateChanges
  import opened Runs
  import opened EventLog
  import opened Interleaving
  import opened NodeCounting
  import opened NodeOrder
  import Topology

  /******* A log that three polls produce, on which the report is wrong *******/

  /** A pool of one machine with four chips. */
  function SmallPool(status: string): NodePool {
    NodePool("pool", Some("2x2"), "ct5lp-hightpu-4t", status, NoAttrs)
  }

  function ItsNode(status: Status): Node {
    Node(Some("pool"), Some("2x2"), Some("4"), "", "", status)
  }

  /** What a poll counts when that pool and its node are all there is. */
  function Polled(pool: string, node: Status): Ups {
    CountedAll(ByPool, PoolUps([SmallPool(pool)]), [ItsNode(node)])
  }

  lemma SmallTopology()
    ensures Topology.ChipCount("2x2") == Ok(4)
  {
    var sides := ["2", "2"];
    assert sides[1..] == ["2"] && Topology.Join(sides, 'x') == "2x2";
    assert DropLast(sides) == ["2"] && DropLast(["2"]) == [];
    assert Topology.Value("2") == 2;
    assert Topology.NumeralProduct(["2"]) == 2;
    Topology.TopologyOfNumerals(sides);
  }

  lemma SmallMachine()
    ensures Topology.MachineChips("ct5lp-hightpu-4t") == Ok(4)
  {
    assert Topology.Value("4") == 4;
    Topology.MachineChipsOfNumeral("ct5lp-hightpu", "4");
    assert "ct5lp-hightpu" + "-" + ("4" + "t") == "ct5lp-hightpu-4t";
  }

  lemma SmallPoolSize(status: string)
    ensures PoolUpness(SmallPool(status)).Some?
    ensures PoolUpness(SmallPool(status)).value.expectedCount == 1
  {
    SmallTopology();
    SmallMachine();
    Topology.SizeIsQuotient(4, 4, 1);
  }

  lemma PolledCounts(pool: string, node: Status)
    ensures "pool" in Polled(pool, node)
    ensures var up := Polled(pool, node)["pool"];
            && up.expectedCount == 1 && up.readyCount == (if node.True? then 1 else 0)
            && up.unknownCount == (if node.Unknown? then 1 else 0)
            && up.expectedDown == (pool == "STOPPING" || pool == "DELETING")
            && up.failed == (pool == "ERROR" || pool == "RUNNING_WITH_ERROR")
  {
    SmallPoolSize(pool);
    PoolNodeCounts([SmallPool(pool)], [ItsNode(node)], 0);
    assert DropLast([ItsNode(node)]) == [];
  }

  /** The call asks for this event to be logged. */
  predicate Asks(call: Call, threshold: real, key: string, e: UpEvent) {
    key in call.ups && Observe(call.now, call.ups[key], threshold) == e
  }

  lemma PolledEvent(now: int, pool: string, node: Status, threshold: real)
    requires ValidThreshold(threshold) && !node.Unknown? && pool != "STOPPING" && pool != "DELETING"
    ensures Asks(Call(now, Polled(pool, node)), threshold, "pool",
                 UpEvent(node.True?, false, pool == "ERROR" || pool == "RUNNING_WITH_ERROR", now))
  {
    PolledCounts(pool, node);
    ObservedSingle(now, Polled(pool, node)["pool"], threshold);
  }

  /** A pool that comes up and then runs with an error. */
  function ThreePolls(): seq<Call> {
    [Call(0, Polled("RUNNING", False)), Call(1, Polled("RUNNING", True)), Call(4, Polled("RUNNING_WITH_ERROR", True))]
  }

  function ThreeEvents(): Log {
    [UpEvent(false, false, false, 0), UpEvent(true, false, false, 1), UpEvent(true, false, true, 4)]
  }

  lemma AskedIsStored(calls: seq<Call>, threshold: real, key: string, log: Log)
    requires |calls| == |log| && forall i :: 0 <= i < |calls| ==> Asks(calls[i], threshold, key, log[i])
    requires Deduplicated(log)
    ensures LogOf(Stored(Rounds(calls, threshold)), key) == log
  {
    var rounds := Rounds(calls, threshold);
    assert forall i :: 0 <= i < |rounds| ==> key in rounds[i] && rounds[i][key] == log[i];
    assert History(rounds, key) == log;
    StoredIsHistory(rounds, key);
    FoldOfDeduplicated(log);
  }

  lemma ThreePollsAsk(threshold: real, i: nat)
    requires ValidThreshold(threshold) && i < 3
    ensures Asks(ThreePolls()[i], threshold, "pool", ThreeEvents()[i])
  {
    if i == 0 {
      PolledEvent(0, "RUNNING", False, threshold);
    } else if i == 1 {
      PolledEvent(1, "RUNNING", True, threshold);
    } else {
      PolledEvent(4, "RUNNING_WITH_ERROR", True, threshold);
    }
  }

  /** Three polls of a real pool leave the log on which `FailedWhileUp` finds the summary wrong. */
  lemma ErrorPoolIsMisreported(threshold: real)
    requires ValidThreshold(threshold)
    ensures var log := LogOf(Stored(Rounds(ThreePolls(), threshold)), "pool");
            && log == ThreeEvents()
            && Summary(Ideal, log, 4).upTime == 0 && TimeIn(log, true, 4) == 3
            && Summary(Ideal, log, 4).recoveryCount == 1 && TrueRecoveries(log) == 0
  {
    forall i | 0 <= i < 3 ensures Asks(ThreePolls()[i], threshold, "pool", ThreeEvents()[i]) {
      ThreePollsAsk(threshold, i);
    }
    AskedIsStored(ThreePolls(), threshold, "pool", ThreeEvents());
    FailedWhileUp();
    FoldOfDeduplicated(ThreeEvents());
  }

  /******* A pool whose state depends on the order of the node list *******/

  /** A pool of four-chip machines on a topology of one chip: its size is zero. */
  function TinyPool(): NodePool {
    NodePool("pool", Some("1x1"), "ct5lp-hightpu-4t", "RUNNING", NoAttrs)
  }

  /** A ready node of it, labelled with the number of its chips or not. */
  function TinyNode(chips: Option<string>): Node {
    Node(Some("pool"), Some("1x1"), chips, "", "", True)
  }

  lemma TinyTopology()
    ensures Topology.ChipCount("1x1") == Ok(1)
  {
    var sides := ["1", "1"];
    assert sides[1..] == ["1"] && Topology.Join(sides, 'x') == "1x1";
    assert DropLast(sides) == ["1"] && DropLast(["1"]) == [];
    assert Topology.Value("1") == 1;
    assert Topology.NumeralProduct(["1"]) == 1;
    Topology.TopologyOfNumerals(sides);
  }

  lemma TinyPoolSize()
    ensures PoolUpness(TinyPool()) == Some(Upness(0, 0, 0, false, false, NoAttrs))
  {
    TinyTopology();
    SmallMachine();
    Topology.SizeIsQuotient(1, 4, 0);
  }

  lemma TinyPoolIsSizeless()
    ensures Sizeless(PoolUps([TinyPool()]), "pool")
    ensures !PoolUps([TinyPool()])["pool"].expectedDown
  {
    TinyPoolSize();
    PoolUpsAt([TinyPool()], 0);
  }

  lemma OneChip()
    ensures Topology.Atoi("1") == Ok(1)
  {
    assert Topology.Value("1") == 1;
    Topology.AtoiOfNumeral("1");
  }

  lemma TinyNodeSizes()
    ensures NodeSize(TinyNode(Some("1"))) == Ok(1) && NodeSize(TinyNode(None)).Err?
  {
    TinyTopology();
    OneChip();
    Topology.SizeIsQuotient(1, 1, 1);
  }

  lemma TinyNodesTell()
    ensures BlankAndSized("pool", TinyNode(None), TinyNode(Some("1")))
    ensures SizeTold(TinyNode(Some("1"))) == 1
  {
    TinyNodeSizes();
    WrapOfSmall(1);
  }

  /** What a poll counts for the pool when these are the nodes. */
  function TinyPolled(nodes: seq<Node>): Ups {
    CountedAll(ByPool, PoolUps([TinyPool()]), nodes)
  }

  /** The same two ready nodes: listed in one order the pool is up, in the other it is down. */
  lemma OrderDecidesState(now: int, threshold: real)
    requires ValidThreshold(threshold)
    ensures var blank, sized := TinyNode(None), TinyNode(Some("1"));
            var ups, ups' := TinyPolled([blank, sized]), TinyPolled([sized, blank]);
            && "pool" in ups && ups["pool"].readyCount == 1 && Observe(now, ups["pool"], threshold).up
            && "pool" in ups' && ups'["pool"].readyCount == 2 && !Observe(now, ups'["pool"], threshold).up
  {
    TinyPoolIsSizeless();
    TinyNodesTell();
    PairOfNodes(PoolUps([TinyPool()]), "pool", TinyNode(None), TinyNode(Some("1")), now, threshold);
  }

  lemma PairOfNodes(pools: Ups, key: string, blank: Node, sized: Node, now: int, threshold: real)
    requires ValidThreshold(threshold) && Sizeless(pools, key) && !pools[key].expectedDown
    requires BlankAndSized(key, blank, sized) && SizeTold(sized) == 1
    ensures var u, v := CountedAll(ByPool, pools, [blank, sized])[key], CountedAll(ByPool, pools, [sized, blank])[key];
            && u.readyCount == 1 && Observe(now, u, threshold).up
            && v.readyCount == 2 && !Observe(now, v, threshold).up
  {
    OrderMatters(pools, key, blank, sized);
    OneOfTwoIsUp(CountedAll(ByPool, pools, [blank, sized])[key],
                 CountedAll(ByPool, pools, [sized, blank])[key], now, threshold);
  }

  lemma OneOfTwoIsUp(u: Upness, v: Upness, now: int, threshold: real)
    requires ValidThreshold(threshold)
    requires u.expectedCount == v.expectedCount == 1 && u.unknownCount == v.unknownCount == 0
    requires u.readyCount == 1 && v.readyCount == 2 && !u.expectedDown
    ensures Observe(now, u, threshold).up && !Observe(now, v, threshold).up
  {
    MaxUnknownBounds(1, threshold);
  }

  /******* A batch that is not atomic *******/

  /** One JobSet, ready, and its one node, ready. */
  function TwoFiles(): map<File, Ups> {
    var ready := map["job" := Upness(1, 1, 0, false, false, NoAttrs)];
    map[JobSets := ready, JobSetNodes := ready]
  }

  lemma EmptyIsAltered(batch: Batch, f: File)
    requires f in batch && "job" in batch[f]
    ensures Alters(map[], batch, f)
  {
  }

  /** The first reconcile: a run that stops after the first file leaves the JobSet in the bucket without its nodes. */
  lemma FirstReconcileIsTorn(now: int, threshold: real) returns (trace: seq<Step>)
    ensures var batch := ObservedBatch(now, TwoFiles(), threshold);
            && Disciplined(trace) && HasStored(map[], trace, batch, {JobSets})
            && !AllOrNothing(map[], batch, {JobSets}) && !Atomic(map[], batch)
  {
    var batch := ObservedBatch(now, TwoFiles(), threshold);
    EmptyIsAltered(batch, JobSets);
    EmptyIsAltered(batch, JobSetNodes);
    trace := BatchIsRun(map[], batch, {JobSets}, Reconciler);
    OwnFilesOnly(trace, Reconciler, {JobSets});
    Torn(map[], batch, JobSets, JobSetNodes);
    NotAtomic(map[], batch, JobSets, JobSetNodes);
  }
}

/** Counting ready and unknown nodes per node pool and per JobSet. */
module NodeCounting {
  import opened MachineInts
  import opened Wrappers
  import opened Kubernetes
  import opened Events
  import opened UpnessThreshold
  import opened StateChanges
  import opened Replicas
  import Topology

  /** A node as its labels and its readiness describe it; absent JobSet labels read as "". */
  datatype Node = Node(
    pool: Option<string>,
    topology: Option<string>,
    acceleratorCount: Option<string>,
    jobSetNamespace: string,
    jobSetName: string,
    status: Status)

  datatype NodePool = NodePool(
    name: string,
    topology: Option<string>,
    machineType: string,
    status: string,
    attrs: Attrs)

  datatype JobSet = JobSet(
    uid: string,
    namespace: string,
    name: string,
    jobs: seq<ReplicatedJob>,
    readyCounts: seq<int32>,
    conditions: seq<Condition>,
    attrs: Attrs)

  /******* One counting step *******/

  /** What the nodes are counted for. */
  datatype Grouping = ByPool | ByJobSet(uids: map<string, string>)

  function UidKey(namespace: string, name: string): string {
    namespace + "/" + name
  }

  /** The key under which a node is counted, if any. */
  function OwnerIn(g: Grouping, node: Node): Option<string> {
    match g
    case ByPool => if node.topology.Some? then node.pool else None
    case ByJobSet(uids) =>
      var key := UidKey(node.jobSetNamespace, node.jobSetName);
      if node.jobSetNamespace != "" && node.jobSetName != "" && key in uids then Some(uids[key]) else None
  }

  function Bump(u: Upness, status: Status): Upness {
    match status
    case True => u.(readyCount := Wrap32(u.readyCount + 1))
    case Unknown => u.(unknownCount := Wrap32(u.unknownCount + 1))
    case False => u
  }

  function NodeSize(node: Node): Result<int> {
    if node.topology.None? || node.acceleratorCount.None? then Err
    else Topology.PoolSize(Topology.ChipCount(node.topology.value), Topology.Atoi(node.acceleratorCount.value))
  }

  /** A pool of which no size is known takes it from the node, or ignores the node. */
  function Counted(g: Grouping, ups: Ups, node: Node): (r: Ups)
    ensures r.Keys == ups.Keys
  {
    var owner := OwnerIn(g, node);
    if owner.None? || owner.value !in ups then ups
    else
      var up := ups[owner.value];
      if g.ByJobSet? || up.expectedCount != 0 then ups[owner.value := Bump(up, node.status)]
      else
        var size := NodeSize(node);
        if size.Err? then ups
        else ups[owner.value := Bump(up.(expectedCount := Wrap32(size.value)), node.status)]
  }

  function CountedAll(g: Grouping, ups: Ups, nodes: seq<Node>): (r: Ups)
    ensures r.Keys == ups.Keys
  {
    if nodes == [] then ups else Counted(g, CountedAll(g, ups, DropLast(nodes)), Last(nodes))
  }

  /******* What the counts are *******/

  predicate IsMatch(g: Grouping, node: Node, key: string, status: Status) {
    OwnerIn(g, node) == Some(key) && node.status == status
  }

  /** How many nodes of the list belong to the key and have the status. */
  function Matching(g: Grouping, nodes: seq<Node>, key: string, status: Status): (n: nat)
    ensures n <= |nodes|
  {
    if nodes == [] then 0
    else Matching(g, DropLast(nodes), key, status) + (if IsMatch(g, Last(nodes), key, status) then 1 else 0)
  }

  /** A node of a pool without a size is only counted if its labels tell one. */
  predicate Heeds(g: Grouping, size: int, node: Node) {
    g.ByJobSet? || size != 0 || NodeSize(node).Ok?
  }

  function NextSize(g: Grouping, size: int32, node: Node): int32 {
    if g.ByPool? && size == 0 && NodeSize(node).Ok? then Wrap32(NodeSize(node).value) else size
  }

  /** The expected count of the key once the nodes have been seen. */
  function SizeAfter(g: Grouping, size: int32, nodes: seq<Node>, key: string): int32 {
    if nodes == [] then size
    else
      var before := SizeAfter(g, size, DropLast(nodes), key);
      if OwnerIn(g, Last(nodes)) == Some(key) then NextSize(g, before, Last(nodes)) else before
  }

  /** How many of the matching nodes are counted. */
  function Heeded(g: Grouping, size: int32, nodes: seq<Node>, key: string, status: Status): nat {
    if nodes == [] then 0
    else
      var before, node := DropLast(nodes), Last(nodes);
      Heeded(g, size, before, key, status)
        + (if IsMatch(g, node, key, status) && Heeds(g, SizeAfter(g, size, before, key), node) then 1 else 0)
  }

  lemma CountedAt(g: Grouping, ups: Ups, node: Node, key: string)
    requires key in ups
    ensures var up, next := ups[key], NextSize(g, ups[key].expectedCount, node);
            Counted(g, ups, node)[key]
            == if IsCounted(g, up.expectedCount, node, key) then Bump(up.(expectedCount := next), node.status) else up
  {
  }

  /** `u` after `ready` and `unknown` more nodes. */
  function Raised(u: Upness, size: int32, ready: nat, unknown: nat): Upness {
    u.(expectedCount := size,
       readyCount := Wrap32(u.readyCount + ready), unknownCount := Wrap32(u.unknownCount + unknown))
  }

  lemma RaisedBump(u: Upness, size: int32, next: int32, ready: nat, unknown: nat, counted: bool, status: Status)
    ensures Raised(u, if counted then next else size,
                   ready + if counted && status.True? then 1 else 0,
                   unknown + if counted && status.Unknown? then 1 else 0)
         == if counted then Bump(Raised(u, size, ready, unknown).(expectedCount := next), status)
            else Raised(u, size, ready, unknown)
  {
    Wrap32Add(u.readyCount + ready, 1);
    Wrap32Add(u.unknownCount + unknown, 1);
  }

  predicate IsCounted(g: Grouping, size: int32, node: Node, key: string) {
    OwnerIn(g, node) == Some(key) && Heeds(g, size, node)
  }

  lemma HeededLast(g: Grouping, size: int32, nodes: seq<Node>, key: string, status: Status)
    requires nodes != []
    ensures var before, node, known := DropLast(nodes), Last(nodes), SizeAfter(g, size, DropLast(nodes), key);
            && Heeded(g, size, nodes, key, status)
            == Heeded(g, size, before, key, status)
               + (if IsCounted(g, known, node, key) && node.status == status then 1 else 0)
            && SizeAfter(g, size, nodes, key)
            == if IsCounted(g, known, node, key) then NextSize(g, known, node) else known
  {
  }

  lemma RaisedByNone(u: Upness)
    ensures Raised(u, u.expectedCount, 0, 0) == u
  {
  }

  /** The counts are exact, for every JobSet and every pool, modulo 2^32. */
  lemma {:induction false} CountsAreExact(g: Grouping, ups: Ups, nodes: seq<Node>, key: string)
    requires key in ups
    ensures var size := ups[key].expectedCount;
            CountedAll(g, ups, nodes)[key]
            == Raised(ups[key], SizeAfter(g, size, nodes, key),
                      Heeded(g, size, nodes, key, True), Heeded(g, size, nodes, key, Unknown))
  {
    if nodes == [] {
      RaisedByNone(ups[key]);
    } else {
      var before, node, size := DropLast(nodes), Last(nodes), ups[key].expectedCount;
      var known := SizeAfter(g, size, before, key);
      CountsAreExact(g, ups, before, key);
      CountedAt(g, CountedAll(g, ups, before), node, key);
      HeededLast(g, size, nodes, key, True);
      HeededLast(g, size, nodes, key, Unknown);
      RaisedBump(ups[key], known, NextSize(g, known, node), Heeded(g, size, before, key, True),
                 Heeded(g, size, before, key, Unknown), IsCounted(g, known, node, key), node.status);
    }
  }

  /** For a JobSet, and for a pool of known size, every matching node is counted. */
  lemma {:induction false} SizedHeedsAll(g: Grouping, size: int32, nodes: seq<Node>, key: string, status: Status)
    requires g.ByJobSet? || size != 0
    ensures SizeAfter(g, size, nodes, key) == size
    ensures Heeded(g, size, nodes, key, status) == Matching(g, nodes, key, status)
  {
    if nodes != [] {
      SizedHeedsAll(g, size, DropLast(nodes), key, status);
    }
  }

  lemma {:induction false} HeededMatch(g: Grouping, size: int32, nodes: seq<Node>, key: string, status: Status)
    ensures Heeded(g, size, nodes, key, status) <= Matching(g, nodes, key, status)
  {
    if nodes != [] {
      HeededMatch(g, size, DropLast(nodes), key, status);
    }
  }

  predicate TellsSize(node: Node) {
    NodeSize(node).Ok? && Wrap32(NodeSize(node).value) != 0
  }

  /** No node of the pool tells a size other than zero. */
  predicate Unsized(nodes: seq<Node>, key: string) {
    forall i :: 0 <= i < |nodes| && OwnerIn(ByPool, nodes[i]) == Some(key) ==> !TellsSize(nodes[i])
  }

  /** How many matching nodes have labels from which some size, be it zero, can be read. */
  function Readable(nodes: seq<Node>, key: string, status: Status): nat {
    if nodes == [] then 0
    else
      var node := Last(nodes);
      Readable(DropLast(nodes), key, status)
        + (if IsMatch(ByPool, node, key, status) && NodeSize(node).Ok? then 1 else 0)
  }

  /** A pool that never gets a size counts the nodes from which one can be read. */
  lemma {:induction false} UnsizedHeedsReadable(nodes: seq<Node>, key: string, status: Status)
    requires Unsized(nodes, key)
    ensures SizeAfter(ByPool, 0, nodes, key) == 0
    ensures Heeded(ByPool, 0, nodes, key, status) == Readable(nodes, key, status)
  {
    if nodes != [] {
      UnsizedHeedsReadable(DropLast(nodes), key, status);
      assert Last(nodes) == nodes[|nodes| - 1];
    }
  }

  lemma SplitBeforeLast<T>(s: seq<T>, i: nat)
    requires i < |s|
    ensures DropLast(s)[..i] == s[..i] && DropLast(s[i..]) == DropLast(s)[i..] && Last(s[i..]) == Last(s)
  {
  }

  lemma FirstSizeStarts(nodes: seq<Node>, key: string, status: Status)
    requires nodes != [] && OwnerIn(ByPool, Last(nodes)) == Some(key) && TellsSize(Last(nodes))
    requires Unsized(DropLast(nodes), key)
    ensures SizeAfter(ByPool, 0, nodes, key) == Wrap32(NodeSize(Last(nodes)).value)
    ensures Heeded(ByPool, 0, nodes, key, status)
         == Readable(DropLast(nodes), key, status) + Matching(ByPool, [Last(nodes)], key, status)
  {
    HeededLast(ByPool, 0, nodes, key, status);
    UnsizedHeedsReadable(DropLast(nodes), key, status);
    assert DropLast([Last(nodes)]) == [];
  }

  /** Once the size is known every matching node is counted. */
  lemma SizeStays(nodes: seq<Node>, key: string, status: Status)
    requires nodes != [] && SizeAfter(ByPool, 0, DropLast(nodes), key) != 0
    ensures SizeAfter(ByPool, 0, nodes, key) == SizeAfter(ByPool, 0, DropLast(nodes), key)
    ensures Heeded(ByPool, 0, nodes, key, status) - Heeded(ByPool, 0, DropLast(nodes), key, status)
         == if IsMatch(ByPool, Last(nodes), key, status) then 1 else 0
  {
    HeededLast(ByPool, 0, nodes, key, status);
  }

  /** A pool without a size takes it from the first node that tells one, and counts every node from that one on. */
  lemma {:induction false} FirstSizeDecides(nodes: seq<Node>, key: string, status: Status, i: nat)
    requires i < |nodes| && OwnerIn(ByPool, nodes[i]) == Some(key)
    requires TellsSize(nodes[i]) && Unsized(nodes[..i], key)
    ensures SizeAfter(ByPool, 0, nodes, key) == Wrap32(NodeSize(nodes[i]).value)
    ensures Heeded(ByPool, 0, nodes, key, status)
         == Readable(nodes[..i], key, status) + Matching(ByPool, nodes[i..], key, status)
  {
    SplitBeforeLast(nodes, i);
    if i < |nodes| - 1 {
      FirstSizeDecides(DropLast(nodes), key, status, i);
      SizeStays(nodes, key, status);
    } else {
      FirstSizeStarts(nodes, key, status);
      OnlyLast(nodes);
    }
  }

  lemma OnlyLast<T>(s: seq<T>)
    requires s != []
    ensures s[|s| - 1..] == [Last(s)]
  {
  }

  /** Counting from zero, with fewer than 2^31 nodes, nothing wraps. */
  lemma CountsFromZero(g: Grouping, ups: Ups, nodes: seq<Node>, key: string)
    requires key in ups && ups[key].readyCount == ups[key].unknownCount == 0 && |nodes| <= MAX_INT32
    ensures var size, up := ups[key].expectedCount, CountedAll(g, ups, nodes)[key];
            && up.readyCount == Heeded(g, size, nodes, key, True)
            && up.unknownCount == Heeded(g, size, nodes, key, Unknown)
            && up.expectedCount == SizeAfter(g, size, nodes, key)
            && up.expectedDown == ups[key].expectedDown && up.failed == ups[key].failed
            && up.attrs == ups[key].attrs
  {
    var size := ups[key].expectedCount;
    CountsAreExact(g, ups, nodes, key);
    HeededMatch(g, size, nodes, key, True);
    HeededMatch(g, size, nodes, key, Unknown);
    RaisedFromZero(ups[key], SizeAfter(g, size, nodes, key),
                   Heeded(g, size, nodes, key, True), Heeded(g, size, nodes, key, Unknown));
  }

  lemma RaisedFromZero(u: Upness, size: int32, ready: nat, unknown: nat)
    requires u.readyCount == u.unknownCount == 0 && ready <= MAX_INT32 && unknown <= MAX_INT32
    ensures Raised(u, size, ready, unknown).readyCount == ready
    ensures Raised(u, size, ready, unknown).unknownCount == unknown
  {
    WrapOfSmall(ready);
    WrapOfSmall(unknown);
  }

  /** The sum of the ready and unknown counts of the keys. */
  ghost function Reported(ups: Ups, keys: set<string>): int
    requires keys <= ups.Keys
  {
    if keys == {} then 0
    else
      var key :| key in keys;
      ups[key].readyCount + ups[key].unknownCount + Reported(ups, keys - {key})
  }

  function OwnedBy(g: Grouping, nodes: seq<Node>, keys: set<string>): nat {
    if nodes == [] then 0
    else
      var owner := OwnerIn(g, Last(nodes));
      OwnedBy(g, DropLast(nodes), keys) + (if owner.Some? && owner.value in keys then 1 else 0)
  }

  lemma {:induction false} OwnedBySplit(g: Grouping, nodes: seq<Node>, keys: set<string>, key: string)
    requires key in keys
    ensures Matching(g, nodes, key, True) + Matching(g, nodes, key, Unknown) + OwnedBy(g, nodes, keys - {key})
         <= OwnedBy(g, nodes, keys)
  {
    if nodes != [] {
      OwnedBySplit(g, DropLast(nodes), keys, key);
    }
  }

  lemma {:induction false} ReportedAreOwned(g: Grouping, nodes: seq<Node>, ups: Ups, keys: set<string>)
    requires keys <= ups.Keys
    requires forall key :: key in keys ==>
               ups[key].readyCount + ups[key].unknownCount
               <= Matching(g, nodes, key, True) + Matching(g, nodes, key, Unknown)
    ensures Reported(ups, keys) <= OwnedBy(g, nodes, keys)
  {
    if keys != {} {
      var key :| key in keys && Reported(ups, keys)
        == ups[key].readyCount + ups[key].unknownCount + Reported(ups, keys - {key});
      ReportedAreOwned(g, nodes, ups, keys - {key});
      OwnedBySplit(g, nodes, keys, key);
    }
  }

  lemma {:induction false} OwnedAtMostAll(g: Grouping, nodes: seq<Node>, keys: set<string>)
    ensures OwnedBy(g, nodes, keys) <= |nodes|
  {
    if nodes != [] {
      OwnedAtMostAll(g, DropLast(nodes), keys);
    }
  }

  /** No node is counted twice: all reported ready and unknown counts together are at most the number of nodes. */
  lemma CountsAreDisjoint(g: Grouping, ups: Ups, nodes: seq<Node>)
    requires |nodes| <= MAX_INT32
    requires forall key :: key in ups ==> ups[key].readyCount == ups[key].unknownCount == 0
    ensures Reported(CountedAll(g, ups, nodes), ups.Keys) <= |nodes|
  {
    var counted := CountedAll(g, ups, nodes);
    forall key | key in ups
      ensures counted[key].readyCount + counted[key].unknownCount
           <= Matching(g, nodes, key, True) + Matching(g, nodes, key, Unknown)
    {
      CountsFromZero(g, ups, nodes, key);
      HeededMatch(g, ups[key].expectedCount, nodes, key, True);
      HeededMatch(g, ups[key].expectedCount, nodes, key, Unknown);
    }
    ReportedAreOwned(g, nodes, counted, ups.Keys);
    OwnedAtMostAll(g, nodes, ups.Keys);
  }

  /******* JobSets *******/

  function Uids(jobSets: seq<JobSet>): map<string, string> {
    if jobSets == [] then map[]
    else Uids(DropLast(jobSets))[UidKey(Last(jobSets).namespace, Last(jobSets).name) := Last(jobSets).uid]
  }

  function JobSetUpness(js: JobSet): Upness {
    Upness(ReadyReplicas(js.readyCounts), SpecReplicas(js.jobs), 0,
           TerminalState(js.conditions) == COMPLETED, TerminalState(js.conditions) == FAILED, js.attrs)
  }

  function JobSetUps(jobSets: seq<JobSet>): Ups {
    if jobSets == [] then map[] else JobSetUps(DropLast(jobSets))[Last(jobSets).uid := JobSetUpness(Last(jobSets))]
  }

  /** The nodes of a JobSet before any has been counted. */
  function NodesUpness(js: JobSet): Upness {
    Upness(0, ExpectedNodes(js.jobs), 0, false, false, js.attrs)
  }

  function UncountedNodes(jobSets: seq<JobSet>): Ups {
    if jobSets == [] then map[]
    else UncountedNodes(DropLast(jobSets))[Last(jobSets).uid := NodesUpness(Last(jobSets))]
  }

  method ProcessJobSets(jobSets: seq<JobSet>, nodes: seq<Node>, sliceEnabled: bool)
    returns (jobSetsUp: Ups, jobSetNodesUp: Ups)
    ensures jobSetsUp == JobSetUps(jobSets)
    ensures jobSetNodesUp == if sliceEnabled then map[]
                             else CountedAll(ByJobSet(Uids(jobSets)), UncountedNodes(jobSets), nodes)
  {
    jobSetsUp, jobSetNodesUp := map[], map[];
    var uids: map<string, string> := map[];
    for i := 0 to |jobSets|
      invariant uids == Uids(jobSets[..i]) && jobSetsUp == JobSetUps(jobSets[..i])
      invariant jobSetNodesUp == if sliceEnabled then map[] else UncountedNodes(jobSets[..i])
    {
      var js := jobSets[i];
      assert DropLast(jobSets[..i + 1]) == jobSets[..i];
      uids := uids[UidKey(js.namespace, js.name) := js.uid];
      var up := ObserveJobSet(js);
      jobSetsUp := jobSetsUp[js.uid := up];
      if !sliceEnabled {
        var expected := GetExpectedNodeCount(js.jobs);
        jobSetNodesUp := jobSetNodesUp[js.uid := Upness(0, expected, 0, false, false, js.attrs)];
      }
    }
    assert jobSets[..|jobSets|] == jobSets;

    if !sliceEnabled {
      jobSetNodesUp := CountJobSetNodes(uids, jobSetNodesUp, nodes);
    }
  }

  /** The replicas of one JobSet. */
  method ObserveJobSet(js: JobSet) returns (up: Upness)
    ensures up == JobSetUpness(js)
  {
    var specReplicas, readyReplicas := GetJobSetReplicas(js.jobs, js.readyCounts);
    var state, terminal := GetJobSetTerminalState(js.conditions);
    var expectedDown, failed := terminal && state == COMPLETED, terminal && state == FAILED;
    up := Upness(readyReplicas, specReplicas, 0, expectedDown, failed, js.attrs);
  }

  /** The second loop: every node is counted for the JobSet that its labels name. */
  method CountJobSetNodes(uids: map<string, string>, uncounted: Ups, nodes: seq<Node>) returns (ups: Ups)
    ensures ups == CountedAll(ByJobSet(uids), uncounted, nodes)
  {
    ups := uncounted;
    for i := 0 to |nodes|
      invariant ups == CountedAll(ByJobSet(uids), uncounted, nodes[..i])
    {
      var node := nodes[i];
      assert DropLast(nodes[..i + 1]) == nodes[..i];
      if node.jobSetNamespace != "" && node.jobSetName != "" {
        var key := UidKey(node.jobSetNamespace, node.jobSetName);
        if key !in uids || uids[key] !in ups {
          continue;
        }
        var up := ups[uids[key]];
        if node.status.True? {
          up := up.(readyCount := Wrap32(up.readyCount + 1));
        } else if node.status.Unknown? {
          up := up.(unknownCount := Wrap32(up.unknownCount + 1));
        }
        ups := ups[uids[key] := up];
      }
    }
    assert nodes[..|nodes|] == nodes;
  }

  /** "namespace/name" determines both, if the names of the JobSet contain no slash. */
  lemma UidKeyInjective(namespace: string, name: string, ns: string, n: string)
    requires '/' !in namespace && '/' !in name
    requires UidKey(ns, n) == UidKey(namespace, name)
    ensures ns == namespace && n == name
  {
    var key := UidKey(namespace, name);
    assert key[|namespace|] == '/' && UidKey(ns, n)[|ns|] == '/';
    assert forall i :: 0 <= i < |namespace| ==> key[i] == namespace[i];
    assert forall i :: |namespace| < i < |key| ==> key[i] == name[i - |namespace| - 1];
    assert |ns| == |namespace|;
    assert ns == key[..|ns|] && n == key[|ns| + 1..];
    assert namespace == key[..|ns|] && name == key[|ns| + 1..];
  }

  /** What the API server guarantees of a list of JobSets. */
  predicate ProperJobSets(jobSets: seq<JobSet>) {
    && (forall i :: 0 <= i < |jobSets| ==>
          && jobSets[i].namespace != "" && '/' !in jobSets[i].namespace
          && jobSets[i].name != "" && '/' !in jobSets[i].name)
    && (forall i, j :: 0 <= i < j < |jobSets| ==>
          && jobSets[i].uid != jobSets[j].uid
          && (jobSets[i].namespace != jobSets[j].namespace || jobSets[i].name != jobSets[j].name))
  }

  lemma {:induction false} UidsAt(jobSets: seq<JobSet>, key: string)
    ensures key in Uids(jobSets) ==>
              exists i :: 0 <= i < |jobSets| && UidKey(jobSets[i].namespace, jobSets[i].name) == key
                          && Uids(jobSets)[key] == jobSets[i].uid
    ensures forall i :: 0 <= i < |jobSets| ==> UidKey(jobSets[i].namespace, jobSets[i].name) in Uids(jobSets)
  {
    if jobSets != [] {
      UidsAt(DropLast(jobSets), key);
      assert jobSets[|jobSets| - 1] == Last(jobSets);
    }
  }

  /** A node is counted for a JobSet exactly if its labels name that JobSet. */
  lemma {:induction false} OwnerIsLabelled(jobSets: seq<JobSet>, i: nat, node: Node)
    requires ProperJobSets(jobSets) && i < |jobSets|
    ensures OwnerIn(ByJobSet(Uids(jobSets)), node) == Some(jobSets[i].uid)
       <==> node.jobSetNamespace == jobSets[i].namespace && node.jobSetName == jobSets[i].name
  {
    var js, key := jobSets[i], UidKey(node.jobSetNamespace, node.jobSetName);
    UidsAt(jobSets, key);
    if key in Uids(jobSets) {
      var j :| 0 <= j < |jobSets| && UidKey(jobSets[j].namespace, jobSets[j].name) == key
               && Uids(jobSets)[key] == jobSets[j].uid;
      UidKeyInjective(jobSets[j].namespace, jobSets[j].name, node.jobSetNamespace, node.jobSetName);
    }
  }

  function Labelled(nodes: seq<Node>, namespace: string, name: string, status: Status): nat {
    if nodes == [] then 0
    else
      var n := Last(nodes);
      Labelled(DropLast(nodes), namespace, name, status)
        + (if n.jobSetNamespace == namespace && n.jobSetName == name && n.status == status then 1 else 0)
  }

  lemma {:induction false} MatchingIsLabelled(jobSets: seq<JobSet>, i: nat, nodes: seq<Node>, status: Status)
    requires ProperJobSets(jobSets) && i < |jobSets|
    ensures Matching(ByJobSet(Uids(jobSets)), nodes, jobSets[i].uid, status)
         == Labelled(nodes, jobSets[i].namespace, jobSets[i].name, status)
  {
    if nodes != [] {
      MatchingIsLabelled(jobSets, i, DropLast(nodes), status);
      OwnerIsLabelled(jobSets, i, Last(nodes));
    }
  }

  lemma {:induction false} UncountedAt(jobSets: seq<JobSet>, i: nat)
    requires ProperJobSets(jobSets) && i < |jobSets|
    ensures jobSets[i].uid in UncountedNodes(jobSets)
    ensures UncountedNodes(jobSets)[jobSets[i].uid] == NodesUpness(jobSets[i])
  {
    if i < |jobSets| - 1 {
      UncountedAt(DropLast(jobSets), i);
    }
  }

  /**
   * A JobSet is observed as up exactly if as many of its replicas are ready as are specified, and it has not completed;
   * as failed exactly if failure is its first terminal condition.
   */
  lemma {:induction false} JobSetUpsAt(jobSets: seq<JobSet>, i: nat, threshold: real)
    requires ProperJobSets(jobSets) && i < |jobSets| && ValidThreshold(threshold)
    requires SpecReplicas(jobSets[i].jobs) >= 0
    ensures jobSets[i].uid in JobSetUps(jobSets)
    ensures var js, up := jobSets[i], JobSetUps(jobSets)[jobSets[i].uid];
            && (Gauge(up, threshold) <==> && ReadyReplicas(js.readyCounts) == SpecReplicas(js.jobs)
                                          && TerminalState(js.conditions) != "Completed")
            && up.readyCount == ReadyReplicas(js.readyCounts) && up.expectedCount == SpecReplicas(js.jobs)
            && up.unknownCount == 0
            && (up.expectedDown <==> TerminalState(js.conditions) == "Completed")
            && (up.failed <==> TerminalState(js.conditions) == "Failed")
            && up.attrs == js.attrs
  {
    if i < |jobSets| - 1 {
      JobSetUpsAt(DropLast(jobSets), i, threshold);
    } else {
      MaxUnknownBounds(SpecReplicas(jobSets[i].jobs), threshold);
      WrapOfSmall(ReadyReplicas(jobSets[i].readyCounts));
    }
  }

  /** For every JobSet the reported counts are the numbers of nodes labelled with it and ready, or unknown. */
  lemma {:induction false} JobSetNodeCounts(jobSets: seq<JobSet>, nodes: seq<Node>, i: nat)
    requires ProperJobSets(jobSets) && i < |jobSets| && |nodes| <= MAX_INT32
    ensures var js := jobSets[i];
            var ups := CountedAll(ByJobSet(Uids(jobSets)), UncountedNodes(jobSets), nodes);
            && js.uid in ups
            && var up := ups[js.uid];
               && up.readyCount == Labelled(nodes, js.namespace, js.name, True)
               && up.unknownCount == Labelled(nodes, js.namespace, js.name, Unknown)
               && up.expectedCount == ExpectedNodes(js.jobs)
               && !up.expectedDown && !up.failed && up.attrs == js.attrs
  {
    var g, ups, js := ByJobSet(Uids(jobSets)), UncountedNodes(jobSets), jobSets[i];
    UncountedAt(jobSets, i);
    CountsFromZero(g, ups, nodes, js.uid);
    forall status ensures Heeded(g, ups[js.uid].expectedCount, nodes, js.uid, status)
                       == Labelled(nodes, js.namespace, js.name, status) {
      SizedHeedsAll(g, ups[js.uid].expectedCount, nodes, js.uid, status);
      MatchingIsLabelled(jobSets, i, nodes, status);
    }
    SizedHeedsAll(g, ups[js.uid].expectedCount, nodes, js.uid, True);
  }

  /** Neither expected down nor failed, and up exactly if the unknown members are tolerated and none is missing. */
  predicate UpAsCounted(u: Upness, now: int, threshold: real, ready: nat, unknown: nat, m: int, expected: int) {
    Observe(now, u, threshold) == UpEvent(unknown <= m && Wrap32(ready + unknown) == expected, false, false, now)
  }

  lemma CountedIsUp(u: Upness, now: int, threshold: real, ready: nat, unknown: nat, m: int)
    requires Tolerated(m, u.expectedCount, threshold) && !u.expectedDown && !u.failed
    requires u.readyCount == ready && u.unknownCount == unknown
    ensures UpAsCounted(u, now, threshold, ready, unknown, m, u.expectedCount)
  {
    UpIff(u, threshold, m);
  }

  /**
   * The nodes of a JobSet are up exactly if all nodes it expects are labelled with it and ready or unknown, and the
   * unknown ones are no more than the whole number nearest to the tolerated share, the even one at a tie.
   */
  lemma JobSetNodesUpIff(jobSets: seq<JobSet>, nodes: seq<Node>, i: nat, now: int, threshold: real, m: int)
    requires ProperJobSets(jobSets) && i < |jobSets| && |nodes| <= MAX_INT32
    requires Tolerated(m, ExpectedNodes(jobSets[i].jobs), threshold)
    ensures var js, ups := jobSets[i], CountedAll(ByJobSet(Uids(jobSets)), UncountedNodes(jobSets), nodes);
            && js.uid in ups
            && UpAsCounted(ups[js.uid], now, threshold, Labelled(nodes, js.namespace, js.name, True),
                           Labelled(nodes, js.namespace, js.name, Unknown), m, ExpectedNodes(js.jobs))
  {
    var js, ups := jobSets[i], CountedAll(ByJobSet(Uids(jobSets)), UncountedNodes(jobSets), nodes);
    JobSetNodeCounts(jobSets, nodes, i);
    CountedIsUp(ups[js.uid], now, threshold, Labelled(nodes, js.namespace, js.name, True),
                Labelled(nodes, js.namespace, js.name, Unknown), m);
  }

  predicate HasUid(jobSets: seq<JobSet>, uid: string) {
    exists i :: 0 <= i < |jobSets| && jobSets[i].uid == uid
  }

  lemma HasUidSnoc(jobSets: seq<JobSet>, uid: string)
    requires jobSets != []
    ensures HasUid(jobSets, uid) <==> HasUid(DropLast(jobSets), uid) || Last(jobSets).uid == uid
  {
    var before := DropLast(jobSets);
    assert forall i :: 0 <= i < |before| ==> before[i] == jobSets[i];
    assert jobSets[|jobSets| - 1] == Last(jobSets);
  }

  lemma {:induction false} JobSetUpsKeys(jobSets: seq<JobSet>, uid: string)
    ensures uid in JobSetUps(jobSets) <==> HasUid(jobSets, uid)
    ensures uid in UncountedNodes(jobSets) <==> HasUid(jobSets, uid)
  {
    if jobSets != [] {
      JobSetUpsKeys(DropLast(jobSets), uid);
      HasUidSnoc(jobSets, uid);
    }
  }

  /** Exactly the listed JobSets are reported, in both maps. */
  lemma JobSetKeys(jobSets: seq<JobSet>, nodes: seq<Node>, uid: string)
    ensures uid in JobSetUps(jobSets) <==> HasUid(jobSets, uid)
    ensures uid in CountedAll(ByJobSet(Uids(jobSets)), UncountedNodes(jobSets), nodes) <==> HasUid(jobSets, uid)
  {
    JobSetUpsKeys(jobSets, uid);
  }

  /******* Node pools *******/

  /** A pool without a topology is not a TPU pool; one of which the size cannot be told is skipped. */
  function PoolUpness(np: NodePool): Option<Upness> {
    if np.topology.None? || np.topology.value == "" then None
    else
      var size := Topology.PoolSize(Topology.ChipCount(np.topology.value), Topology.MachineChips(np.machineType));
      if size.Err? then None
      else Some(Upness(0, Wrap32(size.value), 0, np.status == "STOPPING" || np.status == "DELETING",
                       np.status == "ERROR" || np.status == "RUNNING_WITH_ERROR", np.attrs))
  }

  function PoolUps(pools: seq<NodePool>): Ups {
    if pools == [] then map[]
    else
      var before, up := PoolUps(DropLast(pools)), PoolUpness(Last(pools));
      if up.Some? then before[Last(pools).name := up.value] else before
  }

  method PollResources(nodeList: Result<seq<Node>>, poolList: Result<seq<NodePool>>) returns (r: Result<Ups>)
    ensures r == if nodeList.Err? || poolList.Err? then Err
                 else Ok(CountedAll(ByPool, PoolUps(poolList.value), nodeList.value))
  {
    if nodeList.Err? {
      return Err;
    }
    if poolList.Err? {
      return Err;
    }
    var nodes, pools := nodeList.value, poolList.value;
    var nodePoolsUp: Ups := map[];
    for i := 0 to |pools|
      invariant nodePoolsUp == PoolUps(pools[..i])
    {
      var np := pools[i];
      assert DropLast(pools[..i + 1]) == pools[..i];
      if np.topology.None? || np.topology.value == "" {
        continue;
      }
      var up := Upness(0, 0, 0, np.status == "STOPPING" || np.status == "DELETING",
                       np.status == "ERROR" || np.status == "RUNNING_WITH_ERROR", np.attrs);
      var expected := Topology.GetExpectedTPUNodePoolSize(np.topology, np.machineType);
      if expected.Err? {
        continue;
      }
      nodePoolsUp := nodePoolsUp[np.name := up.(expectedCount := Wrap32(expected.value))];
    }
    assert pools[..|pools|] == pools;

    nodePoolsUp := CountPoolNodes(nodePoolsUp, nodes);
    return Ok(nodePoolsUp);
  }

  /** The second loop: every TPU node is counted for its pool. */
  method CountPoolNodes(pools: Ups, nodes: seq<Node>) returns (ups: Ups)
    ensures ups == CountedAll(ByPool, pools, nodes)
  {
    ups := pools;
    for i := 0 to |nodes|
      invariant ups == CountedAll(ByPool, pools, nodes[..i])
    {
      assert DropLast(nodes[..i + 1]) == nodes[..i];
      ups := CountPoolNode(ups, nodes[i]);
    }
    assert nodes[..|nodes|] == nodes;
  }

  /** The body of that loop. */
  method CountPoolNode(ups: Ups, node: Node) returns (ups': Ups)
    ensures ups' == Counted(ByPool, ups, node)
  {
    ups' := ups;
    if node.pool.None? || node.topology.None? || node.pool.value !in ups {
      return;
    }
    var up := ups[node.pool.value];
    if up.expectedCount == 0 {
      var size := Topology.GetExpectedNodeSize(node.topology, node.acceleratorCount);
      if size.Err? {
        return;
      }
      up := up.(expectedCount := Wrap32(size.value));
    }
    if node.status.True? {
      up := up.(readyCount := Wrap32(up.readyCount + 1));
    } else if node.status.Unknown? {
      up := up.(unknownCount := Wrap32(up.unknownCount + 1));
    }
    ups' := ups[node.pool.value := up];
  }

  lemma {:induction false} PoolUpsAt(pools: seq<NodePool>, i: nat)
    requires i < |pools| && PoolUpness(pools[i]).Some?
    requires forall j :: i < j < |pools| ==> pools[j].name != pools[i].name
    ensures pools[i].name in PoolUps(pools) && PoolUps(pools)[pools[i].name] == PoolUpness(pools[i]).value
  {
    if i < |pools| - 1 {
      PoolUpsAt(DropLast(pools), i);
    }
  }

  predicate IsReadable(np: NodePool) {
    np.topology.Some? && Topology.ChipCount(np.topology.value).Ok? && Topology.MachineChips(np.machineType).Ok?
  }

  lemma ReadableIsReported(np: NodePool)
    ensures PoolUpness(np).Some? <==> IsReadable(np)
  {
    Topology.SplitOfPlain("", 'x');
  }

  predicate HasReadable(pools: seq<NodePool>, name: string) {
    exists i :: 0 <= i < |pools| && pools[i].name == name && IsReadable(pools[i])
  }

  lemma HasReadableSnoc(pools: seq<NodePool>, name: string)
    requires pools != []
    ensures HasReadable(pools, name)
       <==> HasReadable(DropLast(pools), name) || (Last(pools).name == name && IsReadable(Last(pools)))
  {
    var before := DropLast(pools);
    assert forall i :: 0 <= i < |before| ==> before[i] == pools[i];
    assert pools[|pools| - 1] == Last(pools);
  }

  lemma {:induction false} PoolUpsKeys(pools: seq<NodePool>, name: string)
    ensures name in PoolUps(pools) <==> HasReadable(pools, name)
  {
    if pools != [] {
      PoolUpsKeys(DropLast(pools), name);
      HasReadableSnoc(pools, name);
      ReadableIsReported(Last(pools));
    }
  }

  /** A key is reported exactly if it names a pool with a topology and a machine type that can both be read. */
  lemma PoolKeys(pools: seq<NodePool>, nodes: seq<Node>, name: string)
    ensures name in CountedAll(ByPool, PoolUps(pools), nodes) <==> HasReadable(pools, name)
  {
    PoolUpsKeys(pools, name);
  }

  /** So many machines of so many chips are the most that fit a block with these sides. */
  predicate Machines(sides: seq<nat>, chips: nat, size: nat) {
    && |sides| >= 2 && Topology.Fit64(sides) && Topology.Volume(sides) <= MAX_INT64
    && 1 <= chips <= MAX_INT64 && size <= MAX_INT32
    && size * chips <= Topology.Volume(sides) < (size + 1) * chips
  }

  lemma SizeOfMachines(sides: seq<nat>, chips: nat, size: nat)
    requires Machines(sides, chips, size)
    ensures Topology.ChipCount(Topology.Join(Topology.Decimals(sides), 'x')) == Ok(Topology.Volume(sides))
    ensures Topology.PoolSize(Ok(Topology.Volume(sides)), Ok(chips)) == Ok(size)
  {
    Topology.TopologyOf(sides);
    QuotientIs(Topology.Volume(sides), chips, size);
    Topology.SizeIsQuotient(Topology.Volume(sides), chips, size);
  }

  /** The expected size of a pool: as many machines of its type as fit its topology. */
  lemma PoolSizeIs(np: NodePool, sides: seq<nat>, family: string, chips: nat, size: nat)
    requires Machines(sides, chips, size)
    requires np.topology == Some(Topology.Join(Topology.Decimals(sides), 'x'))
    requires np.machineType == family + "-" + (Topology.Decimal(chips) + "t")
    ensures PoolUpness(np).Some? && PoolUpness(np).value.expectedCount == size
  {
    SizeOfMachines(sides, chips, size);
    Topology.MachineChipsOf(family, chips);
    SizedPool(np, Topology.Volume(sides), chips, size);
  }

  lemma SizedPool(np: NodePool, product: nat, chips: nat, size: nat)
    requires np.topology.Some? && Topology.ChipCount(np.topology.value) == Ok(product)
    requires Topology.MachineChips(np.machineType) == Ok(chips)
    requires Topology.PoolSize(Ok(product), Ok(chips)) == Ok(size) && size <= MAX_INT32
    ensures PoolUpness(np).Some? && PoolUpness(np).value.expectedCount == size
  {
    ReadableIsReported(np);
    WrapOfSmall(size);
  }

  /** The same from the labels of a node. */
  lemma NodeSizeIs(node: Node, sides: seq<nat>, chips: nat, size: nat)
    requires Machines(sides, chips, size)
    requires node.topology == Some(Topology.Join(Topology.Decimals(sides), 'x'))
    requires node.acceleratorCount == Some(Topology.Decimal(chips))
    ensures NodeSize(node) == Ok(size)
  {
    SizeOfMachines(sides, chips, size);
    Topology.AtoiOfDecimal(chips);
  }

  /** How many TPU nodes are labelled with the pool and have the status. */
  function PoolLabelled(nodes: seq<Node>, pool: string, status: Status): nat {
    if nodes == [] then 0
    else
      var n := Last(nodes);
      PoolLabelled(DropLast(nodes), pool, status)
        + (if n.pool == Some(pool) && n.topology != None && n.status == status then 1 else 0)
  }

  lemma {:induction false} MatchingIsPoolLabelled(nodes: seq<Node>, pool: string, status: Status)
    ensures Matching(ByPool, nodes, pool, status) == PoolLabelled(nodes, pool, status)
  {
    if nodes != [] {
      MatchingIsPoolLabelled(DropLast(nodes), pool, status);
    }
  }

  /** The pool is reported: it is a TPU pool of which the size can be told, and no later one has its name. */
  predicate Listed(pools: seq<NodePool>, i: nat) {
    && i < |pools| && PoolUpness(pools[i]).Some?
    && forall j :: i < j < |pools| ==> pools[j].name != pools[i].name
  }

  /** For every pool of known size the reported counts are the numbers of its TPU nodes that are ready, or unknown. */
  lemma {:induction false} PoolNodeCounts(pools: seq<NodePool>, nodes: seq<Node>, i: nat)
    requires Listed(pools, i) && PoolUpness(pools[i]).value.expectedCount != 0 && |nodes| <= MAX_INT32
    ensures var np, ups := pools[i], CountedAll(ByPool, PoolUps(pools), nodes);
            && np.name in ups
            && ups[np.name].expectedCount == PoolUpness(np).value.expectedCount
            && ups[np.name].readyCount == PoolLabelled(nodes, np.name, True)
            && ups[np.name].unknownCount == PoolLabelled(nodes, np.name, Unknown)
            && (ups[np.name].expectedDown <==> np.status == "STOPPING" || np.status == "DELETING")
            && (ups[np.name].failed <==> np.status == "ERROR" || np.status == "RUNNING_WITH_ERROR")
            && ups[np.name].attrs == np.attrs
  {
    MatchingIsPoolLabelled(nodes, pools[i].name, True);
    MatchingIsPoolLabelled(nodes, pools[i].name, Unknown);
    PoolUpsAt(pools, i);
    CountsFromZero(ByPool, PoolUps(pools), nodes, pools[i].name);
    SizedHeedsAll(ByPool, PoolUpness(pools[i]).value.expectedCount, nodes, pools[i].name, True);
    SizedHeedsAll(ByPool, PoolUpness(pools[i]).value.expectedCount, nodes, pools[i].name, Unknown);
  }

  /**
   * A pool whose own size is zero gets the size of its first node that tells one. Of the nodes before that, and of all
   * nodes if there is none, it counts only those from which some size can be read.
   */
  lemma {:induction false} UnsizedPoolNodeCounts(pools: seq<NodePool>, nodes: seq<Node>, i: nat, j: nat)
    requires Listed(pools, i) && PoolUpness(pools[i]).value.expectedCount == 0 && |nodes| <= MAX_INT32
    requires j <= |nodes| && Unsized(nodes[..j], pools[i].name)
    requires j < |nodes| ==> OwnerIn(ByPool, nodes[j]) == Some(pools[i].name) && TellsSize(nodes[j])
    ensures var name, ups := pools[i].name, CountedAll(ByPool, PoolUps(pools), nodes);
            && name in ups
            && ups[name].expectedCount == (if j < |nodes| then Wrap32(NodeSize(nodes[j]).value) else 0)
            && ups[name].readyCount == Readable(nodes[..j], name, True) + Matching(ByPool, nodes[j..], name, True)
            && ups[name].unknownCount
            == Readable(nodes[..j], name, Unknown) + Matching(ByPool, nodes[j..], name, Unknown)
  {
    var name := pools[i].name;
    PoolUpsAt(pools, i);
    CountsFromZero(ByPool, PoolUps(pools), nodes, name);
    if j < |nodes| {
      FirstSizeDecides(nodes, name, True, j);
      FirstSizeDecides(nodes, name, Unknown, j);
    } else {
      assert nodes[..j] == nodes && nodes[j..] == [];
      UnsizedHeedsReadable(nodes, name, True);
      UnsizedHeedsReadable(nodes, name, Unknown);
    }
  }

  lemma AllReadyIsUp(u: Upness, now: int, threshold: real)
    requires ValidThreshold(threshold)
    requires u.expectedCount >= 0 && u.unknownCount == 0 && u.readyCount == u.expectedCount && !u.expectedDown
    ensures Observe(now, u, threshold) == UpEvent(true, false, u.failed, now)
  {
    MaxUnknownBounds(u.expectedCount, threshold);
  }

  lemma ErrorPoolFlags(np: NodePool)
    requires PoolUpness(np).Some? && np.status == "RUNNING_WITH_ERROR"
    ensures PoolUpness(np).value.failed && !PoolUpness(np).value.expectedDown
  {
  }

  /** A pool that runs with an error while all its nodes are counted as ready is logged as up and failed at once. */
  lemma ErrorPoolIsUpAndFailed(pools: seq<NodePool>, nodes: seq<Node>, i: nat, now: int, threshold: real)
    requires ValidThreshold(threshold) && Listed(pools, i) && |nodes| <= MAX_INT32
    requires pools[i].status == "RUNNING_WITH_ERROR"
    requires var name, size := pools[i].name, PoolUpness(pools[i]).value.expectedCount;
             size != 0 && PoolLabelled(nodes, name, True) == size && PoolLabelled(nodes, name, Unknown) == 0
    ensures var ups := CountedAll(ByPool, PoolUps(pools), nodes);
            && pools[i].name in ups
            && Observe(now, ups[pools[i].name], threshold) == UpEvent(true, false, true, now)
  {
    PoolNodeCounts(pools, nodes, i);
    ErrorPoolFlags(pools[i]);
    AllReadyIsUp(CountedAll(ByPool, PoolUps(pools), nodes)[pools[i].name], now, threshold);
  }
}
